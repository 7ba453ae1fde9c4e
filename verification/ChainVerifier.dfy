/**
 * The v3 export grammar and its integrity verifier (apps/wire/src/krater/export.ts):
 * framing, every payload, row and chain digest, embedded checkpoints, the trailer,
 * and the pins that segments and restores add. A line is modelled after JSON
 * parsing; a record of the wrong shape is an `OtherLine`.
 */
module ChainVerifier {
  import opened Wrappers
  import opened Digests
  import EcmaText
  import KeyOrder

  const MAX_SAFE_INTEGER := 9_007_199_254_740_991
  const MAX_TITLE_LENGTH := 160

  datatype Date = Date(year: nat, month: nat, day: nat)

  datatype Checkpoint = Checkpoint(problem: string, seq_: int, root: string, digest: string)

  datatype Event = Event(
    seq_: int,
    envelope: Envelope,
    payloadJson: string,
    payloadSha256: string,
    rowDigest: string,
    chainDigest: string)

  datatype Header = Header(problem: string, title: string, date: Date, checkpoints: seq<Checkpoint>)

  /** One Ed25519 signature over a checkpoint. */
  datatype Signature = Signature(
    checkpointSeq: int,
    rootChainDigest: string,
    checkpointDigest: string,
    keyId: string,
    signature: string)

  datatype PublishedKey = PublishedKey(keyId: string, publicKey: string)

  datatype Bundle = Bundle(problem: string, through: int, keys: seq<PublishedKey>, signatures: seq<Signature>)

  datatype Notice = Notice(seq_: int, eventId: string, payloadSha256: string)

  /** The companion of a public export; `fields` is the canonical text its digest covers. */
  datatype Context = Context(problem: string, through: int, sha256: string, notices: seq<Notice>, fields: string)

  datatype Line =
    | HeaderLine(header: Header)
    | EventLine(event: Event)
    | EndLine(problem: string, eventCount: int, finalCursor: int)
    | PublicHeaderLine(header: Header, contextSha256: string, bundle: Option<Bundle>)
    | ContextLine(context: Context)
    | OtherLine

  datatype Archive = Archive(header: Header, events: seq<Event>, eventCount: int, finalCursor: int)

  // ----- field checks

  predicate HexChar(c: char) {
    '0' <= c <= '9' || 'a' <= c <= 'f'
  }

  predicate Hex(s: string, length: nat) {
    |s| == length && forall i :: 0 <= i < |s| ==> HexChar(s[i])
  }

  predicate Hex64(s: string) {
    Hex(s, 64)
  }

  predicate NonNegative(n: int) {
    0 <= n <= MAX_SAFE_INTEGER
  }

  predicate Positive(n: int) {
    0 < n <= MAX_SAFE_INTEGER
  }

  predicate IdChar(c: char) {
    'A' <= c <= 'Z' || '0' <= c <= '9'
  }

  predicate ProblemId(s: string) {
    && 4 <= |s| <= 33
    && s[0] == 'P' && s[1] == '-' && IdChar(s[2])
    && forall i :: 3 <= i < |s| ==> IdChar(s[i]) || s[i] == '-'
  }

  /** Not blank, and at most 160 UTF-16 code units. */
  predicate TitleOk(title: string) {
    |KeyOrder.Encode(title)| <= MAX_TITLE_LENGTH && exists i :: 0 <= i < |title| && !EcmaText.Whitespace(title[i])
  }

  function DaysInMonth(year: nat, month: nat): nat {
    if month == 2 then if year % 4 == 0 && (year % 100 != 0 || year % 400 == 0) then 29 else 28
    else if month in {4, 6, 9, 11} then 30
    else 31
  }

  predicate RealDate(d: Date) {
    d.year <= 9999 && 1 <= d.month <= 12 && 1 <= d.day <= DaysInMonth(d.year, d.month)
  }

  // ----- the grammar

  predicate CheckpointShape(c: Checkpoint, problem: string) {
    c.problem == problem && Positive(c.seq_) && Hex64(c.root) && Hex64(c.digest)
  }

  predicate Increasing(checkpoints: seq<Checkpoint>) {
    forall i, j :: 0 <= i < j < |checkpoints| ==> checkpoints[i].seq_ < checkpoints[j].seq_
  }

  predicate HeaderOk(h: Header) {
    && ProblemId(h.problem) && TitleOk(h.title) && RealDate(h.date)
    && (forall i :: 0 <= i < |h.checkpoints| ==> CheckpointShape(h.checkpoints[i], h.problem))
    && Increasing(h.checkpoints)
  }

  predicate EventOk(e: Event) {
    Positive(e.seq_) && Hex64(e.payloadSha256) && Hex64(e.rowDigest) && Hex64(e.chainDigest)
  }

  predicate EventLinesOk(lines: seq<Line>) {
    forall i :: 0 <= i < |lines| ==> lines[i].EventLine? && EventOk(lines[i].event)
  }

  function EventsOf(lines: seq<Line>): (events: seq<Event>)
    requires forall i :: 0 <= i < |lines| ==> lines[i].EventLine?
    ensures |events| == |lines|
    ensures forall i :: 0 <= i < |lines| ==> events[i] == lines[i].event
  {
    seq(|lines|, i requires 0 <= i < |lines| => lines[i].event)
  }

  function ParseRange(lines: seq<Line>, segment: bool): Option<Archive> {
    if |lines| < 2 || !lines[0].HeaderLine? || !HeaderOk(lines[0].header) then None
    else
      var header := lines[0].header;
      var end := lines[|lines| - 1];
      if !end.EndLine? || !NonNegative(end.eventCount) || !NonNegative(end.finalCursor)
         || end.problem != header.problem then None
      else if !EventLinesOk(lines[1..|lines| - 1]) then None
      else
        var events := EventsOf(lines[1..|lines| - 1]);
        var last := if !segment then |events| else if events == [] then 0 else events[|events| - 1].seq_;
        if |header.checkpoints| > |events|
           || exists i :: 0 <= i < |header.checkpoints| && header.checkpoints[i].seq_ > last then None
        else Some(Archive(header, events, end.eventCount, end.finalCursor))
  }

  // ----- one pass over the events

  datatype Pin = Pin(problem: string, seq_: int, root: string)

  datatype Progress = Progress(previous: string, expectedSeq: nat, nextCheckpoint: nat, matchedPin: bool)

  /** The three digests of one event, and its place in the sequence. */
  predicate LinkOk(sha: Hash, problem: string, previous: string, seq_: nat, e: Event) {
    && e.seq_ == seq_
    && sha(Raw(e.payloadJson)) == e.payloadSha256
    && sha(RowRecord(problem, seq_, e.payloadSha256, e.envelope)) == e.rowDigest
    && sha(LinkRecord(problem, seq_, e.payloadSha256, e.rowDigest, previous)) == e.chainDigest
  }

  predicate CheckpointMatches(sha: Hash, problem: string, c: Checkpoint, e: Event) {
    c.seq_ >= 0 && c.seq_ == e.seq_ && c.root == e.chainDigest && sha(CheckpointRecord(problem, c.seq_, c.root)) == c.digest
  }

  function Step(sha: Hash, h: Header, pin: Option<Pin>, p: Progress, e: Event): Option<Progress> {
    var atPin := pin.Some? && pin.value.seq_ == e.seq_;
    var atCheckpoint := p.nextCheckpoint < |h.checkpoints| && h.checkpoints[p.nextCheckpoint].seq_ == e.seq_;
    if !LinkOk(sha, h.problem, p.previous, p.expectedSeq, e) then None
    else if atPin && pin.value.root != e.chainDigest then None
    else if atCheckpoint && !CheckpointMatches(sha, h.problem, h.checkpoints[p.nextCheckpoint], e) then None
    else
      Some(Progress(e.chainDigest, p.expectedSeq + 1,
                    if atCheckpoint then p.nextCheckpoint + 1 else p.nextCheckpoint, p.matchedPin || atPin))
  }

  function Run(sha: Hash, h: Header, pin: Option<Pin>, start: Progress, events: seq<Event>): Option<Progress> {
    if events == [] then Some(start)
    else
      var p :- Run(sha, h, pin, start, events[..|events| - 1]);
      Step(sha, h, pin, p, events[|events| - 1])
  }

  datatype Verified = Intact(eventCount: nat, finalChainDigest: string) | Broken

  predicate PinOk(pin: Option<Pin>, problem: string) {
    pin.Some? ==> pin.value.problem == problem && Positive(pin.value.seq_) && Hex64(pin.value.root)
  }

  predicate PrecedingOk(sha: Hash, preceding: Option<Pin>, pin: Option<Pin>, problem: string) {
    preceding.Some? ==>
      && preceding.value.problem == problem && NonNegative(preceding.value.seq_) && Hex64(preceding.value.root)
      && (preceding.value.seq_ == 0 ==> preceding.value.root == sha(GenesisRecord(problem)))
      && pin.Some? && preceding.value.seq_ < pin.value.seq_
  }

  function StartRoot(sha: Hash, preceding: Option<Pin>, problem: string): string {
    if preceding.Some? then preceding.value.root else sha(GenesisRecord(problem))
  }

  function StartSeq(preceding: Option<Pin>): nat {
    if preceding.Some? && preceding.value.seq_ >= 0 then preceding.value.seq_ else 0
  }

  function VerifyRange(sha: Hash, lines: seq<Line>, pin: Option<Pin>, preceding: Option<Pin>): Verified {
    var parsed := ParseRange(lines, preceding.Some?);
    if parsed.None? then Broken
    else
      var archive := parsed.value;
      var problem := archive.header.problem;
      if !PinOk(pin, problem) || !PrecedingOk(sha, preceding, pin, problem) then Broken
      else
        var start := Progress(StartRoot(sha, preceding, problem), StartSeq(preceding) + 1, 0, pin.None?);
        var run := Run(sha, archive.header, pin, start, archive.events);
        if run.None? then Broken
        else if archive.eventCount != |archive.events| || archive.finalCursor != run.value.expectedSeq - 1
                || run.value.nextCheckpoint != |archive.header.checkpoints| || !run.value.matchedPin then Broken
        else Intact(|archive.events|, run.value.previous)
  }

  /** The verifier's loop, against the fold that specifies it. */
  method RunEvents(sha: Hash, h: Header, pin: Option<Pin>, start: Progress, events: seq<Event>)
    returns (r: Option<Progress>)
    ensures r == Run(sha, h, pin, start, events)
  {
    hide Run, Step;
    var p := start;
    RunNothing(sha, h, pin, start);
    for i := 0 to |events|
      invariant Run(sha, h, pin, start, events[..i]) == Some(p)
    {
      var next := Step(sha, h, pin, p, events[i]);
      RunSnoc(sha, h, pin, start, events, i);
      if next.None? {
        RunStaysBroken(sha, h, pin, start, events, i + 1);
        return None;
      }
      p := next.value;
    }
    assert events[..|events|] == events;
    r := Some(p);
  }

  method VerifyExportRange(sha: Hash, lines: seq<Line>, pin: Option<Pin>, preceding: Option<Pin>)
    returns (r: Verified)
    ensures r == VerifyRange(sha, lines, pin, preceding)
  {
    hide Run, StartRoot, StartSeq, ParseRange, PinOk, PrecedingOk;
    var parsed := ParseRange(lines, preceding.Some?);
    if parsed.None? {
      return Broken;
    }
    var archive := parsed.value;
    var problem := archive.header.problem;
    if !PinOk(pin, problem) || !PrecedingOk(sha, preceding, pin, problem) {
      return Broken;
    }
    var start := Progress(StartRoot(sha, preceding, problem), StartSeq(preceding) + 1, 0, pin.None?);
    var run := RunEvents(sha, archive.header, pin, start, archive.events);
    if run.None? || archive.eventCount != |archive.events| || archive.finalCursor != run.value.expectedSeq - 1
       || run.value.nextCheckpoint != |archive.header.checkpoints| || !run.value.matchedPin {
      return Broken;
    }
    r := Intact(|archive.events|, run.value.previous);
  }

  lemma RunNothing(sha: Hash, h: Header, pin: Option<Pin>, start: Progress)
    ensures Run(sha, h, pin, start, []) == Some(start)
  {
  }

  lemma RunSnoc(sha: Hash, h: Header, pin: Option<Pin>, start: Progress, events: seq<Event>, i: nat)
    requires i < |events| && Run(sha, h, pin, start, events[..i]).Some?
    ensures Run(sha, h, pin, start, events[..i + 1]) ==
            Step(sha, h, pin, Run(sha, h, pin, start, events[..i]).value, events[i])
  {
    hide Step;
    assert events[..i + 1][..i] == events[..i];
  }

  lemma {:induction false} RunStaysBroken(
    sha: Hash, h: Header, pin: Option<Pin>, start: Progress, events: seq<Event>, i: nat)
    requires i <= |events|
    requires Run(sha, h, pin, start, events[..i]).None?
    ensures Run(sha, h, pin, start, events).None?
    decreases |events|
  {
    hide Step;
    if i == |events| {
      assert events[..i] == events;
    } else {
      assert events[..|events| - 1][..i] == events[..i];
      RunStaysBroken(sha, h, pin, start, events[..|events| - 1], i);
    }
  }

  // ----- what the pass establishes, without the pass

  function PreviousDigest(root: string, events: seq<Event>, i: nat): string
    requires i <= |events|
  {
    if i == 0 then root else events[i - 1].chainDigest
  }

  function FinalDigest(root: string, events: seq<Event>): string {
    PreviousDigest(root, events, |events|)
  }

  /** Events numbered start+1, start+2, ... whose digests chain from `root`. */
  predicate Linked(sha: Hash, problem: string, start: nat, root: string, events: seq<Event>) {
    forall i {:trigger PreviousDigest(root, events, i)} :: 0 <= i < |events| ==> LinkOk(sha, problem, PreviousDigest(root, events, i), start + 1 + i, events[i])
  }

  /** The checkpoint names one of the events, its chain digest, and their checkpoint digest. */
  predicate CheckpointHolds(sha: Hash, problem: string, start: nat, events: seq<Event>, c: Checkpoint) {
    start < c.seq_ <= start + |events| && CheckpointMatches(sha, problem, c, events[c.seq_ - start - 1])
  }

  predicate CheckpointsHold(sha: Hash, h: Header, start: nat, events: seq<Event>) {
    forall i :: 0 <= i < |h.checkpoints| ==> CheckpointHolds(sha, h.problem, start, events, h.checkpoints[i])
  }

  predicate PinHolds(pin: Option<Pin>, start: nat, events: seq<Event>) {
    pin.Some? ==> start < pin.value.seq_ <= start + |events| &&
                  events[pin.value.seq_ - start - 1].chainDigest == pin.value.root
  }

  /** The first `next` checkpoints hold, and the one after them is not among the events. */
  predicate CheckpointsReached(sha: Hash, h: Header, start: nat, events: seq<Event>, next: nat) {
    && next <= |h.checkpoints|
    && (forall i :: 0 <= i < next ==> CheckpointHolds(sha, h.problem, start, events, h.checkpoints[i]))
    && (next < |h.checkpoints| ==> !(start < h.checkpoints[next].seq_ <= start + |events|))
  }

  predicate PinReached(pin: Option<Pin>, start: nat, events: seq<Event>, matched: bool) {
    && (matched <==> pin.None? || start < pin.value.seq_ <= start + |events|)
    && (matched ==> PinHolds(pin, start, events))
  }

  /** The state of the pass after `events`. */
  predicate Reached(sha: Hash, h: Header, pin: Option<Pin>, start: nat, root: string, events: seq<Event>, p: Progress) {
    && Linked(sha, h.problem, start, root, events)
    && p.previous == FinalDigest(root, events)
    && p.expectedSeq == start + |events| + 1
    && CheckpointsReached(sha, h, start, events, p.nextCheckpoint)
    && PinReached(pin, start, events, p.matchedPin)
  }

  lemma CheckpointStillHolds(sha: Hash, problem: string, start: nat, events: seq<Event>, e: Event, c: Checkpoint)
    requires CheckpointHolds(sha, problem, start, events, c)
    ensures CheckpointHolds(sha, problem, start, events + [e], c)
  {
    hide CheckpointMatches;
  }

  lemma LinkedSnoc(sha: Hash, problem: string, start: nat, root: string, events: seq<Event>, e: Event)
    ensures Linked(sha, problem, start, root, events + [e]) <==>
            && Linked(sha, problem, start, root, events)
            && LinkOk(sha, problem, FinalDigest(root, events), start + 1 + |events|, e)
  {
    hide LinkOk;
    var all := events + [e];
    forall i | 0 <= i < |all| ensures PreviousDigest(root, all, i) == PreviousDigest(root, events, i) {
    }
    if Linked(sha, problem, start, root, all) {
      assert LinkOk(sha, problem, PreviousDigest(root, all, |events|), start + 1 + |events|, all[|events|]);
      forall i | 0 <= i < |events|
        ensures LinkOk(sha, problem, PreviousDigest(root, events, i), start + 1 + i, events[i])
      {
        assert LinkOk(sha, problem, PreviousDigest(root, all, i), start + 1 + i, all[i]);
      }
    }
  }

  lemma CheckpointStep(sha: Hash, h: Header, start: nat, events: seq<Event>, next: nat, e: Event)
    requires Increasing(h.checkpoints) && CheckpointsReached(sha, h, start, events, next)
    requires e.seq_ == start + |events| + 1
    requires var at := next < |h.checkpoints| && h.checkpoints[next].seq_ == e.seq_;
             at ==> CheckpointMatches(sha, h.problem, h.checkpoints[next], e)
    ensures var at := next < |h.checkpoints| && h.checkpoints[next].seq_ == e.seq_;
            CheckpointsReached(sha, h, start, events + [e], if at then next + 1 else next)
  {
    hide CheckpointMatches;
    forall i | 0 <= i < next ensures CheckpointHolds(sha, h.problem, start, events + [e], h.checkpoints[i]) {
      CheckpointStillHolds(sha, h.problem, start, events, e, h.checkpoints[i]);
    }
  }

  lemma PinStep(pin: Option<Pin>, start: nat, events: seq<Event>, matched: bool, e: Event)
    requires PinReached(pin, start, events, matched) && e.seq_ == start + |events| + 1
    requires var at := pin.Some? && pin.value.seq_ == e.seq_; at ==> pin.value.root == e.chainDigest
    ensures var at := pin.Some? && pin.value.seq_ == e.seq_;
            PinReached(pin, start, events + [e], matched || at)
  {
  }

  lemma LinkSeq(sha: Hash, problem: string, previous: string, seq_: nat, e: Event)
    requires LinkOk(sha, problem, previous, seq_, e)
    ensures e.seq_ == seq_
  {
  }

  lemma StepMeans(sha: Hash, h: Header, pin: Option<Pin>, p: Progress, e: Event)
    requires Step(sha, h, pin, p, e).Some?
    ensures var next := Step(sha, h, pin, p, e).value;
            var atPin := pin.Some? && pin.value.seq_ == e.seq_;
            var at := p.nextCheckpoint < |h.checkpoints| && h.checkpoints[p.nextCheckpoint].seq_ == e.seq_;
            && e.seq_ == p.expectedSeq && LinkOk(sha, h.problem, p.previous, p.expectedSeq, e)
            && (at ==> CheckpointMatches(sha, h.problem, h.checkpoints[p.nextCheckpoint], e))
            && (atPin ==> pin.value.root == e.chainDigest)
            && next == Progress(e.chainDigest, p.expectedSeq + 1,
                                if at then p.nextCheckpoint + 1 else p.nextCheckpoint, p.matchedPin || atPin)
  {
    hide CheckpointMatches, LinkOk;
    LinkSeq(sha, h.problem, p.previous, p.expectedSeq, e);
  }

  lemma StepReaches(sha: Hash, h: Header, pin: Option<Pin>, start: nat, root: string,
                    events: seq<Event>, p: Progress, e: Event)
    requires Increasing(h.checkpoints) && Reached(sha, h, pin, start, root, events, p)
    requires Step(sha, h, pin, p, e).Some?
    ensures Reached(sha, h, pin, start, root, events + [e], Step(sha, h, pin, p, e).value)
  {
    hide CheckpointMatches, LinkOk, CheckpointsReached, PinReached, Linked, Increasing, Step;
    StepMeans(sha, h, pin, p, e);
    LinkedSnoc(sha, h.problem, start, root, events, e);
    CheckpointStep(sha, h, start, events, p.nextCheckpoint, e);
    PinStep(pin, start, events, p.matchedPin, e);
  }

  function Begin(pin: Option<Pin>, start: nat, root: string): Progress {
    Progress(root, start + 1, 0, pin.None?)
  }

  lemma NothingReached(sha: Hash, h: Header, pin: Option<Pin>, start: nat, root: string)
    ensures Run(sha, h, pin, Begin(pin, start, root), []) == Some(Begin(pin, start, root))
    ensures Reached(sha, h, pin, start, root, [], Begin(pin, start, root))
  {
  }

  lemma RunUnfolds(sha: Hash, h: Header, pin: Option<Pin>, start: Progress, events: seq<Event>)
    requires events != []
    ensures var init := events[..|events| - 1];
            && events == init + [events[|events| - 1]]
            && Run(sha, h, pin, start, events) ==
               if Run(sha, h, pin, start, init).None? then None
               else Step(sha, h, pin, Run(sha, h, pin, start, init).value, events[|events| - 1])
  {
    hide Step;
  }

  lemma {:induction false} RunReaches(
    sha: Hash, h: Header, pin: Option<Pin>, start: nat, root: string, events: seq<Event>)
    requires Increasing(h.checkpoints)
    requires Run(sha, h, pin, Begin(pin, start, root), events).Some?
    ensures Reached(sha, h, pin, start, root, events, Run(sha, h, pin, Begin(pin, start, root), events).value)
    decreases |events|
  {
    hide Run, Reached, Step, Increasing, Begin;
    if events == [] {
      NothingReached(sha, h, pin, start, root);
    } else {
      var init, e := events[..|events| - 1], events[|events| - 1];
      RunUnfolds(sha, h, pin, Begin(pin, start, root), events);
      RunReaches(sha, h, pin, start, root, init);
      StepReaches(sha, h, pin, start, root, init, Run(sha, h, pin, Begin(pin, start, root), init).value, e);
    }
  }

  /** Nothing the pass looks at within the range is wrong. */
  predicate Sound(sha: Hash, h: Header, pin: Option<Pin>, start: nat, root: string, events: seq<Event>) {
    && Linked(sha, h.problem, start, root, events)
    && (forall i :: 0 <= i < |h.checkpoints| && start < h.checkpoints[i].seq_ <= start + |events| ==>
          CheckpointHolds(sha, h.problem, start, events, h.checkpoints[i]))
    && (pin.Some? && start < pin.value.seq_ <= start + |events| ==>
          events[pin.value.seq_ - start - 1].chainDigest == pin.value.root)
  }

  lemma SoundInit(sha: Hash, h: Header, pin: Option<Pin>, start: nat, root: string, events: seq<Event>, e: Event)
    requires Sound(sha, h, pin, start, root, events + [e])
    ensures Sound(sha, h, pin, start, root, events)
  {
    hide CheckpointMatches, LinkOk;
    LinkedSnoc(sha, h.problem, start, root, events, e);
    forall i | 0 <= i < |h.checkpoints| && start < h.checkpoints[i].seq_ <= start + |events|
      ensures CheckpointHolds(sha, h.problem, start, events, h.checkpoints[i])
    {
      assert CheckpointHolds(sha, h.problem, start, events + [e], h.checkpoints[i]);
    }
    if pin.Some? && start < pin.value.seq_ <= start + |events| {
      assert (events + [e])[pin.value.seq_ - start - 1] == events[pin.value.seq_ - start - 1];
    }
  }

  lemma SoundStep(sha: Hash, h: Header, pin: Option<Pin>, start: nat, root: string,
                  events: seq<Event>, p: Progress, e: Event)
    requires Sound(sha, h, pin, start, root, events + [e])
    requires Reached(sha, h, pin, start, root, events, p)
    ensures Step(sha, h, pin, p, e).Some?
  {
    hide CheckpointMatches, LinkOk, CheckpointsReached, PinReached, Linked;
    LinkedSnoc(sha, h.problem, start, root, events, e);
    LinkSeq(sha, h.problem, FinalDigest(root, events), start + 1 + |events|, e);
    var last := (events + [e])[|events|];
    if p.nextCheckpoint < |h.checkpoints| && h.checkpoints[p.nextCheckpoint].seq_ == e.seq_ {
      assert CheckpointHolds(sha, h.problem, start, events + [e], h.checkpoints[p.nextCheckpoint]);
    }
  }

  lemma {:induction false} RunSucceeds(
    sha: Hash, h: Header, pin: Option<Pin>, start: nat, root: string, events: seq<Event>)
    requires Increasing(h.checkpoints) && Sound(sha, h, pin, start, root, events)
    ensures Run(sha, h, pin, Begin(pin, start, root), events).Some?
    decreases |events|
  {
    hide Run, Reached, Step, Increasing, Sound, Begin;
    if events == [] {
      NothingReached(sha, h, pin, start, root);
    } else {
      var init, e := events[..|events| - 1], events[|events| - 1];
      RunUnfolds(sha, h, pin, Begin(pin, start, root), events);
      SoundInit(sha, h, pin, start, root, init, e);
      RunSucceeds(sha, h, pin, start, root, init);
      RunReaches(sha, h, pin, start, root, init);
      SoundStep(sha, h, pin, start, root, init, Run(sha, h, pin, Begin(pin, start, root), init).value, e);
    }
  }

  /** What an intact verdict says, with every condition. */
  predicate Integrity(sha: Hash, archive: Archive, pin: Option<Pin>, preceding: Option<Pin>) {
    var problem, start := archive.header.problem, StartSeq(preceding);
    && PinOk(pin, problem) && PrecedingOk(sha, preceding, pin, problem)
    && Linked(sha, problem, start, StartRoot(sha, preceding, problem), archive.events)
    && CheckpointsHold(sha, archive.header, start, archive.events)
    && PinHolds(pin, start, archive.events)
    && archive.eventCount == |archive.events|
    && archive.finalCursor == start + |archive.events|
  }

  lemma IntegrityIsSound(sha: Hash, archive: Archive, pin: Option<Pin>, preceding: Option<Pin>)
    requires Integrity(sha, archive, pin, preceding)
    ensures Sound(sha, archive.header, pin, StartSeq(preceding),
                  StartRoot(sha, preceding, archive.header.problem), archive.events)
  {
    hide CheckpointHolds, Linked, PinOk, PrecedingOk, StartRoot, StartSeq;
  }

  /** The four tests after the pass, given where it arrived. */
  lemma FinalTests(sha: Hash, archive: Archive, pin: Option<Pin>, start: nat, root: string, p: Progress)
    requires Reached(sha, archive.header, pin, start, root, archive.events, p)
    ensures p.nextCheckpoint == |archive.header.checkpoints| <==>
            CheckpointsHold(sha, archive.header, start, archive.events)
    ensures p.matchedPin <==> PinHolds(pin, start, archive.events)
  {
    hide CheckpointMatches, Linked;
    if p.nextCheckpoint < |archive.header.checkpoints| {
      assert !CheckpointHolds(sha, archive.header.problem, start, archive.events,
                              archive.header.checkpoints[p.nextCheckpoint]);
    }
  }

  lemma RangeIntactExactly(sha: Hash, archive: Archive, pin: Option<Pin>, preceding: Option<Pin>)
    requires Increasing(archive.header.checkpoints)
    requires PinOk(pin, archive.header.problem) && PrecedingOk(sha, preceding, pin, archive.header.problem)
    ensures var root := StartRoot(sha, preceding, archive.header.problem);
            var run := Run(sha, archive.header, pin, Progress(root, StartSeq(preceding) + 1, 0, pin.None?), archive.events);
            && (Integrity(sha, archive, pin, preceding) <==>
                  && run.Some? && archive.eventCount == |archive.events|
                  && archive.finalCursor == run.value.expectedSeq - 1
                  && run.value.nextCheckpoint == |archive.header.checkpoints| && run.value.matchedPin)
            && (run.Some? ==> run.value.previous == FinalDigest(root, archive.events))
  {
    hide PinOk, PrecedingOk, Linked, CheckpointsHold, PinHolds, StartRoot, StartSeq, Increasing, Run, Sound, CheckpointsReached, PinReached, FinalDigest;
    var start, root := StartSeq(preceding), StartRoot(sha, preceding, archive.header.problem);
    if Integrity(sha, archive, pin, preceding) {
      IntegrityIsSound(sha, archive, pin, preceding);
      RunSucceeds(sha, archive.header, pin, start, root, archive.events);
    }
    var run := Run(sha, archive.header, pin, Progress(root, start + 1, 0, pin.None?), archive.events);
    if run.Some? {
      RunReaches(sha, archive.header, pin, start, root, archive.events);
      FinalTests(sha, archive, pin, start, root, run.value);
    }
  }

  lemma ParsedHeaderOk(lines: seq<Line>, segment: bool)
    requires ParseRange(lines, segment).Some?
    ensures HeaderOk(ParseRange(lines, segment).value.header)
  {
    hide HeaderOk, EventLinesOk;
  }

  /** The verifier says intact exactly when the export parses and has integrity. */
  lemma IntactExactly(sha: Hash, lines: seq<Line>, pin: Option<Pin>, preceding: Option<Pin>)
    ensures var parsed := ParseRange(lines, preceding.Some?);
            var r := VerifyRange(sha, lines, pin, preceding);
            && (r.Intact? <==> parsed.Some? && Integrity(sha, parsed.value, pin, preceding))
            && (r.Intact? ==>
                  && r.eventCount == |parsed.value.events|
                  && r.finalChainDigest ==
                     FinalDigest(StartRoot(sha, preceding, parsed.value.header.problem), parsed.value.events))
  {
    hide ParseRange, PinOk, PrecedingOk, Run, StartRoot, StartSeq, FinalDigest, Linked, CheckpointsHold, PinHolds;
    var parsed := ParseRange(lines, preceding.Some?);
    if parsed.Some? {
      ParsedHeaderOk(lines, preceding.Some?);
      var problem := parsed.value.header.problem;
      if PinOk(pin, problem) && PrecedingOk(sha, preceding, pin, problem) {
        RangeIntactExactly(sha, parsed.value, pin, preceding);
      }
    }
  }
}
