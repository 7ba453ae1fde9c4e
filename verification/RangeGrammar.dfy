/**
 * The export grammar as printing: an export parses to an archive exactly when it is that
 * archive's printed form and the archive's fields are in shape; and what an intact range is,
 * with every condition at the level of its fields and digests.
 */
module RangeGrammar {
  import opened Wrappers
  import opened Digests
  import opened ChainVerifier
  import opened OfflineVerifier
  import EcmaText
  import KeyOrder

  // ----- printing

  function EventLinesFor(events: seq<Event>): (lines: seq<Line>)
    ensures |lines| == |events|
    ensures forall i :: 0 <= i < |events| ==> lines[i] == EventLine(events[i])
  {
    seq(|events|, i requires 0 <= i < |events| => EventLine(events[i]))
  }

  /** Header, events in order, and the record that ends the export. */
  function Printed(a: Archive): seq<Line> {
    [HeaderLine(a.header)] + EventLinesFor(a.events) + [EndLine(a.header.problem, a.eventCount, a.finalCursor)]
  }

  predicate Count(n: int) {
    0 <= n < 9_007_199_254_740_992
  }

  predicate CheckpointFits(c: Checkpoint, problem: string, last: int) {
    c.problem == problem && 1 <= c.seq_ <= last && Count(c.seq_) && Hex(c.root, 64) && Hex(c.digest, 64)
  }

  /** The number the last event bears; a whole export numbers its events from one. */
  function LastNumber(events: seq<Event>, segment: bool): int {
    if !segment then |events| else if events == [] then 0 else events[|events| - 1].seq_
  }

  predicate HeaderFits(h: Header, events: seq<Event>, segment: bool) {
    && ProblemId(h.problem) && TitleOk(h.title) && RealDate(h.date)
    && |h.checkpoints| <= |events|
    && (forall i :: 0 <= i < |h.checkpoints| ==> CheckpointFits(h.checkpoints[i], h.problem, LastNumber(events, segment)))
    && forall i, j :: 0 <= i < j < |h.checkpoints| ==> h.checkpoints[i].seq_ < h.checkpoints[j].seq_
  }

  predicate EventFits(e: Event) {
    1 <= e.seq_ && Count(e.seq_) && Hex(e.payloadSha256, 64) && Hex(e.rowDigest, 64) && Hex(e.chainDigest, 64)
  }

  predicate Fits(a: Archive, segment: bool) {
    && HeaderFits(a.header, a.events, segment)
    && (forall i :: 0 <= i < |a.events| ==> EventFits(a.events[i]))
    && Count(a.eventCount) && Count(a.finalCursor)
  }

  lemma HeaderFitsExactly(h: Header, events: seq<Event>, segment: bool)
    ensures HeaderFits(h, events, segment) <==>
            && HeaderOk(h) && |h.checkpoints| <= |events|
            && forall i :: 0 <= i < |h.checkpoints| ==> h.checkpoints[i].seq_ <= LastNumber(events, segment)
  {
    hide ProblemId, TitleOk, RealDate, Hex, LastNumber;
  }

  lemma PrintedParts(a: Archive)
    ensures var lines := Printed(a);
            && |lines| == |a.events| + 2 && lines[0] == HeaderLine(a.header)
            && lines[|lines| - 1] == EndLine(a.header.problem, a.eventCount, a.finalCursor)
            && lines[1..|lines| - 1] == EventLinesFor(a.events)
  {
  }

  lemma EventLinesParse(events: seq<Event>)
    ensures EventLinesOk(EventLinesFor(events)) <==> forall i :: 0 <= i < |events| ==> EventFits(events[i])
    ensures EventsOf(EventLinesFor(events)) == events
  {
    hide Hex;
    var lines := EventLinesFor(events);
    forall i | 0 <= i < |events| ensures EventOk(lines[i].event) <==> EventFits(events[i]) {
    }
  }

  lemma EventLinesBack(lines: seq<Line>)
    requires forall i :: 0 <= i < |lines| ==> lines[i].EventLine?
    ensures EventLinesFor(EventsOf(lines)) == lines
  {
  }

  lemma ParsedIsPrinted(lines: seq<Line>, segment: bool)
    requires ParseRange(lines, segment).Some?
    ensures lines == Printed(ParseRange(lines, segment).value) && Fits(ParseRange(lines, segment).value, segment)
  {
    hide HeaderOk, EventOk, HeaderFits, EventFits;
    var a := ParseRange(lines, segment).value;
    EventLinesBack(lines[1..|lines| - 1]);
    EventLinesParse(a.events);
    HeaderFitsExactly(a.header, a.events, segment);
    assert lines == [lines[0]] + lines[1..|lines| - 1] + [lines[|lines| - 1]];
  }

  lemma PrintedParses(a: Archive, segment: bool)
    requires Fits(a, segment)
    ensures ParseRange(Printed(a), segment) == Some(a)
  {
    hide HeaderOk, EventOk, HeaderFits, EventFits, Printed, EventLinesOk;
    PrintedParts(a);
    EventLinesParse(a.events);
    HeaderFitsExactly(a.header, a.events, segment);
  }

  /** An export parses to an archive exactly when it is the archive's printed form, in shape. */
  lemma ParsedExactly(lines: seq<Line>, segment: bool, a: Archive)
    ensures ParseRange(lines, segment) == Some(a) <==> lines == Printed(a) && Fits(a, segment)
  {
    hide ParseRange, Printed, Fits;
    if ParseRange(lines, segment) == Some(a) {
      ParsedIsPrinted(lines, segment);
    }
    if lines == Printed(a) && Fits(a, segment) {
      PrintedParses(a, segment);
    }
  }

  // ----- an intact range

  /** The digest before event i: the root, or the chain digest of the event before it. */
  predicate DigestBefore(root: string, events: seq<Event>, i: nat, digest: string) {
    if i == 0 then digest == root else i <= |events| && digest == events[i - 1].chainDigest
  }

  /** Event i is numbered start + i + 1, and its three digests are of its payload, of its row and of the chain so far. */
  ghost predicate Chained(sha: Hash, problem: string, start: nat, root: string, events: seq<Event>, i: nat)
    requires i < |events|
  {
    var e := events[i];
    && e.seq_ == start + i + 1
    && e.payloadSha256 == sha(Raw(e.payloadJson))
    && e.rowDigest == sha(RowRecord(problem, start + i + 1, e.payloadSha256, e.envelope))
    && exists before :: && DigestBefore(root, events, i, before)
                        && e.chainDigest == sha(LinkRecord(problem, start + i + 1, e.payloadSha256, e.rowDigest, before))
  }

  /** A checkpoint states the chain digest of one of the events, and the digest of that statement. */
  ghost predicate States(sha: Hash, problem: string, start: nat, events: seq<Event>, c: Checkpoint) {
    exists i: nat :: i < |events| && c.seq_ == start + i + 1 && c.root == events[i].chainDigest
                     && c.digest == sha(CheckpointRecord(problem, start + i + 1, c.root))
  }

  /** A pin names the problem and the chain digest of one of the events. */
  ghost predicate Pinned(pin: Pin, problem: string, start: nat, events: seq<Event>) {
    && pin.problem == problem && Count(pin.seq_) && Hex(pin.root, 64)
    && exists i: nat :: i < |events| && pin.seq_ == start + i + 1 && pin.root == events[i].chainDigest
  }

  /** Where the range starts: at the genesis of its problem, or after a pinned event of it and before the pin. */
  predicate Starts(sha: Hash, problem: string, pin: Option<Pin>, preceding: Option<Pin>, start: nat, root: string) {
    match preceding
    case None => start == 0 && root == sha(GenesisRecord(problem))
    case Some(p) =>
      && p.problem == problem && p.seq_ == start && Count(start) && p.root == root && Hex(root, 64)
      && (start == 0 ==> root == sha(GenesisRecord(problem)))
      && pin.Some? && start < pin.value.seq_
  }

  ghost predicate Whole(sha: Hash, a: Archive, pin: Option<Pin>, preceding: Option<Pin>, start: nat, root: string) {
    var problem, events := a.header.problem, a.events;
    && Starts(sha, problem, pin, preceding, start, root)
    && (forall i: nat :: i < |events| ==> Chained(sha, problem, start, root, events, i))
    && (forall i :: 0 <= i < |a.header.checkpoints| ==> States(sha, problem, start, events, a.header.checkpoints[i]))
    && (pin.Some? ==> Pinned(pin.value, problem, start, events))
    && a.eventCount == |events| && a.finalCursor == start + |events|
  }

  lemma ChainedExactly(sha: Hash, problem: string, start: nat, root: string, events: seq<Event>)
    ensures Linked(sha, problem, start, root, events) <==>
            forall i: nat :: i < |events| ==> Chained(sha, problem, start, root, events, i)
  {
    forall i: nat | i < |events|
      ensures Chained(sha, problem, start, root, events, i) <==>
              LinkOk(sha, problem, PreviousDigest(root, events, i), start + 1 + i, events[i])
    {
      assert DigestBefore(root, events, i, PreviousDigest(root, events, i));
    }
    hide Chained, LinkOk;
  }

  lemma StatesExactly(sha: Hash, problem: string, start: nat, events: seq<Event>, c: Checkpoint)
    requires forall i :: 0 <= i < |events| ==> events[i].seq_ == start + i + 1
    ensures CheckpointHolds(sha, problem, start, events, c) <==> States(sha, problem, start, events, c)
  {
    if CheckpointHolds(sha, problem, start, events, c) {
      var i: nat := c.seq_ - start - 1;
      assert i < |events| && c.seq_ == start + i + 1 && c.root == events[i].chainDigest;
      assert c.digest == sha(CheckpointRecord(problem, start + i + 1, c.root));
    }
    if i: nat :| i < |events| && c.seq_ == start + i + 1 && c.root == events[i].chainDigest
                 && c.digest == sha(CheckpointRecord(problem, start + i + 1, c.root)) {
      assert c.seq_ - start - 1 == i;
    }
  }

  lemma PinnedExactly(pin: Pin, problem: string, start: nat, events: seq<Event>)
    ensures PinOk(Some(pin), problem) && PinHolds(Some(pin), start, events) <==> Pinned(pin, problem, start, events)
  {
    hide Hex;
    if start < pin.seq_ <= start + |events| {
      assert events[pin.seq_ - start - 1] == events[pin.seq_ - start - 1];
    }
  }

  lemma CheckpointsStated(sha: Hash, a: Archive, start: nat, root: string)
    ensures Linked(sha, a.header.problem, start, root, a.events) ==>
              (CheckpointsHold(sha, a.header, start, a.events) <==>
               forall i :: 0 <= i < |a.header.checkpoints| ==>
                 States(sha, a.header.problem, start, a.events, a.header.checkpoints[i]))
  {
    if Linked(sha, a.header.problem, start, root, a.events) {
      forall i | 0 <= i < |a.events| ensures a.events[i].seq_ == start + i + 1 {
        assert LinkOk(sha, a.header.problem, PreviousDigest(root, a.events, i), start + 1 + i, a.events[i]);
      }
      hide Linked, CheckpointHolds, States;
      forall i | 0 <= i < |a.header.checkpoints|
        ensures CheckpointHolds(sha, a.header.problem, start, a.events, a.header.checkpoints[i]) <==>
                States(sha, a.header.problem, start, a.events, a.header.checkpoints[i])
      {
        StatesExactly(sha, a.header.problem, start, a.events, a.header.checkpoints[i]);
      }
    }
  }

  lemma WholeExactly(sha: Hash, a: Archive, pin: Option<Pin>, preceding: Option<Pin>)
    ensures Integrity(sha, a, pin, preceding) <==>
            Whole(sha, a, pin, preceding, StartSeq(preceding), StartRoot(sha, preceding, a.header.problem))
  {
    var problem, start, root := a.header.problem, StartSeq(preceding), StartRoot(sha, preceding, a.header.problem);
    ChainedExactly(sha, problem, start, root, a.events);
    CheckpointsStated(sha, a, start, root);
    if pin.Some? {
      PinnedExactly(pin.value, problem, start, a.events);
    }
    assert PrecedingOk(sha, preceding, pin, problem) <==> Starts(sha, problem, pin, preceding, start, root) by {
      hide Hex;
    }
    hide Linked, CheckpointsHold, Chained, States, Pinned, Starts, PrecedingOk, StartSeq, StartRoot, Hex;
  }

  lemma StartsOnce(sha: Hash, problem: string, pin: Option<Pin>, preceding: Option<Pin>, start: nat, root: string)
    requires Starts(sha, problem, pin, preceding, start, root)
    ensures start == StartSeq(preceding) && root == StartRoot(sha, preceding, problem)
  {
    hide Hex;
  }

  /**
   * A range is intact exactly when it is the printed form of an archive in shape whose events chain from
   * where it starts, whose checkpoints and pin state what those events are, and whose end counts them; the
   * verdict names their number and the last chain digest.
   */
  lemma IntactWhole(sha: Hash, lines: seq<Line>, pin: Option<Pin>, preceding: Option<Pin>, count: nat, digest: string)
    ensures VerifyRange(sha, lines, pin, preceding) == Intact(count, digest) <==>
            exists a, start, root ::
              && lines == Printed(a) && Fits(a, preceding.Some?) && Whole(sha, a, pin, preceding, start, root)
              && count == |a.events| && DigestBefore(root, a.events, count, digest)
  {
    IntactExactly(sha, lines, pin, preceding);
    var parsed := ParseRange(lines, preceding.Some?);
    hide VerifyRange, ParseRange, Printed, Fits, Integrity, Whole, StartSeq, StartRoot;
    if parsed.Some? {
      var a := parsed.value;
      ParsedExactly(lines, preceding.Some?, a);
      WholeExactly(sha, a, pin, preceding);
      var root := StartRoot(sha, preceding, a.header.problem);
      if VerifyRange(sha, lines, pin, preceding) == Intact(count, digest) {
        assert Whole(sha, a, pin, preceding, StartSeq(preceding), root);
        assert DigestBefore(root, a.events, count, digest);
      }
    }
    if a, start, root :|
      && lines == Printed(a) && Fits(a, preceding.Some?) && Whole(sha, a, pin, preceding, start, root)
      && count == |a.events| && DigestBefore(root, a.events, count, digest)
    {
      ParsedExactly(lines, preceding.Some?, a);
      WholeStarts(sha, a, pin, preceding, start, root);
      WholeExactly(sha, a, pin, preceding);
    }
  }

  lemma WholeStarts(sha: Hash, a: Archive, pin: Option<Pin>, preceding: Option<Pin>, start: nat, root: string)
    requires Whole(sha, a, pin, preceding, start, root)
    ensures start == StartSeq(preceding) && root == StartRoot(sha, preceding, a.header.problem)
  {
    hide Starts, Chained, States, Pinned;
    StartsOnce(sha, a.header.problem, pin, preceding, start, root);
  }
}
