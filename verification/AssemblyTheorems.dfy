/**
 * What a recovered backup is: its segments make one chain from genesis to the
 * manifest's digest, and the offline verifier accepts it.
 */
module AssemblyTheorems {
  import opened Wrappers
  import opened Digests
  import opened ChainVerifier
  import opened LedgerHistory
  import opened OfflineVerifier
  import opened OfflineTheorems
  import opened BackupAssembly
  import KeyOrder

  // ----- segmented verification is whole-chain verification

  predicate EventLines(lines: seq<Line>) {
    forall i :: 0 <= i < |lines| ==> lines[i].EventLine?
  }

  /** The joined segments are one verified chain from genesis. */
  predicate Joined(sha: Hash, m: Manifest, a: Assembly) {
    && EventLinesOk(a.events)
    && a.cursor == |a.events|
    && Linked(sha, m.problem, 0, sha(GenesisRecord(m.problem)), EventsOf(a.events))
    && a.root == FinalDigest(sha(GenesisRecord(m.problem)), EventsOf(a.events))
    && CheckpointsJoined(sha, m, a)
  }

  predicate CheckpointsJoined(sha: Hash, m: Manifest, a: Assembly)
    requires EventLines(a.events)
  {
    && Increasing(a.checkpoints)
    && (forall i :: 0 <= i < |a.checkpoints| ==> CheckpointShape(a.checkpoints[i], m.problem))
    && forall i :: 0 <= i < |a.checkpoints| ==> CheckpointHolds(sha, m.problem, 0, EventsOf(a.events), a.checkpoints[i])
  }

  lemma NothingJoined(sha: Hash, m: Manifest)
    ensures Joined(sha, m, BackupAssembly.Begin(sha, m))
  {
    assert EventsOf([]) == [];
  }

  /** What one accepted segment is, relative to the state it extends. */
  predicate Extends(sha: Hash, m: Manifest, a: Assembly, segment: Archive, lines: seq<Line>, b: Assembly) {
    && a.cursor >= 0
    && EventLinesOk(lines) && segment.events == EventsOf(lines) && lines != []
    && HeaderOk(segment.header) && segment.header.problem == m.problem
    && Linked(sha, m.problem, a.cursor, a.root, segment.events)
    && CheckpointsHold(sha, segment.header, a.cursor, segment.events)
    && b == Assembly(a.cursor + |lines|, FinalDigest(a.root, segment.events),
                     a.events + lines, a.checkpoints + segment.header.checkpoints)
  }

  lemma ParsedEvents(lines: seq<Line>, segment: bool)
    requires ParseRange(lines, segment).Some?
    ensures |lines| >= 2 && EventLinesOk(lines[1..|lines| - 1])
    ensures ParseRange(lines, segment).value.events == EventsOf(lines[1..|lines| - 1])
  {
    hide HeaderOk, EventOk;
  }

  lemma SegmentSeqs(sha: Hash, problem: string, start: nat, root: string, events: seq<Event>)
    requires events != [] && Linked(sha, problem, start, root, events)
    ensures events[|events| - 1].seq_ == start + |events|
  {
    hide LinkOk;
    var n := |events| - 1;
    LinkSeq(sha, problem, PreviousDigest(root, events, n), start + 1 + n, events[n]);
  }

  lemma SegmentIntegrity(sha: Hash, archive: Archive, problem: string, pin: Pin, preceding: Pin)
    requires Integrity(sha, archive, Some(pin), Some(preceding)) && pin.problem == problem
    ensures archive.header.problem == problem && preceding.seq_ >= 0
    ensures Linked(sha, problem, preceding.seq_, preceding.root, archive.events)
    ensures CheckpointsHold(sha, archive.header, preceding.seq_, archive.events)
  {
    hide Linked, CheckpointsHold, Hex, PinHolds;
  }

  lemma AppendExtends(sha: Hash, m: Manifest, a: Assembly, body: Option<Body>)
    requires Append(sha, m, a, body).Ok?
    ensures body.Some? && ParseRange(body.value.lines, true).Some?
    ensures var lines := body.value.lines;
            |lines| >= 2 && Extends(sha, m, a, ParseRange(lines, true).value, lines[1..|lines| - 1], Append(sha, m, a, body).value)
  {
    hide ParseRange, VerifyRange, Linked, CheckpointsHold, HeaderOk, EventLinesOk, Integrity, FinalDigest;
    var lines := body.value.lines;
    var archive := ParseRange(lines, true).value;
    var last := archive.events[|archive.events| - 1];
    var pin, preceding := Pin(m.problem, last.seq_, last.chainDigest), Pin(m.problem, a.cursor, a.root);
    IntactExactly(sha, lines, Some(pin), Some(preceding));
    SegmentIntegrity(sha, archive, m.problem, pin, preceding);
    ParsedEvents(lines, true);
    ParsedShapes(lines, true);
    SegmentSeqs(sha, m.problem, a.cursor, a.root, archive.events);
  }

  lemma EventsOfAppend(a: seq<Line>, b: seq<Line>)
    requires EventLines(a) && EventLines(b)
    ensures EventLines(a + b) && EventsOf(a + b) == EventsOf(a) + EventsOf(b)
  {
  }

  lemma EventLinesOkAppend(a: seq<Line>, b: seq<Line>)
    requires EventLinesOk(a) && EventLinesOk(b)
    ensures EventLinesOk(a + b)
  {
    hide EventOk;
  }

  /** Checkpoints of the next segment all lie beyond those before it. */
  lemma IncreasingAppend(a: seq<Checkpoint>, b: seq<Checkpoint>, n: int)
    requires Increasing(a) && Increasing(b)
    requires forall i :: 0 <= i < |a| ==> a[i].seq_ <= n
    requires forall i :: 0 <= i < |b| ==> n < b[i].seq_
    ensures Increasing(a + b)
  {
  }

  lemma HoldsRange(sha: Hash, problem: string, start: nat, events: seq<Event>, c: Checkpoint)
    requires CheckpointHolds(sha, problem, start, events, c)
    ensures start < c.seq_ <= start + |events|
  {
    hide CheckpointMatches;
  }

  lemma CheckpointsExtend(sha: Hash, m: Manifest, a: Assembly, h: Header, events: seq<Line>)
    requires EventLines(a.events) && EventLines(events) && CheckpointsJoined(sha, m, a)
    requires HeaderOk(h) && h.problem == m.problem
    requires CheckpointsHold(sha, h, |a.events|, EventsOf(events))
    ensures EventLines(a.events + events)
    ensures CheckpointsJoined(sha, m, a.(events := a.events + events, checkpoints := a.checkpoints + h.checkpoints))
  {
    hide CheckpointHolds, CheckpointShape, Increasing, TitleOk, ProblemId, RealDate;
    var before, after, n := EventsOf(a.events), EventsOf(events), |a.events|;
    EventsOfAppend(a.events, events);
    var all := a.checkpoints + h.checkpoints;
    forall i | 0 <= i < |a.checkpoints| ensures a.checkpoints[i].seq_ <= n {
      HoldsRange(sha, m.problem, 0, before, a.checkpoints[i]);
    }
    forall i | 0 <= i < |h.checkpoints| ensures n < h.checkpoints[i].seq_ {
      HoldsRange(sha, m.problem, n, after, h.checkpoints[i]);
    }
    IncreasingAppend(a.checkpoints, h.checkpoints, n);
    forall i | 0 <= i < |all| ensures CheckpointHolds(sha, m.problem, 0, before + after, all[i]) {
      CheckpointsJoin(sha, m.problem, 0, before, after, all[i]);
    }
  }

  lemma ExtendedJoined(sha: Hash, m: Manifest, a: Assembly, segment: Archive, lines: seq<Line>, b: Assembly)
    requires Joined(sha, m, a) && Extends(sha, m, a, segment, lines, b)
    ensures Joined(sha, m, b)
  {
    hide Linked, FinalDigest, CheckpointsHold, HeaderOk, CheckpointsJoined, EventOk;
    EventLinesOkAppend(a.events, lines);
    EventsOfAppend(a.events, lines);
    LinkedJoin(sha, m.problem, 0, sha(GenesisRecord(m.problem)), EventsOf(a.events), segment.events);
    CheckpointsExtend(sha, m, a, segment.header, lines);
    CheckpointsOnly(sha, m, a.(events := a.events + lines, checkpoints := a.checkpoints + segment.header.checkpoints), b);
  }

  lemma CheckpointsOnly(sha: Hash, m: Manifest, a: Assembly, b: Assembly)
    requires a.events == b.events && a.checkpoints == b.checkpoints
    requires EventLines(a.events) && CheckpointsJoined(sha, m, a)
    ensures CheckpointsJoined(sha, m, b)
  {
    hide CheckpointHolds, CheckpointShape, Increasing;
  }

  /**
   * However many segments have passed, what they hold is events 1..cursor with no gap
   * or repeat, chained from genesis to the current root.
   */
  lemma {:induction false} SegmentsJoined(sha: Hash, m: Manifest, read: ReadSegment, n: nat)
    requires Segments(sha, m, read, n).Ok?
    ensures Joined(sha, m, Segments(sha, m, read, n).value)
  {
    hide Segments, Append, Joined, BackupAssembly.Begin, Extends;
    if n == 0 {
      NoSegments(sha, m, read);
      NothingJoined(sha, m);
    } else {
      EarlierSegments(sha, m, read, n);
      SegmentsJoined(sha, m, read, n - 1);
      SegmentsStep(sha, m, read, n);
      var a := Segments(sha, m, read, n - 1).value;
      AppendExtends(sha, m, a, read(n));
      var lines := read(n).value.lines;
      ExtendedJoined(sha, m, a, ParseRange(lines, true).value, lines[1..|lines| - 1], Segments(sha, m, read, n).value);
    }
  }

  lemma EarlierSegments(sha: Hash, m: Manifest, read: ReadSegment, n: nat)
    requires n > 0 && Segments(sha, m, read, n).Ok?
    ensures Segments(sha, m, read, n - 1).Ok?
  {
    hide Append, BackupAssembly.Begin;
  }

  /** Two segmentations that reach one manifest's terminal are one history, or exhibit a collision. */
  lemma SegmentationIrrelevant(sha: Hash, m: Manifest, read: ReadSegment, reread: ReadSegment, n: nat, k: nat)
    requires Segments(sha, m, read, n).Ok? && Segments(sha, m, reread, k).Ok?
    requires Segments(sha, m, read, n).value.cursor == Segments(sha, m, reread, k).value.cursor == m.cursor
    requires Segments(sha, m, read, n).value.root == Segments(sha, m, reread, k).value.root == m.chainDigest
    ensures var a, b := Segments(sha, m, read, n).value, Segments(sha, m, reread, k).value;
            && EventLines(a.events) && EventLines(b.events) && |a.events| == |b.events| == m.cursor
            && match FindCollision(m.problem, 0, sha(GenesisRecord(m.problem)), EventsOf(a.events), EventsOf(b.events))
               case Some(c) => Collides(sha, c)
               case None => EventsOf(a.events) == EventsOf(b.events)
  {
    SegmentsJoined(sha, m, read, n);
    SegmentsJoined(sha, m, reread, k);
    hide Segments, Linked, FindCollision, FinalDigest, CheckpointsJoined;
    var a, b := Segments(sha, m, read, n).value, Segments(sha, m, reread, k).value;
    OneHistory(sha, m.problem, 0, sha(GenesisRecord(m.problem)), EventsOf(a.events), EventsOf(b.events));
  }

  // ----- when the final preflight passes

  function AssembledHeader(m: Manifest, a: Assembly): Header {
    Header(m.problem, m.title, m.date, a.checkpoints)
  }

  lemma {:induction false} CheckpointsFit(checkpoints: seq<Checkpoint>, n: nat)
    requires Increasing(checkpoints) && forall i :: 0 <= i < |checkpoints| ==> 0 < checkpoints[i].seq_ <= n
    ensures |checkpoints| <= n
  {
    if checkpoints != [] {
      var last := checkpoints[|checkpoints| - 1].seq_;
      CheckpointsFit(checkpoints[..|checkpoints| - 1], last - 1);
    }
  }

  lemma AssembledShape(m: Manifest, a: Assembly)
    ensures var lines := AssembledLines(m, a);
            && |lines| == |a.events| + 2
            && lines[0] == HeaderLine(AssembledHeader(m, a))
            && lines[|lines| - 1] == EndLine(m.problem, a.cursor, a.cursor)
            && lines[1..|lines| - 1] == a.events
  {
  }

  lemma JoinedSize(sha: Hash, m: Manifest, a: Assembly)
    requires Joined(sha, m, a)
    ensures EventLines(a.events) && a.cursor == |a.events|
  {
    hide Linked, CheckpointsJoined, EventOk;
  }

  lemma JoinedCheckpointsFit(sha: Hash, m: Manifest, a: Assembly)
    requires Joined(sha, m, a)
    ensures |a.checkpoints| <= |a.events|
    ensures forall i :: 0 <= i < |a.checkpoints| ==> a.checkpoints[i].seq_ <= |a.events|
  {
    hide Linked, EventOk, CheckpointHolds, CheckpointShape, Increasing;
    forall i | 0 <= i < |a.checkpoints| ensures 0 < a.checkpoints[i].seq_ <= |a.events| {
      HoldsRange(sha, m.problem, 0, EventsOf(a.events), a.checkpoints[i]);
    }
    CheckpointsFit(a.checkpoints, |a.events|);
  }

  lemma PartsParse(lines: seq<Line>, h: Header, events: seq<Line>, cursor: int)
    requires |lines| == |events| + 2 && lines[0] == HeaderLine(h) && lines[1..|lines| - 1] == events
    requires lines[|lines| - 1] == EndLine(h.problem, cursor, cursor) && NonNegative(cursor)
    requires EventLinesOk(events) && |h.checkpoints| <= |events|
    requires forall i :: 0 <= i < |h.checkpoints| ==> h.checkpoints[i].seq_ <= |events|
    ensures ParseRange(lines, false) ==
            if HeaderOk(h) then Some(Archive(h, EventsOf(events), cursor, cursor)) else None
  {
    hide HeaderOk, EventOk;
  }

  /** The assembled lines parse exactly when the header made from the manifest is acceptable. */
  lemma AssembledParses(sha: Hash, m: Manifest, a: Assembly)
    requires Joined(sha, m, a) && NonNegative(a.cursor)
    ensures EventLines(a.events)
    ensures ParseRange(AssembledLines(m, a), false) ==
            if HeaderOk(AssembledHeader(m, a))
            then Some(Archive(AssembledHeader(m, a), EventsOf(a.events), a.cursor, a.cursor)) else None
  {
    JoinedCheckpointsFit(sha, m, a);
    hide Linked, CheckpointsJoined, HeaderOk, AssembledLines, FinalDigest, EventOk, ParseRange;
    AssembledShape(m, a);
    PartsParse(AssembledLines(m, a), AssembledHeader(m, a), a.events, a.cursor);
  }

  lemma AssembledHeaderOk(sha: Hash, m: Manifest, a: Assembly)
    requires Joined(sha, m, a) && ProblemId(m.problem)
    ensures HeaderOk(AssembledHeader(m, a)) <==> TitleOk(m.title) && RealDate(m.date)
  {
    hide Linked, CheckpointHolds, CheckpointShape, Increasing, TitleOk, RealDate, ProblemId, FinalDigest;
  }

  /** The last segment embeds the checkpoint of the last event. */
  predicate TerminalEmbedded(m: Manifest, a: Assembly) {
    a.checkpoints != [] && a.checkpoints[|a.checkpoints| - 1].seq_ == m.cursor
  }

  predicate TerminalReached(m: Manifest, a: Assembly) {
    a.cursor == m.cursor && a.root == m.chainDigest
  }

  lemma TerminalCheckpoint(sha: Hash, m: Manifest, a: Assembly, digest: string)
    requires Joined(sha, m, a) && TerminalReached(m, a) && a.events != []
    requires m.cursor >= 0 && digest == sha(CheckpointRecord(m.problem, m.cursor, m.chainDigest))
    ensures TerminalEmbedded(m, a) <==>
            a.checkpoints != [] &&
            a.checkpoints[|a.checkpoints| - 1] == Checkpoint(m.problem, m.cursor, m.chainDigest, digest)
  {
    hide Linked, CheckpointHolds, CheckpointMatches, Increasing, EventOk;
    if TerminalEmbedded(m, a) {
      var c := a.checkpoints[|a.checkpoints| - 1];
      assert CheckpointShape(c, m.problem);
      CheckpointAt(sha, m.problem, EventsOf(a.events), c);
    }
  }

  lemma CheckpointAt(sha: Hash, problem: string, events: seq<Event>, c: Checkpoint)
    requires CheckpointHolds(sha, problem, 0, events, c)
    ensures 0 < c.seq_ <= |events| && c.root == events[c.seq_ - 1].chainDigest
    ensures c.digest == sha(CheckpointRecord(problem, c.seq_, c.root))
  {
  }

  lemma AssembledIntegrity(sha: Hash, m: Manifest, a: Assembly)
    requires Joined(sha, m, a) && TerminalReached(m, a) && a.events != []
    requires Positive(m.cursor) && Hex64(m.chainDigest)
    ensures var archive := Archive(AssembledHeader(m, a), EventsOf(a.events), a.cursor, a.cursor);
            && Integrity(sha, archive, Some(Pin(m.problem, m.cursor, m.chainDigest)), None)
            && Integrity(sha, archive, None, None)
  {
    hide Linked, CheckpointHolds, CheckpointShape, Increasing, EventLinesOk, Hex;
  }

  lemma PreflightMeans(sha: Hash, lines: seq<Line>, archive: Archive, pin: Pin, digest: string)
    requires ParseRange(lines, false) == Some(archive)
    requires pin.problem == archive.header.problem && Positive(pin.seq_) && Hex64(pin.root) && Hex64(digest)
    requires pin.seq_ == archive.finalCursor && archive.eventCount != 0
    requires digest == sha(CheckpointRecord(pin.problem, pin.seq_, pin.root))
    ensures Preflight(sha, lines, pin, digest).Intact? <==>
            && archive.header.checkpoints != []
            && archive.header.checkpoints[|archive.header.checkpoints| - 1] == Checkpoint(pin.problem, pin.seq_, pin.root, digest)
            && Integrity(sha, archive, Some(pin), None)
  {
    hide ParseRange, Hex, VerifyRange, Integrity;
    IntactExactly(sha, lines, Some(pin), None);
  }

  lemma PreflightUnread(sha: Hash, lines: seq<Line>, pin: Pin, digest: string)
    requires ParseRange(lines, false).None?
    ensures Preflight(sha, lines, pin, digest).Broken?
  {
    hide ParseRange, VerifyRange;
  }

  /** After the terminal test, the preflight can only fail on the header or a missing terminal checkpoint. */
  lemma PreflightExactly(sha: Hash, m: Manifest, a: Assembly)
    requires Joined(sha, m, a) && TerminalReached(m, a) && a.events != [] && ProblemId(m.problem)
    requires Positive(m.cursor) && Hex64(m.chainDigest) && Hex64(m.signature.checkpointDigest)
    requires m.signature.checkpointDigest == sha(CheckpointRecord(m.problem, m.cursor, m.chainDigest))
    ensures var pin := Pin(m.problem, m.cursor, m.chainDigest);
            Preflight(sha, AssembledLines(m, a), pin, m.signature.checkpointDigest).Intact? <==>
            TitleOk(m.title) && RealDate(m.date) && TerminalEmbedded(m, a)
  {
    hide Joined, ParseRange, AssembledLines, HeaderOk, TitleOk, RealDate, TerminalEmbedded, Hex, Preflight, Integrity, EventsOf, ProblemId;
    AssembledParses(sha, m, a);
    AssembledHeaderOk(sha, m, a);
    JoinedSize(sha, m, a);
    var lines, digest := AssembledLines(m, a), m.signature.checkpointDigest;
    var pin := Pin(m.problem, m.cursor, m.chainDigest);
    if HeaderOk(AssembledHeader(m, a)) {
      TerminalCheckpoint(sha, m, a, digest);
      AssembledIntegrity(sha, m, a);
      PreflightMeans(sha, lines, Archive(AssembledHeader(m, a), EventsOf(a.events), a.cursor, a.cursor), pin, digest);
    } else {
      PreflightUnread(sha, lines, pin, digest);
    }
  }

  lemma SegmentsNameProblem(sha: Hash, m: Manifest, read: ReadSegment, n: nat)
    requires n > 0 && Segments(sha, m, read, n).Ok?
    ensures ProblemId(m.problem) && Segments(sha, m, read, n).value.events != []
  {
    hide Segments, Append, ParseRange, Linked, CheckpointsHold, BackupAssembly.Begin, TitleOk, RealDate, EventLinesOk;
    EarlierSegments(sha, m, read, n);
    SegmentsStep(sha, m, read, n);
    AppendExtends(sha, m, Segments(sha, m, read, n - 1).value, read(n));
  }

  /** Exactly when a backup is assembled. */
  lemma AssembledExactly(sha: Hash, verify: Verify, m: Manifest, keys: seq<PublishedKey>, read: ReadSegment)
    ensures Assemble(sha, verify, Some(m), keys, read).Ok? <==>
            && ManifestOk(m) && ManifestSigned(sha, verify, m, keys)
            && Segments(sha, m, read, m.segments).Ok?
            && var a := Segments(sha, m, read, m.segments).value;
               TerminalReached(m, a) && TitleOk(m.title) && RealDate(m.date) && TerminalEmbedded(m, a)
  {
    hide Segments, Preflight, AssembledLines, TitleOk, RealDate, TerminalEmbedded, SignatureValid, FindKey, ManifestSigned, ManifestProblem, Bounded, Joined, Hex;
    if ManifestOk(m) && ManifestSigned(sha, verify, m, keys) && Segments(sha, m, read, m.segments).Ok? {
      var a := Segments(sha, m, read, m.segments).value;
      SegmentsJoined(sha, m, read, m.segments);
      SegmentsNameProblem(sha, m, read, m.segments);
      SignedKey(sha, verify, m, keys);
      if TerminalReached(m, a) {
        PreflightExactly(sha, m, a);
      }
    }
  }

  // ----- the assembled backup verifies

  /** The same pinned keys, as the offline verifier takes them. */
  function KeyEntries(keys: seq<PublishedKey>): (entries: seq<KeyEntry>)
    ensures |entries| == |keys|
    ensures forall i :: 0 <= i < |keys| ==> entries[i] == Key(keys[i].keyId, keys[i].publicKey)
  {
    seq(|keys|, i requires 0 <= i < |keys| => Key(keys[i].keyId, keys[i].publicKey))
  }

  lemma {:induction false} AsciiLength(s: string)
    requires forall i :: 0 <= i < |s| ==> s[i] as int < 0x1_0000
    ensures |KeyOrder.Encode(s)| == |s|
  {
    if s != [] {
      AsciiLength(s[1..]);
    }
  }

  lemma BackupFaceShape(m: Manifest, trusted: PublishedKey, a: Assembly)
    requires ProblemId(m.problem) && SignatureShape(m.signature)
    requires trusted.keyId == m.signature.keyId && Hex64(trusted.publicKey)
    ensures FaceShape(BackupFace(m, trusted, a))
  {
    hide Hex, KeyOrder.Encode;
    AsciiLength(m.problem);
  }

  lemma OneAnchor(verify: Verify, m: Manifest, trusted: map<string, string>)
    requires m.signature.keyId in trusted
    requires SignatureValid(verify, m.problem, m.signature, trusted[m.signature.keyId])
    ensures Anchors(verify, m.problem, trusted, [m.signature]).anchors ==
            map[m.signature.checkpointSeq := Anchor(m.signature.rootChainDigest, m.signature.checkpointDigest)]
    ensures SignaturesVerify(verify, m.problem, trusted, [m.signature])
  {
    hide SignatureValid;
    var none: seq<Signature> := [];
    assert [m.signature][..0] == none;
    assert Anchors(verify, m.problem, trusted, none) == Anchoring(map[], false, []);
  }

  lemma TerminalEvents(sha: Hash, m: Manifest, a: Assembly)
    requires Joined(sha, m, a) && TerminalReached(m, a) && a.events != []
    requires Hex64(m.chainDigest) && Hex64(m.signature.checkpointDigest) && m.cursor >= 0
    requires m.signature.checkpointDigest == sha(CheckpointRecord(m.problem, m.cursor, m.chainDigest))
    ensures EventLines(a.events)
    ensures var anchors := map[m.cursor := Anchor(m.chainDigest, m.signature.checkpointDigest)];
            && EventsAgree(anchors, EventsOf(a.events))
            && TailAnchored(anchors, EventsOf(a.events))
            && HeaderAgrees(anchors, a.checkpoints)
  {
    hide CheckpointHolds, CheckpointMatches, CheckpointShape, Increasing, EventOk, Hex, Bare, Linked;
    var events, root := EventsOf(a.events), sha(GenesisRecord(m.problem));
    forall i | 0 <= i < |events| ensures events[i].seq_ == i + 1 {
      LinkedSeq(sha, m.problem, root, events, i);
    }
    BareHex(m.chainDigest);
    BareHex(m.signature.checkpointDigest);
    forall i | 0 <= i < |a.checkpoints| && a.checkpoints[i].seq_ == m.cursor
      ensures a.checkpoints[i].root == m.chainDigest && a.checkpoints[i].digest == m.signature.checkpointDigest
    {
      CheckpointAt(sha, m.problem, events, a.checkpoints[i]);
    }
  }

  lemma FoundKeyPinned(keys: seq<PublishedKey>, id: string)
    requires FindKey(keys, id).Some? && KeysGood(KeyEntries(keys))
    ensures id in PinKeys(KeyEntries(keys)).trusted
    ensures PinKeys(KeyEntries(keys)).trusted[id] == FindKey(keys, id).value.publicKey
  {
    hide PinKeys, KeyValid, FindKey;
    PinKeysMeans(KeyEntries(keys));
    var k := FindKey(keys, id).value;
    var i :| 0 <= i < |keys| && keys[i] == k;
    assert KeyEntries(keys)[i] == Key(k.keyId, k.publicKey);
  }

  lemma PrivateReading(sha: Hash, verify: Verify, lines: seq<Line>, archive: Archive, keys: seq<KeyEntry>)
    requires ParseRange(lines, false) == Some(archive) && Integrity(sha, archive, None, None)
    ensures Read(sha, verify, lines, keys) == Reading(Some(archive), None, None, true, [])
  {
    hide ParseRange, VerifyRange, ParsePublic, VerifyPublic, Integrity;
    IntactExactly(sha, lines, None, None);
  }

  lemma AssembledReading(sha: Hash, verify: Verify, m: Manifest, a: Assembly, keys: seq<KeyEntry>)
    requires Joined(sha, m, a) && TerminalReached(m, a) && a.events != []
    requires Positive(m.cursor) && Hex64(m.chainDigest) && HeaderOk(AssembledHeader(m, a))
    ensures EventLines(a.events)
    ensures Read(sha, verify, AssembledLines(m, a), keys) ==
            Reading(Some(Archive(AssembledHeader(m, a), EventsOf(a.events), a.cursor, a.cursor)), None, None, true, [])
  {
    hide Joined, ParseRange, AssembledLines, HeaderOk, Hex, Integrity, EventsOf, Read;
    JoinedSize(sha, m, a);
    AssembledParses(sha, m, a);
    AssembledIntegrity(sha, m, a);
    PrivateReading(sha, verify, AssembledLines(m, a),
                   Archive(AssembledHeader(m, a), EventsOf(a.events), a.cursor, a.cursor), keys);
  }

  /** The state behind a successful assembly. */
  lemma AssembledFrom(sha: Hash, verify: Verify, m: Manifest, keys: seq<PublishedKey>, read: ReadSegment)
    returns (a: Assembly, trusted: PublishedKey)
    requires Assemble(sha, verify, Some(m), keys, read).Ok?
    ensures ManifestOk(m) && Joined(sha, m, a) && TerminalReached(m, a) && a.events != [] && ProblemId(m.problem)
    ensures TitleOk(m.title) && RealDate(m.date)
    ensures FindKey(keys, m.signature.keyId) == Some(trusted)
    ensures SignatureValid(verify, m.problem, m.signature, trusted.publicKey)
    ensures m.signature.checkpointDigest == sha(CheckpointRecord(m.problem, m.cursor, m.chainDigest))
    ensures Assemble(sha, verify, Some(m), keys, read).value ==
            Backup(AssembledLines(m, a), BackupFace(m, trusted, a), a.cursor)
  {
    hide Segments, Preflight, AssembledLines, TitleOk, RealDate, TerminalEmbedded, SignatureValid, FindKey, ManifestSigned, ManifestProblem, Bounded, Joined, Hex, BackupFace, ProblemId;
    AssembledExactly(sha, verify, m, keys, read);
    SignedKey(sha, verify, m, keys);
    a := Segments(sha, m, read, m.segments).value;
    trusted := FindKey(keys, m.signature.keyId).value;
    SegmentsJoined(sha, m, read, m.segments);
    SegmentsNameProblem(sha, m, read, m.segments);
  }

  lemma SidecarIsVerdict(sha: Hash, verify: Verify, lines: seq<Line>, face: Face, keys: seq<KeyEntry>)
    requires FaceShape(face) && Read(sha, verify, lines, keys).archive.Some?
    ensures Verdict(sha, verify, Input(lines, Given(face), Some(keys))) ==
            SidecarVerdict(verify, Read(sha, verify, lines, keys), face, keys)
  {
    hide FaceShape, Read, SidecarVerdict;
  }

  /** An accepted state gives an accepted verdict. */
  lemma AssembledVerdict(
    sha: Hash, verify: Verify, m: Manifest, a: Assembly, trusted: PublishedKey, keys: seq<KeyEntry>)
    requires Joined(sha, m, a) && TerminalReached(m, a) && a.events != [] && ManifestOk(m) && ProblemId(m.problem)
    requires HeaderOk(AssembledHeader(m, a)) && FaceShape(BackupFace(m, trusted, a))
    requires m.signature.checkpointDigest == sha(CheckpointRecord(m.problem, m.cursor, m.chainDigest))
    requires KeysGood(keys) && m.signature.keyId in PinKeys(keys).trusted
    requires SignatureValid(verify, m.problem, m.signature, PinKeys(keys).trusted[m.signature.keyId])
    ensures var v := Verdict(sha, verify, Input(AssembledLines(m, a), Given(BackupFace(m, trusted, a)), Some(keys)));
            && v.ok && v.failures == [] && v.authenticated == Some(true)
            && v.problem == Some(m.problem) && v.format == Some(V3)
            && v.assurance.Some? && v.assurance.value.coverage == CompleteCoverage
            && v.assurance.value.trustedThrough == m.cursor
  {
    assert Positive(m.cursor) && Hex64(m.chainDigest) by {
      hide Hex, ManifestProblem, Bounded;
    }
    hide Joined, FaceShape, Read, SidecarVerdict, AssembledLines, KeysGood, EventsOf, ManifestOk, BackupFace, PinKeys, SignatureValid, ProblemId, HeaderOk, Verdict, Hex, SidecarAccepts, Integrity;
    var lines, face := AssembledLines(m, a), BackupFace(m, trusted, a);
    AssembledReading(sha, verify, m, a, keys);
    AssembledAccepted(sha, verify, m, a, trusted, keys);
    JoinedSize(sha, m, a);
    var r := Read(sha, verify, lines, keys);
    SidecarOkExactly(verify, r, face, keys);
    SidecarOkMeans(sha, verify, lines, face, keys);
    SidecarLabels(verify, r, face, keys);
    SidecarIsVerdict(sha, verify, lines, face, keys);
  }

  /**
   * Whatever segments were supplied, a backup that assembles is accepted by the offline
   * verifier with its own one-signature face and the same pinned keys: no failures,
   * authenticated, and complete through the last event.
   */
  lemma AssembledBackupVerifies(sha: Hash, verify: Verify, m: Manifest, keys: seq<PublishedKey>, read: ReadSegment)
    requires Assemble(sha, verify, Some(m), keys, read).Ok?
    requires KeysGood(KeyEntries(keys))
    ensures var b := Assemble(sha, verify, Some(m), keys, read).value;
            var v := Verdict(sha, verify, Input(b.lines, Given(b.face), Some(KeyEntries(keys))));
            && v.ok && v.failures == [] && v.authenticated == Some(true)
            && v.problem == Some(m.problem) && v.format == Some(V3)
            && v.assurance.Some? && v.assurance.value.coverage == CompleteCoverage
            && v.assurance.value.trustedThrough == b.eventCount == m.cursor
  {
    hide Assemble, Joined, FaceShape, Verdict, KeyEntries, AssembledLines, KeysGood, BackupFace, PinKeys, SignatureValid, TitleOk, RealDate, FindKey, ProblemId, HeaderOk;
    var a, trusted := AssembledFrom(sha, verify, m, keys, read);
    FoundKeyPinned(keys, m.signature.keyId);
    ValidKeyShape(verify, m, trusted);
    FoundKeyId(keys, m.signature.keyId);
    BackupFaceShape(m, trusted, a);
    AssembledHeaderOk(sha, m, a);
    AssembledVerdict(sha, verify, m, a, trusted, KeyEntries(keys));
  }

  lemma FoundKeyId(keys: seq<PublishedKey>, id: string)
    requires FindKey(keys, id).Some?
    ensures FindKey(keys, id).value.keyId == id
  {
  }

  lemma ValidKeyShape(verify: Verify, m: Manifest, trusted: PublishedKey)
    requires ManifestOk(m) && SignatureValid(verify, m.problem, m.signature, trusted.publicKey)
    ensures Hex64(trusted.publicKey) && SignatureShape(m.signature)
  {
    hide Hex, Message, ManifestProblem, Bounded;
  }

  lemma SidecarLabels(verify: Verify, r: Reading, face: Face, keys: seq<KeyEntry>)
    requires r.archive.Some?
    ensures SidecarVerdict(verify, r, face, keys).problem == Some(r.archive.value.header.problem)
    ensures r.public.None? ==> SidecarVerdict(verify, r, face, keys).format == Some(V3)
  {
    hide SidecarFailures, PinKeys, Anchors, MatchEvents;
  }

  lemma AssembledAccepted(
    sha: Hash, verify: Verify, m: Manifest, a: Assembly, trusted: PublishedKey, keys: seq<KeyEntry>)
    requires Joined(sha, m, a) && TerminalReached(m, a) && a.events != [] && ManifestOk(m)
    requires m.signature.checkpointDigest == sha(CheckpointRecord(m.problem, m.cursor, m.chainDigest))
    requires KeysGood(keys) && m.signature.keyId in PinKeys(keys).trusted
    requires SignatureValid(verify, m.problem, m.signature, PinKeys(keys).trusted[m.signature.keyId])
    ensures EventLines(a.events)
    ensures var archive := Archive(AssembledHeader(m, a), EventsOf(a.events), a.cursor, a.cursor);
            SidecarAccepts(verify, Reading(Some(archive), None, None, true, []), BackupFace(m, trusted, a), keys)
  {
    assert keys != [] by {
      if keys == [] {
        NonemptyPins(keys);
      }
    }
    hide Joined, KeysGood, PinKeys, SignatureValid, Hex, EventsOf, Anchors, SignaturesVerify, EventsAgree, TailAnchored, HeaderAgrees, ManifestProblem, Bounded;
    JoinedSize(sha, m, a);
    OneAnchor(verify, m, PinKeys(keys).trusted);
    TerminalEvents(sha, m, a);
  }
}
