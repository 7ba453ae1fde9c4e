/**
 * Backups as cuts of one chain: however an intact chain is cut into segments, the
 * recovery loop passes and gives the chain back; and the backups that pass every
 * segment and are refused at the end (scripts/assemble-ledger-backup.ts:39-95).
 */
module SegmentCuts {
  import opened Wrappers
  import opened Digests
  import opened ChainVerifier
  import opened OfflineVerifier
  import opened OfflineTheorems
  import opened BackupAssembly
  import opened AssemblyTheorems
  import EcmaText
  import KeyOrder

  function LinesOf(events: seq<Event>): (lines: seq<Line>)
    ensures |lines| == |events|
    ensures forall i :: 0 <= i < |events| ==> lines[i] == EventLine(events[i])
  {
    seq(|events|, i requires 0 <= i < |events| => EventLine(events[i]))
  }

  /** A segment as it is stored: its header, its events and the trailer with its last number. */
  function SegmentLines(h: Header, events: seq<Event>, cursor: int): seq<Line> {
    [HeaderLine(h)] + LinesOf(events) + [EndLine(h.problem, |events|, cursor)]
  }

  lemma SegmentParts(h: Header, events: seq<Event>, cursor: int)
    ensures var lines := SegmentLines(h, events, cursor);
            && |lines| == |events| + 2 && lines[0] == HeaderLine(h)
            && lines[1..|lines| - 1] == LinesOf(events)
            && lines[|lines| - 1] == EndLine(h.problem, |events|, cursor)
  {
  }

  lemma LinesOfEvents(events: seq<Event>)
    ensures EventsOf(LinesOf(events)) == events
    ensures EventsOk(events) ==> EventLinesOk(LinesOf(events))
  {
    hide EventOk;
  }

  lemma PartsParseSegment(lines: seq<Line>, h: Header, events: seq<Event>, cursor: int)
    requires |lines| == |events| + 2 && lines[0] == HeaderLine(h) && lines[1..|lines| - 1] == LinesOf(events)
    requires lines[|lines| - 1] == EndLine(h.problem, |events|, cursor)
    requires HeaderOk(h) && EventsOk(events) && events != [] && NonNegative(|events|) && NonNegative(cursor)
    requires |h.checkpoints| <= |events|
    requires forall i :: 0 <= i < |h.checkpoints| ==> h.checkpoints[i].seq_ <= events[|events| - 1].seq_
    ensures ParseRange(lines, true) == Some(Archive(h, events, |events|, cursor))
  {
    LinesOfEvents(events);
    hide HeaderOk, EventOk, EventsOk, LinesOf;
  }

  // ----- a part of a chain

  lemma PartDigests(root: string, events: seq<Event>, from: nat, to: nat, i: nat)
    requires from <= to <= |events| && i <= to - from
    ensures PreviousDigest(FinalDigest(root, events[..from]), events[from..to], i) == PreviousDigest(root, events, from + i)
  {
  }

  lemma LinkedPart(sha: Hash, problem: string, root: string, events: seq<Event>, from: nat, to: nat)
    requires from <= to <= |events| && Linked(sha, problem, 0, root, events)
    ensures Linked(sha, problem, from, FinalDigest(root, events[..from]), events[from..to])
  {
    hide LinkOk, PreviousDigest, FinalDigest;
    var part, before := events[from..to], FinalDigest(root, events[..from]);
    forall i | 0 <= i < |part|
      ensures LinkOk(sha, problem, PreviousDigest(before, part, i), from + 1 + i, part[i])
    {
      PartDigests(root, events, from, to, i);
      assert LinkOk(sha, problem, PreviousDigest(root, events, from + i), 0 + 1 + (from + i), events[from + i]);
    }
  }

  lemma PartFinal(root: string, events: seq<Event>, from: nat, to: nat)
    requires from <= to <= |events|
    ensures FinalDigest(FinalDigest(root, events[..from]), events[from..to]) == FinalDigest(root, events[..to])
  {
  }

  /** Checkpoints of the chain that lie within a part. */
  predicate OwnCheckpoints(sha: Hash, events: seq<Event>, h: Header, from: nat, to: nat) {
    forall i :: 0 <= i < |h.checkpoints| ==>
      from < h.checkpoints[i].seq_ <= to && CheckpointHolds(sha, h.problem, 0, events, h.checkpoints[i])
  }

  lemma OwnCheckpointsHold(sha: Hash, events: seq<Event>, h: Header, from: nat, to: nat)
    requires from <= to <= |events| && OwnCheckpoints(sha, events, h, from, to)
    ensures CheckpointsHold(sha, h, from, events[from..to])
  {
    hide CheckpointMatches;
  }

  lemma {:induction false} CheckpointsWithin(checkpoints: seq<Checkpoint>, from: nat, to: nat)
    requires from <= to && Increasing(checkpoints)
    requires forall i :: 0 <= i < |checkpoints| ==> from < checkpoints[i].seq_ <= to
    ensures |checkpoints| <= to - from
  {
    if checkpoints != [] {
      CheckpointsWithin(checkpoints[..|checkpoints| - 1], from, checkpoints[|checkpoints| - 1].seq_ - 1);
    }
  }

  // ----- one segment passes the loop

  /** An intact chain for the manifest's problem, in shape. */
  predicate Chain(sha: Hash, m: Manifest, events: seq<Event>) {
    && Linked(sha, m.problem, 0, sha(GenesisRecord(m.problem)), events) && EventsOk(events)
    && Hex64(sha(GenesisRecord(m.problem))) && |events| <= m.cursor && NonNegative(m.cursor)
  }

  function RootAt(sha: Hash, m: Manifest, events: seq<Event>, n: nat): string
    requires n <= |events|
  {
    FinalDigest(sha(GenesisRecord(m.problem)), events[..n])
  }

  lemma RootShape(sha: Hash, m: Manifest, events: seq<Event>, n: nat)
    requires Chain(sha, m, events) && n <= |events|
    ensures Hex64(RootAt(sha, m, events, n)) && (n == 0 ==> RootAt(sha, m, events, n) == sha(GenesisRecord(m.problem)))
  {
    hide Hex, Linked;
    if n > 0 {
      assert EventOk(events[n - 1]);
    }
  }

  lemma ChainSeq(sha: Hash, m: Manifest, events: seq<Event>, i: nat)
    requires Chain(sha, m, events) && i < |events|
    ensures events[i].seq_ == i + 1 && Hex64(events[i].chainDigest)
  {
    hide Hex, Linked;
    LinkedSeq(sha, m.problem, sha(GenesisRecord(m.problem)), events, i);
    assert EventOk(events[i]);
  }

  lemma ChainBound(sha: Hash, m: Manifest, events: seq<Event>)
    requires Chain(sha, m, events)
    ensures |events| <= m.cursor
  {
    hide Hex, Linked, EventsOk;
  }

  lemma PartIntegrity(sha: Hash, m: Manifest, events: seq<Event>, h: Header, from: nat, to: nat)
    requires Chain(sha, m, events) && from < to <= |events|
    requires HeaderOk(h) && h.problem == m.problem && OwnCheckpoints(sha, events, h, from, to)
    ensures var pin := Pin(m.problem, to, events[to - 1].chainDigest);
            var preceding := Pin(m.problem, from, RootAt(sha, m, events, from));
            Integrity(sha, Archive(h, events[from..to], to - from, to), Some(pin), Some(preceding))
  {
    RootShape(sha, m, events, from);
    ChainSeq(sha, m, events, to - 1);
    LinkedPart(sha, m.problem, sha(GenesisRecord(m.problem)), events, from, to);
    OwnCheckpointsHold(sha, events, h, from, to);
    hide Hex, Linked, CheckpointsHold, OwnCheckpoints, FinalDigest, EventsOk, HeaderOk;
  }

  lemma PartParses(sha: Hash, m: Manifest, events: seq<Event>, h: Header, from: nat, to: nat)
    requires Chain(sha, m, events) && from < to <= |events|
    requires HeaderOk(h) && OwnCheckpoints(sha, events, h, from, to)
    ensures ParseRange(SegmentLines(h, events[from..to], to), true) == Some(Archive(h, events[from..to], to - from, to))
  {
    ChainSeq(sha, m, events, to - 1);
    SegmentParts(h, events[from..to], to);
    assert Increasing(h.checkpoints) && EventsOk(events[from..to]) by {
      hide EventOk, CheckpointShape, TitleOk, RealDate, ProblemId;
    }
    hide Linked, EventsOk, HeaderOk, EventOk, CheckpointHolds, Increasing, SegmentLines, ParseRange;
    CheckpointsWithin(h.checkpoints, from, to);
    PartsParseSegment(SegmentLines(h, events[from..to], to), h, events[from..to], to);
  }

  /** The state of the recovery after the first `n` events of a chain. */
  function StateAt(sha: Hash, m: Manifest, events: seq<Event>, n: nat, checkpoints: seq<Checkpoint>): Assembly
    requires n <= |events|
  {
    Assembly(n, RootAt(sha, m, events, n), LinesOf(events[..n]), checkpoints)
  }

  lemma LinesOfJoin(events: seq<Event>, from: nat, to: nat)
    requires from <= to <= |events|
    ensures LinesOf(events[..from]) + LinesOf(events[from..to]) == LinesOf(events[..to])
  {
  }

  lemma PartVerified(sha: Hash, m: Manifest, events: seq<Event>, h: Header, from: nat, to: nat)
    requires Chain(sha, m, events) && from < to <= |events|
    requires HeaderOk(h) && h.problem == m.problem && OwnCheckpoints(sha, events, h, from, to)
    ensures var pin := Pin(m.problem, to, events[to - 1].chainDigest);
            var preceding := Pin(m.problem, from, RootAt(sha, m, events, from));
            VerifyRange(sha, SegmentLines(h, events[from..to], to), Some(pin), Some(preceding)) ==
            Intact(to - from, RootAt(sha, m, events, to))
  {
    var pin := Pin(m.problem, to, events[to - 1].chainDigest);
    var preceding := Pin(m.problem, from, RootAt(sha, m, events, from));
    PartParses(sha, m, events, h, from, to);
    PartIntegrity(sha, m, events, h, from, to);
    IntactExactly(sha, SegmentLines(h, events[from..to], to), Some(pin), Some(preceding));
    PartFinal(sha(GenesisRecord(m.problem)), events, from, to);
    hide ParseRange, VerifyRange, Integrity, Linked, HeaderOk, EventsOk, FinalDigest, SegmentLines, OwnCheckpoints, Chain;
  }

  lemma AppendVerified(sha: Hash, m: Manifest, a: Assembly, body: Body, segment: Archive, count: nat, final: string)
    requires body.byteLength <= MAX_SEGMENT_BYTES && ParseRange(body.lines, true) == Some(segment) && segment.events != []
    requires segment.events[|segment.events| - 1].seq_ <= m.cursor
    requires var last := segment.events[|segment.events| - 1];
             VerifyRange(sha, body.lines, Some(Pin(m.problem, last.seq_, last.chainDigest)), Some(Pin(m.problem, a.cursor, a.root)))
             == Intact(count, final)
    ensures |body.lines| >= 2
    ensures Append(sha, m, a, Some(body)) ==
            Ok(Assembly(segment.events[|segment.events| - 1].seq_, final, a.events + body.lines[1..|body.lines| - 1],
                        a.checkpoints + segment.header.checkpoints))
  {
    ParsedEvents(body.lines, true);
    hide ParseRange, VerifyRange, EventLinesOk;
  }

  lemma PartPasses(
    sha: Hash, m: Manifest, events: seq<Event>, h: Header, from: nat, to: nat, body: Body, checkpoints: seq<Checkpoint>)
    requires Chain(sha, m, events) && from < to <= |events|
    requires HeaderOk(h) && h.problem == m.problem && OwnCheckpoints(sha, events, h, from, to)
    requires body.byteLength <= MAX_SEGMENT_BYTES && body.lines == SegmentLines(h, events[from..to], to)
    ensures Append(sha, m, StateAt(sha, m, events, from, checkpoints), Some(body)) ==
            Ok(StateAt(sha, m, events, to, checkpoints + h.checkpoints))
  {
    hide ParseRange, VerifyRange, Append, Chain, HeaderOk, RootAt, SegmentLines, LinesOf, OwnCheckpoints, Hex;
    var part, a := events[from..to], StateAt(sha, m, events, from, checkpoints);
    ChainSeq(sha, m, events, to - 1);
    ChainBound(sha, m, events);
    PartParses(sha, m, events, h, from, to);
    PartVerified(sha, m, events, h, from, to);
    SegmentParts(h, part, to);
    LinesOfJoin(events, from, to);
    assert part[|part| - 1] == events[to - 1];
    AppendVerified(sha, m, a, body, Archive(h, part, to - from, to), to - from, RootAt(sha, m, events, to));
  }

  // ----- any cut of a chain

  /** 0 = cuts[0] < cuts[1] < ... < the number of events. */
  predicate CutPoints(cuts: seq<nat>, n: nat) {
    && |cuts| >= 1 && cuts[0] == 0 && cuts[|cuts| - 1] == n
    && forall i, j :: 0 <= i < j < |cuts| ==> cuts[i] < cuts[j]
  }

  /** What is stored for the i-th part. */
  predicate Stored(body: Option<Body>, h: Header, events: seq<Event>, from: nat, to: nat)
    requires from <= to <= |events|
  {
    body.Some? && body.value.byteLength <= MAX_SEGMENT_BYTES && body.value.lines == SegmentLines(h, events[from..to], to)
  }

  /** Every part is stored under a well-formed header with its own checkpoints. */
  predicate CutInto(sha: Hash, m: Manifest, events: seq<Event>, cuts: seq<nat>, headers: seq<Header>, read: ReadSegment) {
    && CutPoints(cuts, |events|) && |headers| == |cuts| - 1
    && forall i {:trigger headers[i]} :: 0 <= i < |headers| ==>
         && HeaderOk(headers[i]) && headers[i].problem == m.problem
         && cuts[i] <= cuts[i + 1] <= |events|
         && OwnCheckpoints(sha, events, headers[i], cuts[i], cuts[i + 1])
         && Stored(read(i + 1), headers[i], events, cuts[i], cuts[i + 1])
  }

  function AllCheckpoints(headers: seq<Header>): seq<Checkpoint> {
    if headers == [] then [] else AllCheckpoints(headers[..|headers| - 1]) + headers[|headers| - 1].checkpoints
  }

  /** One part of a cut. */
  lemma CutPart(
    sha: Hash, m: Manifest, events: seq<Event>, cuts: seq<nat>, headers: seq<Header>, read: ReadSegment, i: nat)
    requires CutInto(sha, m, events, cuts, headers, read) && i < |headers|
    ensures |cuts| == |headers| + 1 && cuts[i] < cuts[i + 1] <= |events|
    ensures HeaderOk(headers[i]) && headers[i].problem == m.problem
    ensures OwnCheckpoints(sha, events, headers[i], cuts[i], cuts[i + 1])
    ensures Stored(read(i + 1), headers[i], events, cuts[i], cuts[i + 1])
  {
    hide HeaderOk, OwnCheckpoints, Stored;
  }

  lemma StoredPasses(
    sha: Hash, m: Manifest, events: seq<Event>, h: Header, from: nat, to: nat, body: Option<Body>, checkpoints: seq<Checkpoint>)
    requires Chain(sha, m, events) && from < to <= |events|
    requires HeaderOk(h) && h.problem == m.problem && OwnCheckpoints(sha, events, h, from, to)
    requires Stored(body, h, events, from, to)
    ensures Append(sha, m, StateAt(sha, m, events, from, checkpoints), body) ==
            Ok(StateAt(sha, m, events, to, checkpoints + h.checkpoints))
  {
    hide Append, Chain, HeaderOk, OwnCheckpoints, StateAt, SegmentLines;
    PartPasses(sha, m, events, h, from, to, body.value, checkpoints);
  }

  lemma NextCheckpoints(headers: seq<Header>, n: nat)
    requires 0 < n <= |headers|
    ensures AllCheckpoints(headers[..n]) == AllCheckpoints(headers[..n - 1]) + headers[n - 1].checkpoints
  {
    assert headers[..n][..n - 1] == headers[..n - 1];
  }

  lemma NothingStored(sha: Hash, m: Manifest, events: seq<Event>)
    ensures BackupAssembly.Begin(sha, m) == StateAt(sha, m, events, 0, [])
  {
    assert events[..0] == [];
    assert LinesOf([]) == [];
  }

  /** The first `n` parts have passed, and left the chain up to the n-th cut. */
  predicate PassedTo(
    sha: Hash, m: Manifest, events: seq<Event>, cuts: seq<nat>, headers: seq<Header>, read: ReadSegment, n: nat)
    requires n <= |headers|
  {
    n < |cuts| && cuts[n] <= |events| &&
    Segments(sha, m, read, n) == Ok(StateAt(sha, m, events, cuts[n], AllCheckpoints(headers[..n])))
  }

  lemma NothingPassed(
    sha: Hash, m: Manifest, events: seq<Event>, cuts: seq<nat>, headers: seq<Header>, read: ReadSegment)
    requires CutPoints(cuts, |events|)
    ensures PassedTo(sha, m, events, cuts, headers, read, 0)
  {
    NoSegments(sha, m, read);
    NothingStored(sha, m, events);
    assert headers[..0] == [];
    hide Segments, StateAt, BackupAssembly.Begin;
  }

  lemma NextPassed(
    sha: Hash, m: Manifest, events: seq<Event>, cuts: seq<nat>, headers: seq<Header>, read: ReadSegment, n: nat)
    requires Chain(sha, m, events) && CutInto(sha, m, events, cuts, headers, read) && 0 < n <= |headers|
    requires PassedTo(sha, m, events, cuts, headers, read, n - 1)
    ensures PassedTo(sha, m, events, cuts, headers, read, n)
  {
    hide Segments, Append, Chain, StateAt, AllCheckpoints, CutInto, HeaderOk, OwnCheckpoints, Stored;
    CutPart(sha, m, events, cuts, headers, read, n - 1);
    SegmentsStep(sha, m, read, n);
    NextCheckpoints(headers, n);
    StoredPasses(sha, m, events, headers[n - 1], cuts[n - 1], cuts[n], read(n), AllCheckpoints(headers[..n - 1]));
  }

  lemma {:induction false} CutPasses(
    sha: Hash, m: Manifest, events: seq<Event>, cuts: seq<nat>, headers: seq<Header>, read: ReadSegment, n: nat)
    requires Chain(sha, m, events) && CutInto(sha, m, events, cuts, headers, read) && n <= |headers|
    ensures PassedTo(sha, m, events, cuts, headers, read, n)
    decreases n
  {
    hide Chain, PassedTo, HeaderOk, OwnCheckpoints, Stored, CutPoints;
    if n == 0 {
      NothingPassed(sha, m, events, cuts, headers, read);
    } else {
      CutPasses(sha, m, events, cuts, headers, read, n - 1);
      NextPassed(sha, m, events, cuts, headers, read, n);
    }
  }

  /**
   * However an intact chain is cut into non-empty consecutive segments, each with its own
   * checkpoints, the loop passes, and what it has then joined is the chain.
   */
  lemma AnyCutJoins(
    sha: Hash, m: Manifest, events: seq<Event>, cuts: seq<nat>, headers: seq<Header>, read: ReadSegment)
    requires Chain(sha, m, events) && CutInto(sha, m, events, cuts, headers, read)
    ensures Segments(sha, m, read, |headers|) ==
            Ok(Assembly(|events|, FinalDigest(sha(GenesisRecord(m.problem)), events), LinesOf(events), AllCheckpoints(headers)))
  {
    CutPasses(sha, m, events, cuts, headers, read, |headers|);
    assert events[..|events|] == events && headers[..|headers|] == headers;
    hide Segments, Chain, FinalDigest, LinesOf;
  }

  /** A signed manifest of a chain: its cursor and digest are those of the last event. */
  predicate Manifests(sha: Hash, verify: Verify, m: Manifest, keys: seq<PublishedKey>, events: seq<Event>) {
    && ManifestOk(m) && ManifestSigned(sha, verify, m, keys)
    && m.cursor == |events| && m.chainDigest == FinalDigest(sha(GenesisRecord(m.problem)), events)
  }

  /**
   * The round trip: a chain cut into segments under a manifest is given back line by line,
   * if and only if the manifest's title and date fit the export header and the last
   * segment carries the terminal checkpoint; otherwise the assembly is refused as invalid.
   */
  lemma AnyCutRecovered(
    sha: Hash, verify: Verify, m: Manifest, keys: seq<PublishedKey>,
    events: seq<Event>, cuts: seq<nat>, headers: seq<Header>, read: ReadSegment)
    requires Chain(sha, m, events) && CutInto(sha, m, events, cuts, headers, read)
    requires Manifests(sha, verify, m, keys, events) && m.segments == |headers|
    ensures var checkpoints, r := AllCheckpoints(headers), Assemble(sha, verify, Some(m), keys, read);
            if TitleOk(m.title) && RealDate(m.date)
               && checkpoints != [] && checkpoints[|checkpoints| - 1].seq_ == m.cursor
            then r.Ok? && r.value.eventCount == |events| &&
                 r.value.lines == [HeaderLine(Header(m.problem, m.title, m.date, checkpoints))] + LinesOf(events)
                                  + [EndLine(m.problem, |events|, |events|)]
            else r == Err(AssemblyInvalid)
  {
    AnyCutJoins(sha, m, events, cuts, headers, read);
    AssembledExactly(sha, verify, m, keys, read);
    hide Segments, Chain, CutInto, LinesOf, FinalDigest, ManifestOk, ManifestSigned, Preflight, TitleOk, RealDate, FindKey, BackupFace;
  }

  // ----- backups that pass every segment and are refused

  function Repeat(c: char, n: nat): (s: string)
    ensures |s| == n && forall i :: 0 <= i < n ==> s[i] == c
  {
    if n == 0 then "" else Repeat(c, n - 1) + [c]
  }

  const ZEROS := Repeat('0', 64)

  /** A hash, a signature check and a one-event chain with which every digest is right. */
  function FlatHash(x: Preimage): string {
    ZEROS
  }

  predicate Accepting(publicKey: string, message: string, signature: string) {
    true
  }

  const FLAT_EVENT := Event(1, Envelope("e", "k", "o", "i", 1, "t", None, None, None, None, None, None), "", ZEROS, ZEROS, ZEROS)
  const FLAT_KEY := PublishedKey("k", ZEROS)

  function FlatManifest(title: string, date: Date): Manifest {
    Manifest("P-17", title, date, 1, ZEROS, 1, Signature(1, ZEROS, ZEROS, "k", Repeat('0', 128)))
  }

  function FlatHeader(terminal: bool): Header {
    Header("P-17", "a title", Date(2026, 8, 17), if terminal then [Checkpoint("P-17", 1, ZEROS, ZEROS)] else [])
  }

  function FlatSegments(terminal: bool): ReadSegment {
    (index: nat) => Some(Body(1000, SegmentLines(FlatHeader(terminal), [FLAT_EVENT], 1)))
  }

  lemma ZerosHex()
    ensures Hex64(ZEROS) && Hex(Repeat('0', 128), 128)
  {
  }

  lemma FlatChain(title: string, date: Date)
    ensures Chain(FlatHash, FlatManifest(title, date), [FLAT_EVENT])
  {
    ZerosHex();
    hide Hex;
  }

  lemma FlatTitle()
    ensures TitleOk("a title")
  {
    AsciiLength("a title");
    assert !EcmaText.Whitespace("a title"[0]);
    hide KeyOrder.Encode;
  }

  lemma FlatFields()
    ensures RealDate(Date(2026, 8, 17)) && ProblemId("P-17")
  {
  }

  lemma FlatCheckpointShape()
    ensures CheckpointShape(Checkpoint("P-17", 1, ZEROS, ZEROS), "P-17")
  {
    ZerosHex();
    hide Hex;
  }

  lemma FlatHeaderOk(terminal: bool)
    ensures HeaderOk(FlatHeader(terminal))
  {
    FlatTitle();
    FlatFields();
    FlatCheckpointShape();
    hide CheckpointShape, TitleOk, RealDate, ProblemId;
  }

  lemma FlatOwnCheckpoints(terminal: bool)
    ensures OwnCheckpoints(FlatHash, [FLAT_EVENT], FlatHeader(terminal), 0, 1)
  {
  }

  /** A chain stored as one segment. */
  lemma OneSegment(sha: Hash, m: Manifest, events: seq<Event>, h: Header, read: ReadSegment)
    requires events != [] && HeaderOk(h) && h.problem == m.problem
    requires OwnCheckpoints(sha, events, h, 0, |events|) && Stored(read(1), h, events, 0, |events|)
    ensures CutInto(sha, m, events, [0, |events|], [h], read)
  {
    hide HeaderOk, OwnCheckpoints, Stored;
  }

  lemma FlatStored(terminal: bool)
    ensures Stored(FlatSegments(terminal)(1), FlatHeader(terminal), [FLAT_EVENT], 0, 1)
  {
    assert [FLAT_EVENT][0..1] == [FLAT_EVENT];
    hide SegmentLines, FlatHeader;
  }

  lemma FlatCut(title: string, date: Date, terminal: bool)
    ensures CutInto(FlatHash, FlatManifest(title, date), [FLAT_EVENT], [0, 1], [FlatHeader(terminal)], FlatSegments(terminal))
  {
    FlatHeaderOk(terminal);
    FlatOwnCheckpoints(terminal);
    FlatStored(terminal);
    hide HeaderOk, OwnCheckpoints, Stored, CutInto, FlatSegments;
    OneSegment(FlatHash, FlatManifest(title, date), [FLAT_EVENT], FlatHeader(terminal), FlatSegments(terminal));
  }

  lemma FlatSigned(title: string, date: Date)
    ensures ManifestSigned(FlatHash, Accepting, FlatManifest(title, date), [FLAT_KEY])
  {
    ZerosHex();
    hide Hex, Message;
  }

  lemma FlatShape()
    ensures ManifestProblem("P-17") && Bounded("k", 1, 64)
  {
    AsciiLength("k");
    hide KeyOrder.Encode;
  }

  lemma FlatManifestOk(title: string, date: Date)
    requires Bounded(title, 0, 500) && date.year <= 9999 && date.month <= 99 && date.day <= 99
    ensures Manifests(FlatHash, Accepting, FlatManifest(title, date), [FLAT_KEY], [FLAT_EVENT])
  {
    ZerosHex();
    FlatShape();
    FlatSigned(title, date);
    hide Hex, ManifestProblem, Bounded, ManifestSigned;
  }

  /** Signed, every segment verified, the terminal reached, and still refused. */
  predicate RefusedAtTheEnd(title: string, date: Date, terminal: bool) {
    var m := FlatManifest(title, date);
    && ManifestOk(m) && ManifestSigned(FlatHash, Accepting, m, [FLAT_KEY])
    && Segments(FlatHash, m, FlatSegments(terminal), m.segments).Ok?
    && TerminalReached(m, Segments(FlatHash, m, FlatSegments(terminal), m.segments).value)
    && Assemble(FlatHash, Accepting, Some(m), [FLAT_KEY], FlatSegments(terminal)) == Err(AssemblyInvalid)
  }

  /**
   * Every title and date that the manifest takes and the export header does not, and a chain
   * stored without its terminal checkpoint, gives such a backup.
   */
  lemma RefusedExactly(title: string, date: Date, terminal: bool)
    requires Bounded(title, 0, 500) && date.year <= 9999 && date.month <= 99 && date.day <= 99
    ensures RefusedAtTheEnd(title, date, terminal) <==> !(TitleOk(title) && RealDate(date) && terminal)
  {
    var m := FlatManifest(title, date);
    FlatChain(title, date);
    FlatCut(title, date, terminal);
    FlatManifestOk(title, date);
    AnyCutJoins(FlatHash, m, [FLAT_EVENT], [0, 1], [FlatHeader(terminal)], FlatSegments(terminal));
    AnyCutRecovered(FlatHash, Accepting, m, [FLAT_KEY], [FLAT_EVENT], [0, 1], [FlatHeader(terminal)], FlatSegments(terminal));
    assert AllCheckpoints([FlatHeader(terminal)]) == FlatHeader(terminal).checkpoints;
    hide Chain, CutInto, Assemble, Segments, TitleOk, RealDate, ManifestOk, ManifestSigned, FlatSegments, LinesOf;
  }

  lemma UnfitTitles()
    ensures Bounded(Repeat('a', 161), 0, 500) && !TitleOk(Repeat('a', 161))
    ensures Bounded(" ", 0, 500) && !TitleOk(" ") && Bounded("a", 0, 500)
  {
    AsciiLength(Repeat('a', 161));
    AsciiLength(" ");
    AsciiLength("a");
    hide KeyOrder.Encode, Repeat;
  }

  /** A title of 161 units, a blank one, the 30th of February, and no terminal checkpoint. */
  lemma RefusedBackups()
    ensures RefusedAtTheEnd(Repeat('a', 161), Date(2026, 8, 17), true)
    ensures RefusedAtTheEnd(" ", Date(2026, 8, 17), true)
    ensures RefusedAtTheEnd("a", Date(2026, 2, 30), true)
    ensures RefusedAtTheEnd("a", Date(2026, 8, 17), false)
  {
    UnfitTitles();
    assert !RealDate(Date(2026, 2, 30));
    hide TitleOk, RealDate, RefusedAtTheEnd, Bounded, Repeat;
    RefusedExactly(Repeat('a', 161), Date(2026, 8, 17), true);
    RefusedExactly(" ", Date(2026, 8, 17), true);
    RefusedExactly("a", Date(2026, 2, 30), true);
    RefusedExactly("a", Date(2026, 8, 17), false);
  }
}
