/**
 * What the backup assembly answers, error by error: which manifest and which segment is refused
 * for what reason, and what a recovered backup consists of.
 */
module BackupMeaning {
  import opened Wrappers
  import opened Digests
  import opened ChainVerifier
  import opened OfflineVerifier
  import opened OfflineTheorems
  import opened BackupAssembly
  import opened AssemblyTheorems
  import opened RangeGrammar
  import opened PublicGrammar
  import KeyOrder

  // ----- the manifest

  predicate ManifestFits(m: Manifest) {
    && ManifestProblem(m.problem) && |KeyOrder.Encode(m.title)| <= 500
    && m.date.year <= 9999 && m.date.month <= 99 && m.date.day <= 99
    && 1 <= m.segments <= m.cursor && Count(m.cursor)
    && Hex(m.chainDigest, 64) && SignatureFits(m.signature)
    && m.signature.checkpointSeq == m.cursor && m.signature.rootChainDigest == m.chainDigest
  }

  lemma ManifestFitsExactly(m: Manifest)
    ensures ManifestOk(m) <==> ManifestFits(m)
  {
    hide ManifestProblem, Hex, SignatureShape, SignatureFits;
    SignatureFitsExactly(m.signature);
  }

  /** The first of the keys with the id. */
  predicate FirstWith(keys: seq<PublishedKey>, id: string, i: nat) {
    i < |keys| && keys[i].keyId == id && forall j :: 0 <= j < i ==> keys[j].keyId != id
  }

  lemma {:induction false} FoundFirst(keys: seq<PublishedKey>, id: string, i: nat)
    requires FirstWith(keys, id, i)
    ensures FindKey(keys, id) == Some(keys[i])
  {
    if i > 0 {
      FoundFirst(keys[1..], id, i - 1);
    }
  }

  lemma {:induction false} FoundIsFirst(keys: seq<PublishedKey>, id: string) returns (i: nat)
    requires FindKey(keys, id).Some?
    ensures FirstWith(keys, id, i) && FindKey(keys, id) == Some(keys[i])
  {
    if keys[0].keyId == id {
      i := 0;
    } else {
      var k := FoundIsFirst(keys[1..], id);
      i := k + 1;
    }
  }

  /** Key i is the manifest's signer, and verified the message for the terminal checkpoint. */
  predicate Signer(sha: Hash, verify: Verify, m: Manifest, keys: seq<PublishedKey>, i: nat) {
    && FirstWith(keys, m.signature.keyId, i) && m.cursor >= 0
    && Hex(keys[i].publicKey, 64) && Hex(m.signature.signature, 128)
    && verify(keys[i].publicKey, Message(m.problem, m.signature), m.signature.signature)
    && m.signature.checkpointDigest == sha(CheckpointRecord(m.problem, m.cursor, m.chainDigest))
  }

  lemma SignerExactly(sha: Hash, verify: Verify, m: Manifest, keys: seq<PublishedKey>)
    ensures ManifestSigned(sha, verify, m, keys) <==> exists i: nat :: Signer(sha, verify, m, keys, i)
  {
    hide Message, Hex, FirstWith;
    if ManifestSigned(sha, verify, m, keys) {
      var i := FoundIsFirst(keys, m.signature.keyId);
      hide FindKey;
      assert Signer(sha, verify, m, keys, i);
    }
    if i: nat :| Signer(sha, verify, m, keys, i) {
      FoundFirst(keys, m.signature.keyId, i);
      hide FindKey;
    }
  }

  // ----- one segment

  function Last(a: Archive): Event
    requires a.events != []
  {
    a.events[|a.events| - 1]
  }

  /** Readable, not empty, and not beyond the manifest's cursor. */
  predicate Usable(m: Manifest, lines: seq<Line>, a: Archive) {
    lines == Printed(a) && Fits(a, true) && a.events != [] && Last(a).seq_ <= m.cursor
  }

  /** The segment continues the chain from where the last one ended. */
  ghost predicate Continues(sha: Hash, m: Manifest, before: Assembly, a: Archive)
    requires a.events != []
  {
    before.cursor >= 0 &&
    Whole(sha, a, Some(Pin(m.problem, Last(a).seq_, Last(a).chainDigest)), Some(Pin(m.problem, before.cursor, before.root)),
          before.cursor, before.root)
  }

  function With(before: Assembly, a: Archive): Assembly
    requires a.events != []
  {
    Assembly(Last(a).seq_, Last(a).chainDigest, before.events + EventLinesFor(a.events), before.checkpoints + a.header.checkpoints)
  }

  /** Why the next segment is refused, or what it adds: missing, over twelve mebibytes, unusable, or not continuing the chain. */
  ghost predicate Adds(sha: Hash, m: Manifest, before: Assembly, body: Option<Body>, r: Result<Assembly, Error>) {
    if body.None? then r == Err(SegmentMissing)
    else if body.value.byteLength > 12_582_912 then r == Err(SegmentTooLarge)
    else if forall a :: !Usable(m, body.value.lines, a) then r == Err(SegmentInvalid)
    else
      exists a :: Usable(m, body.value.lines, a) &&
                  r == if Continues(sha, m, before, a) then Ok(With(before, a)) else Err(SegmentChainInvalid)
  }

  lemma UsableParsed(m: Manifest, lines: seq<Line>, a: Archive)
    ensures Usable(m, lines, a) <==>
            ParseRange(lines, true) == Some(a) && a.events != [] && Last(a).seq_ <= m.cursor
  {
    ParsedExactly(lines, true, a);
    hide Printed, Fits, ParseRange;
  }

  lemma ContinuesExactly(sha: Hash, m: Manifest, before: Assembly, a: Archive, lines: seq<Line>)
    requires ParseRange(lines, true) == Some(a) && a.events != []
    ensures var pin, preceding := Pin(m.problem, Last(a).seq_, Last(a).chainDigest), Pin(m.problem, before.cursor, before.root);
            var r := VerifyRange(sha, lines, Some(pin), Some(preceding));
            && (r.Intact? <==> Continues(sha, m, before, a))
            && (r.Intact? ==> r.finalChainDigest == Last(a).chainDigest)
  {
    var pin, preceding := Pin(m.problem, Last(a).seq_, Last(a).chainDigest), Pin(m.problem, before.cursor, before.root);
    IntactExactly(sha, lines, Some(pin), Some(preceding));
    WholeExactly(sha, a, Some(pin), Some(preceding));
    if Integrity(sha, a, Some(pin), Some(preceding)) {
      SegmentIntegrity(sha, a, m.problem, pin, preceding);
    }
    hide ParseRange, VerifyRange, Integrity, Whole;
  }

  lemma SegmentLines(lines: seq<Line>, a: Archive)
    requires ParseRange(lines, true) == Some(a)
    ensures |lines| >= 2 && lines[1..|lines| - 1] == EventLinesFor(a.events)
  {
    ParsedExactly(lines, true, a);
    PrintedParts(a);
    hide ParseRange, Printed, Fits;
  }

  lemma AppendExactly(sha: Hash, m: Manifest, before: Assembly, body: Option<Body>)
    ensures Adds(sha, m, before, body, Append(sha, m, before, body))
  {
    if body.Some? {
      var lines := body.value.lines;
      var parsed := ParseRange(lines, true);
      forall a ensures Usable(m, lines, a) <==> parsed == Some(a) && a.events != [] && Last(a).seq_ <= m.cursor {
        UsableParsed(m, lines, a);
      }
      hide Usable;
      if parsed.Some? && parsed.value.events != [] {
        SegmentLines(lines, parsed.value);
        ContinuesExactly(sha, m, before, parsed.value, lines);
      }
    }
    hide ParseRange, VerifyRange, Continues, EventLinesFor;
  }

  /** Segment k is refused, after all those before it were added. */
  ghost predicate RefusedAt(sha: Hash, m: Manifest, read: ReadSegment, k: nat, e: Error) {
    0 < k && Segments(sha, m, read, k - 1).Ok? && Adds(sha, m, Segments(sha, m, read, k - 1).value, read(k), Err(e))
  }

  lemma NextSegment(sha: Hash, m: Manifest, read: ReadSegment, n: nat)
    requires n > 0 && Segments(sha, m, read, n - 1).Ok?
    ensures Adds(sha, m, Segments(sha, m, read, n - 1).value, read(n), Segments(sha, m, read, n))
  {
    hide Append, Adds, Segments;
    SegmentsStep(sha, m, read, n);
    AppendExactly(sha, m, Segments(sha, m, read, n - 1).value, read(n));
  }

  /** The answer over the segments is the first refusal, if there is one. */
  lemma {:induction false} FirstRefusal(sha: Hash, m: Manifest, read: ReadSegment, n: nat, e: Error)
    requires Segments(sha, m, read, n) == Err(e)
    ensures exists k: nat :: k <= n && RefusedAt(sha, m, read, k, e)
  {
    hide Append, Adds;
    if n > 0 {
      if Segments(sha, m, read, n - 1).Ok? {
        NextSegment(sha, m, read, n);
        assert RefusedAt(sha, m, read, n, e);
      } else {
        FirstRefusal(sha, m, read, n - 1, e);
      }
    }
  }

  /** Before any segment: nothing, chained from the problem's genesis. */
  lemma StartsEmpty(sha: Hash, m: Manifest, read: ReadSegment)
    ensures Segments(sha, m, read, 0) == Ok(Assembly(0, sha(GenesisRecord(m.problem)), [], []))
  {
  }

  // ----- the whole backup

  /** The embedded checkpoints other than the terminal one. */
  function Unsigned(m: Manifest, a: Assembly): set<int> {
    set i | 0 <= i < |a.checkpoints| && a.checkpoints[i].seq_ != m.cursor
  }

  lemma UnsignedCount(sha: Hash, m: Manifest, a: Assembly)
    requires Joined(sha, m, a) && TerminalEmbedded(m, a)
    ensures |Unsigned(m, a)| == |a.checkpoints| - 1
  {
    hide Linked, CheckpointHolds, CheckpointShape, EventLinesOk, FinalDigest;
    var n := |a.checkpoints| - 1;
    forall i | 0 <= i < n ensures a.checkpoints[i].seq_ != m.cursor {
      assert a.checkpoints[i].seq_ < a.checkpoints[n].seq_;
    }
    assert Unsigned(m, a) == Below(n);
  }

  function Below(n: nat): (s: set<int>)
    ensures |s| == n && forall i :: i in s <==> 0 <= i < n
  {
    if n == 0 then {} else Below(n - 1) + {n - 1}
  }

  /** The export made of the joined segments, its one signature, and the count of checkpoints that carry none. */
  predicate Recovers(m: Manifest, signer: PublishedKey, a: Assembly, b: Backup) {
    && b.lines == [HeaderLine(Header(m.problem, m.title, m.date, a.checkpoints))] + a.events + [EndLine(m.problem, m.cursor, m.cursor)]
    && b.face.problemId == m.problem && b.face.keys == [signer] && b.face.signatures == [m.signature]
    && b.face.unsigned == |Unsigned(m, a)|
    && b.eventCount == m.cursor
  }

  /**
   * The answer to every manifest and every set of segments: the manifest's shape, its signature, the first
   * refused segment, the terminal, and last what the export's header asks of title, date and checkpoints.
   */
  ghost predicate Answers(sha: Hash, verify: Verify, manifest: Option<Manifest>, keys: seq<PublishedKey>, read: ReadSegment, r: Result<Backup, Error>) {
    if manifest.None? || !ManifestFits(manifest.value) then r == Err(ManifestMalformed)
    else
      var m := manifest.value;
      if forall i: nat :: !Signer(sha, verify, m, keys, i) then r == Err(ManifestSignatureInvalid)
      else
        match Segments(sha, m, read, m.segments)
        case Err(e) => r == Err(e)
        case Ok(a) =>
          if !(a.cursor == m.cursor && a.root == m.chainDigest) then r == Err(ManifestTerminalMismatch)
          else if !(TitleOk(m.title) && RealDate(m.date) && TerminalEmbedded(m, a)) then r == Err(AssemblyInvalid)
          else r.Ok? && exists i: nat :: Signer(sha, verify, m, keys, i) && Recovers(m, keys[i], a, r.value)
  }

  lemma FinishExactly(sha: Hash, verify: Verify, m: Manifest, keys: seq<PublishedKey>, read: ReadSegment)
    requires ManifestOk(m) && ManifestSigned(sha, verify, m, keys) && Segments(sha, m, read, m.segments).Ok?
    ensures FindKey(keys, m.signature.keyId).Some?
    ensures var a, signer := Segments(sha, m, read, m.segments).value, FindKey(keys, m.signature.keyId).value;
            var r := Finish(sha, m, signer, a);
            if !(a.cursor == m.cursor && a.root == m.chainDigest) then r == Err(ManifestTerminalMismatch)
            else if !(TitleOk(m.title) && RealDate(m.date) && TerminalEmbedded(m, a)) then r == Err(AssemblyInvalid)
            else r.Ok? && Recovers(m, signer, a, r.value)
  {
    SignedKey(sha, verify, m, keys);
    ManifestShapes(m);
    hide Segments, Preflight, TitleOk, RealDate, TerminalEmbedded, SignatureValid, FindKey, ManifestSigned, ManifestOk, Joined, Hex, Unsigned, ProblemId;
    var a := Segments(sha, m, read, m.segments).value;
    SegmentsJoined(sha, m, read, m.segments);
    SegmentsNameProblem(sha, m, read, m.segments);
    if TerminalReached(m, a) {
      PreflightExactly(sha, m, a);
      if TerminalEmbedded(m, a) {
        UnsignedCount(sha, m, a);
      }
    }
  }

  lemma ManifestShapes(m: Manifest)
    requires ManifestOk(m)
    ensures Positive(m.cursor) && m.segments > 0 && Hex64(m.chainDigest) && Hex64(m.signature.checkpointDigest)
  {
    hide ManifestProblem, Bounded, Hex;
  }

  lemma AssembledAnswers(sha: Hash, verify: Verify, manifest: Option<Manifest>, keys: seq<PublishedKey>, read: ReadSegment)
    ensures Answers(sha, verify, manifest, keys, read, Assemble(sha, verify, manifest, keys, read))
  {
    if manifest.Some? {
      var m := manifest.value;
      ManifestFitsExactly(m);
      SignerExactly(sha, verify, m, keys);
      if ManifestOk(m) && ManifestSigned(sha, verify, m, keys) {
        var i: nat :| Signer(sha, verify, m, keys, i);
        FoundFirst(keys, m.signature.keyId, i);
        if Segments(sha, m, read, m.segments).Ok? {
          FinishExactly(sha, verify, m, keys, read);
        }
      }
      hide ManifestFits, ManifestOk, ManifestSigned, Segments, Finish, FindKey, TitleOk, RealDate, TerminalEmbedded, Recovers;
    }
  }
}
