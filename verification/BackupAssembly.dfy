/**
 * Offline recovery of a segmented ledger backup (scripts/assemble-ledger-backup.ts):
 * verified segments are joined into one v3 export under a signed manifest.
 */
module BackupAssembly {
  import opened Wrappers
  import opened Digests
  import opened ChainVerifier
  import opened OfflineVerifier

  const MAX_SEGMENT_BYTES := 12 * 1024 * 1024

  datatype Manifest = Manifest(
    problem: string,
    title: string,
    date: Date,
    cursor: int,
    chainDigest: string,
    segments: int,
    signature: Signature)

  /** A downloaded segment: its size in bytes and its lines. */
  datatype Body = Body(byteLength: nat, lines: seq<Line>)

  type ReadSegment = nat -> Option<Body>

  datatype Error =
    | ManifestMalformed
    | ManifestSignatureInvalid
    | SegmentMissing
    | SegmentTooLarge
    | SegmentInvalid
    | SegmentChainInvalid
    | ManifestTerminalMismatch
    | AssemblyInvalid

  datatype Backup = Backup(lines: seq<Line>, face: Face, eventCount: int)

  predicate AlphaNumeric(c: char) {
    'A' <= c <= 'Z' || 'a' <= c <= 'z' || '0' <= c <= '9'
  }

  predicate DoubleHyphen(s: string, i: nat)
    requires 0 < i < |s|
  {
    s[i - 1] == '-' && s[i] == '-'
  }

  /** The manifest's problem ids: no double hyphen, and not only those an export header takes. */
  predicate ManifestProblem(s: string) {
    && 1 <= |s| <= 128 && AlphaNumeric(s[0])
    && (forall i :: 0 <= i < |s| ==> AlphaNumeric(s[i]) || s[i] in "._:-")
    && (forall i :: 0 < i < |s| ==> !DoubleHyphen(s, i))
  }

  /** The manifest schema: every field in shape, naming its exact terminal checkpoint. */
  predicate ManifestOk(m: Manifest) {
    && ManifestProblem(m.problem) && Bounded(m.title, 0, 500) && m.date.year <= 9999 && m.date.month <= 99 && m.date.day <= 99
    && Positive(m.cursor) && Positive(m.segments) && Hex64(m.chainDigest)
    && SignatureShape(m.signature)
    && m.segments <= m.cursor
    && m.signature.checkpointSeq == m.cursor && m.signature.rootChainDigest == m.chainDigest
  }

  /** The first key with the given id. */
  function FindKey(keys: seq<PublishedKey>, id: string): (r: Option<PublishedKey>)
    ensures match r
            case Some(k) => k in keys && k.keyId == id
            case None => forall i :: 0 <= i < |keys| ==> keys[i].keyId != id
  {
    if keys == [] then None
    else if keys[0].keyId == id then Some(keys[0])
    else FindKey(keys[1..], id)
  }

  predicate ManifestSigned(sha: Hash, verify: Verify, m: Manifest, keys: seq<PublishedKey>) {
    var trusted := FindKey(keys, m.signature.keyId);
    && trusted.Some? && m.cursor >= 0
    && SignatureValid(verify, m.problem, m.signature, trusted.value.publicKey)
    && m.signature.checkpointDigest == sha(CheckpointRecord(m.problem, m.cursor, m.chainDigest))
  }

  // ----- segment by segment

  datatype Assembly = Assembly(cursor: int, root: string, events: seq<Line>, checkpoints: seq<Checkpoint>)

  function Begin(sha: Hash, m: Manifest): Assembly {
    Assembly(0, sha(GenesisRecord(m.problem)), [], [])
  }

  /** One turn of the loop: read, check and append the next segment. */
  function Append(sha: Hash, m: Manifest, a: Assembly, body: Option<Body>): Result<Assembly, Error> {
    if body.None? then Err(SegmentMissing)
    else if body.value.byteLength > MAX_SEGMENT_BYTES then Err(SegmentTooLarge)
    else
      var lines := body.value.lines;
      var parsed := ParseRange(lines, true);
      if parsed.None? || parsed.value.events == []
         || parsed.value.events[|parsed.value.events| - 1].seq_ > m.cursor then Err(SegmentInvalid)
      else
        var last := parsed.value.events[|parsed.value.events| - 1];
        match VerifyRange(sha, lines, Some(Pin(m.problem, last.seq_, last.chainDigest)), Some(Pin(m.problem, a.cursor, a.root)))
        case Broken => Err(SegmentChainInvalid)
        case Intact(_, final) =>
          Ok(Assembly(last.seq_, final, a.events + lines[1..|lines| - 1], a.checkpoints + parsed.value.header.checkpoints))
  }

  /** The state after the first n segments, or the first error among them. */
  function Segments(sha: Hash, m: Manifest, read: ReadSegment, n: nat): Result<Assembly, Error> {
    if n == 0 then Ok(Begin(sha, m))
    else
      var a :- Segments(sha, m, read, n - 1);
      Append(sha, m, a, read(n))
  }

  /** The restore preflight: the pin must be the exact terminal embedded checkpoint. */
  function Preflight(sha: Hash, lines: seq<Line>, pin: Pin, digest: string): Verified {
    var parsed := ParseRange(lines, false);
    if parsed.None? then Broken
    else
      var archive := parsed.value;
      var checkpoints := archive.header.checkpoints;
      if pin.problem != archive.header.problem || !Positive(pin.seq_) || !Hex64(pin.root) || !Hex64(digest) then Broken
      else if pin.seq_ != archive.finalCursor || archive.eventCount == 0 || checkpoints == []
              || checkpoints[|checkpoints| - 1] != Checkpoint(pin.problem, pin.seq_, pin.root, digest) then Broken
      else if digest != sha(CheckpointRecord(pin.problem, pin.seq_, pin.root)) then Broken
      else VerifyRange(sha, lines, Some(pin), None)
  }

  function AssembledLines(m: Manifest, a: Assembly): seq<Line> {
    [HeaderLine(Header(m.problem, m.title, m.date, a.checkpoints))] + a.events + [EndLine(m.problem, a.cursor, a.cursor)]
  }

  function BackupFace(m: Manifest, trusted: PublishedKey, a: Assembly): Face {
    Face(m.problem, [trusted], [m.signature], Max(0, |a.checkpoints| - 1))
  }

  function Assemble(sha: Hash, verify: Verify, manifest: Option<Manifest>, keys: seq<PublishedKey>, read: ReadSegment)
    : Result<Backup, Error>
  {
    if manifest.None? || !ManifestOk(manifest.value) then Err(ManifestMalformed)
    else
      var m := manifest.value;
      if !ManifestSigned(sha, verify, m, keys) then Err(ManifestSignatureInvalid)
      else
        var a :- Segments(sha, m, read, m.segments);
        Finish(sha, m, FindKey(keys, m.signature.keyId).value, a)
  }

  function Finish(sha: Hash, m: Manifest, trusted: PublishedKey, a: Assembly): Result<Backup, Error> {
    if a.cursor != m.cursor || a.root != m.chainDigest then Err(ManifestTerminalMismatch)
    else
      var lines := AssembledLines(m, a);
      var final := Preflight(sha, lines, Pin(m.problem, m.cursor, m.chainDigest), m.signature.checkpointDigest);
      if final.Broken? then Err(AssemblyInvalid)
      else Ok(Backup(lines, BackupFace(m, trusted, a), a.cursor))
  }

  // ----- the loop

  lemma {:induction false} SegmentsStayFailed(sha: Hash, m: Manifest, read: ReadSegment, i: nat, n: nat)
    requires i <= n && Segments(sha, m, read, i).Err?
    ensures Segments(sha, m, read, n) == Segments(sha, m, read, i)
  {
    hide Append;
    if i < n {
      SegmentsStayFailed(sha, m, read, i, n - 1);
    }
  }

  lemma SegmentsStep(sha: Hash, m: Manifest, read: ReadSegment, n: nat)
    requires n > 0 && Segments(sha, m, read, n - 1).Ok?
    ensures Segments(sha, m, read, n) == Append(sha, m, Segments(sha, m, read, n - 1).value, read(n))
  {
    hide Append, Begin;
  }

  lemma NoSegments(sha: Hash, m: Manifest, read: ReadSegment)
    ensures Segments(sha, m, read, 0) == Ok(Begin(sha, m))
  {
  }

  method JoinSegments(sha: Hash, m: Manifest, read: ReadSegment) returns (r: Result<Assembly, Error>)
    requires m.segments >= 1
    ensures r == Segments(sha, m, read, m.segments)
  {
    hide Segments, Append, Begin;
    var a := Begin(sha, m);
    NoSegments(sha, m, read);
    for index := 1 to m.segments + 1
      invariant Segments(sha, m, read, index - 1) == Ok(a)
    {
      var next := Append(sha, m, a, read(index));
      SegmentsStep(sha, m, read, index);
      if next.Err? {
        SegmentsStayFailed(sha, m, read, index, m.segments);
        return next;
      }
      a := next.value;
    }
    r := Ok(a);
  }

  method AssembleLedgerBackup(
    sha: Hash, verify: Verify, manifest: Option<Manifest>, keys: seq<PublishedKey>, read: ReadSegment)
    returns (r: Result<Backup, Error>)
    ensures r == Assemble(sha, verify, manifest, keys, read)
  {
    hide ManifestSigned, Segments, Finish, FindKey, SignatureShape, Bounded, ManifestProblem;
    if manifest.None? || !ManifestOk(manifest.value) {
      return Err(ManifestMalformed);
    }
    var m := manifest.value;
    if !ManifestSigned(sha, verify, m, keys) {
      return Err(ManifestSignatureInvalid);
    }
    SignedKey(sha, verify, m, keys);
    var a := JoinSegments(sha, m, read);
    if a.Err? {
      return Err(a.error);
    }
    r := Finish(sha, m, FindKey(keys, m.signature.keyId).value, a.value);
  }

  lemma SignedKey(sha: Hash, verify: Verify, m: Manifest, keys: seq<PublishedKey>)
    requires ManifestSigned(sha, verify, m, keys)
    ensures m.cursor >= 0
    ensures FindKey(keys, m.signature.keyId).Some?
    ensures SignatureValid(verify, m.problem, m.signature, FindKey(keys, m.signature.keyId).value.publicKey)
    ensures m.signature.checkpointDigest == sha(CheckpointRecord(m.problem, m.cursor, m.chainDigest))
  {
    hide SignatureValid, FindKey;
  }
}
