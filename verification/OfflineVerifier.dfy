/**
 * The offline export verifier (scripts/verify-export.ts): the chain of an export is
 * anchored on checkpoint signatures that verify under keys the caller pins. The
 * signature primitive is the parameter `verify`, SHA-256 the parameter `sha`.
 */
module OfflineVerifier {
  import opened Wrappers
  import opened Digests
  import opened ChainVerifier
  import KeyOrder
  import Decimals

  /** verify(publicKey, message, signature) */
  type Verify = (string, string, string) -> bool

  /** An element of the caller's key array: anything, or a record with two strings. */
  datatype KeyEntry = NotAKey | Key(keyId: string, publicKey: string)

  datatype Face = Face(problemId: string, keys: seq<PublishedKey>, signatures: seq<Signature>, unsigned: int)

  /** The `signatures` argument: undefined, a value of some other shape, or a checkpoint face. */
  datatype Sidecar = Absent | Malformed | Given(face: Face)

  datatype Input = Input(lines: seq<Line>, sidecar: Sidecar, trustedKeys: Option<seq<KeyEntry>>)

  datatype Failure =
    | KeysNotAnArray
    | ChainBroken
    | PublicExportBroken
    | ExportUnreadable
    | SeparateFileRequired
    | FinalEventNotPinned
    | FaceMalformed
    | ProblemMismatch
    | KeyInvalid
    | NoTrustedKey
    | SignatureDoesNotVerify(checkpointSeq: int)
    | NoEvents
    | DiffersFromSigned(eventSeq: int)
    | UnsignedTail(tailSeq: int)
    | Truncated
    | HeaderDisagrees(headerSeq: int)

  datatype Format = V3 | V4 | V5
  datatype Coverage = NoCoverage | PrefixCoverage | CompleteCoverage

  /** What is known about signatures: the fields shared by both branches. */
  datatype Assurance = Assurance(
    signaturesValid: Option<bool>,
    signatureCount: nat,
    signedThrough: int,
    trustedThrough: int,
    coverage: Coverage,
    authenticated: bool)

  datatype Verification = Verification(
    ok: bool,
    format: Option<Format>,
    problem: Option<string>,
    checkpoints: nat,
    signed: nat,
    chainLinkageValid: Option<bool>,
    authenticated: Option<bool>,
    assurance: Option<Assurance>,
    context: Option<(string, nat)>,
    failures: seq<Failure>)

  // ----- signatures

  const MESSAGE_FORMAT := "asimposium.checkpoint.v1"

  function IntText(n: int): string {
    if n < 0 then "-" + Decimals.NatText(-n) else Decimals.NatText(n)
  }

  /** The exact text a checkpoint signature covers. */
  function Message(problem: string, s: Signature): string {
    MESSAGE_FORMAT + "\n" + problem + "\n" + IntText(s.checkpointSeq) + "\n" + s.rootChainDigest + "\n" + s.checkpointDigest
  }

  predicate SignatureValid(verify: Verify, problem: string, s: Signature, publicKey: string) {
    Hex64(publicKey) && Hex(s.signature, 128) && verify(publicKey, Message(problem, s), s.signature)
  }

  predicate Bounded(s: string, low: nat, high: nat) {
    low <= |KeyOrder.Encode(s)| <= high
  }

  predicate SignatureShape(s: Signature) {
    && s.checkpointSeq > 0 && Hex64(s.rootChainDigest) && Hex64(s.checkpointDigest)
    && Bounded(s.keyId, 1, 64) && Hex(s.signature, 128)
  }

  predicate PublishedKeyShape(k: PublishedKey) {
    Bounded(k.keyId, 1, 64) && Hex64(k.publicKey)
  }

  /** The checkpoint face's contract (packages/contracts/src/ledger.ts). */
  predicate FaceShape(f: Face) {
    && Bounded(f.problemId, 1, 64)
    && |f.keys| <= 16 && (forall i :: 0 <= i < |f.keys| ==> PublishedKeyShape(f.keys[i]))
    && |f.signatures| <= 500 && (forall i :: 0 <= i < |f.signatures| ==> SignatureShape(f.signatures[i]))
    && f.unsigned >= 0
  }

  // ----- pinned keys

  predicate KeyIdChar(c: char) {
    'A' <= c <= 'Z' || 'a' <= c <= 'z' || '0' <= c <= '9' || c in "._-"
  }

  predicate KeyValid(k: KeyEntry) {
    && k.Key? && 1 <= |k.keyId| <= 64 && (forall i :: 0 <= i < |k.keyId| ==> KeyIdChar(k.keyId[i]))
    && Hex64(k.publicKey)
  }

  predicate KeyAccepted(trusted: map<string, string>, k: KeyEntry) {
    KeyValid(k) && (k.keyId in trusted ==> trusted[k.keyId] == k.publicKey)
  }

  datatype Pinning = Pinning(trusted: map<string, string>, failures: seq<Failure>)

  function PinKey(p: Pinning, k: KeyEntry): Pinning {
    if KeyAccepted(p.trusted, k) then p.(trusted := p.trusted[k.keyId := k.publicKey])
    else p.(failures := p.failures + [KeyInvalid])
  }

  function PinKeys(keys: seq<KeyEntry>): Pinning {
    if keys == [] then Pinning(map[], []) else PinKey(PinKeys(keys[..|keys| - 1]), keys[|keys| - 1])
  }

  // ----- public exports

  predicate KeyFollows(keys: seq<PublishedKey>, i: nat)
    requires 0 < i < |keys|
  {
    KeyOrder.KeyLess(keys[i - 1].keyId, keys[i].keyId)
  }

  /** By checkpoint, then by key. */
  predicate SignatureFollows(signatures: seq<Signature>, i: nat)
    requires 0 < i < |signatures|
  {
    var a, b := signatures[i - 1], signatures[i];
    a.checkpointSeq < b.checkpointSeq || (a.checkpointSeq == b.checkpointSeq && KeyOrder.KeyLess(a.keyId, b.keyId))
  }

  predicate BundleShape(b: Bundle) {
    && ProblemId(b.problem) && NonNegative(b.through)
    && |b.keys| <= 16 && (forall i :: 0 <= i < |b.keys| ==> PublishedKeyShape(b.keys[i]))
    && |b.signatures| <= 16 && (forall i :: 0 <= i < |b.signatures| ==> SignatureShape(b.signatures[i]))
    && (forall i, j :: 0 <= i < j < |b.signatures| ==> b.signatures[i].keyId != b.signatures[j].keyId)
    && (forall i :: 0 < i < |b.keys| ==> KeyFollows(b.keys, i))
    && (forall i :: 0 <= i < |b.signatures| ==>
          && b.signatures[i].checkpointSeq <= b.through
          && exists j :: 0 <= j < |b.keys| && b.keys[j].keyId == b.signatures[i].keyId)
    && (forall i :: 0 < i < |b.signatures| ==> SignatureFollows(b.signatures, i))
  }

  datatype PublicArchive = PublicArchive(archive: Archive, context: Context, bundle: Option<Bundle>, chainLines: seq<Line>)

  /** The event a map from sequence numbers would hold: the last one with that number. */
  function EventAt(events: seq<Event>, seq_: int): Option<Event> {
    if events == [] then None
    else if events[|events| - 1].seq_ == seq_ then Some(events[|events| - 1])
    else EventAt(events[..|events| - 1], seq_)
  }

  predicate NoticeAttached(n: Notice, events: seq<Event>) {
    var source := EventAt(events, n.seq_);
    source.Some? && source.value.envelope.eventId == n.eventId && source.value.payloadSha256 == n.payloadSha256
  }

  function ParsePublic(lines: seq<Line>): Option<PublicArchive> {
    if |lines| < 3 || !lines[0].PublicHeaderLine? || !lines[1].ContextLine? then None
    else
      var head, context := lines[0], lines[1].context;
      var bundle := head.bundle;
      if head.contextSha256 != context.sha256 || (bundle.Some? && !BundleShape(bundle.value)) then None
      else
        var chainLines := [HeaderLine(head.header)] + lines[2..];
        var archive :- ParseRange(chainLines, false);
        if context.problem != archive.header.problem || context.through != archive.finalCursor then None
        else if bundle.Some? && (bundle.value.problem != archive.header.problem
                                 || bundle.value.through != archive.finalCursor) then None
        else if exists i :: 0 <= i < |context.notices| && !NoticeAttached(context.notices[i], archive.events) then None
        else Some(PublicArchive(archive, context, bundle, chainLines))
  }

  /** The key a map from ids would hold. */
  function KeyOf(keys: seq<PublishedKey>, id: string): Option<string> {
    if keys == [] then None
    else if keys[|keys| - 1].keyId == id then Some(keys[|keys| - 1].publicKey)
    else KeyOf(keys[..|keys| - 1], id)
  }

  /** A bundle signature belongs to an exported checkpoint and event, and verifies. */
  predicate Attached(sha: Hash, verify: Verify, a: Archive, keys: seq<PublishedKey>, s: Signature) {
    && s.checkpointSeq >= 0
    && (exists i :: 0 <= i < |a.header.checkpoints| && a.header.checkpoints[i] ==
                    Checkpoint(a.header.problem, s.checkpointSeq, s.rootChainDigest, s.checkpointDigest))
    && EventAt(a.events, s.checkpointSeq).Some?
    && EventAt(a.events, s.checkpointSeq).value.chainDigest == s.rootChainDigest
    && s.checkpointDigest == sha(CheckpointRecord(a.header.problem, s.checkpointSeq, s.rootChainDigest))
    && KeyOf(keys, s.keyId).Some?
    && SignatureValid(verify, a.header.problem, s, KeyOf(keys, s.keyId).value)
  }

  predicate PinnedAs(trusted: map<string, string>, keys: seq<PublishedKey>, s: Signature) {
    s.keyId in trusted && KeyOf(keys, s.keyId) == Some(trusted[s.keyId])
  }

  function Max(a: int, b: int): int {
    if a < b then b else a
  }

  function SignedThrough(signatures: seq<Signature>): int {
    if signatures == [] then 0
    else Max(SignedThrough(signatures[..|signatures| - 1]), signatures[|signatures| - 1].checkpointSeq)
  }

  function TrustedThrough(trusted: map<string, string>, keys: seq<PublishedKey>, signatures: seq<Signature>): int {
    if signatures == [] then 0
    else
      var before, s := TrustedThrough(trusted, keys, signatures[..|signatures| - 1]), signatures[|signatures| - 1];
      if PinnedAs(trusted, keys, s) then Max(before, s.checkpointSeq) else before
  }

  function CoverageOf(through: int, last: int): Coverage {
    if through == 0 then NoCoverage else if through == last then CompleteCoverage else PrefixCoverage
  }

  /** The embedded signatures of a public export, checked against its chain. */
  function VerifyBundle(sha: Hash, verify: Verify, a: Archive, bundle: Bundle, keys: seq<KeyEntry>): Option<Assurance> {
    var pinning := PinKeys(keys);
    if pinning.failures != [] then None
    else if exists i :: 0 <= i < |bundle.signatures| &&
                        !Attached(sha, verify, a, bundle.keys, bundle.signatures[i]) then None
    else
      var signed := SignedThrough(bundle.signatures);
      var trusted := TrustedThrough(pinning.trusted, bundle.keys, bundle.signatures);
      Some(Assurance(if bundle.signatures == [] then None else Some(true), |bundle.signatures|, signed, trusted,
                     CoverageOf(signed, a.finalCursor), a.finalCursor > 0 && trusted == a.finalCursor))
  }

  function VerifyPublic(sha: Hash, verify: Verify, p: PublicArchive, keys: seq<KeyEntry>): Option<Assurance> {
    if sha(Raw("asimposium.publication-context.v1\n" + p.context.fields)) != p.context.sha256 then None
    else if VerifyRange(sha, p.chainLines, None, None).Broken? then None
    else
      var bundle := if p.bundle.Some? then p.bundle.value
                    else Bundle(p.archive.header.problem, p.archive.finalCursor, [], []);
      VerifyBundle(sha, verify, p.archive, bundle, keys)
  }

  // ----- what was read

  /** Both exact grammars are tried; the chain is verified on whichever was read. */
  datatype Reading = Reading(
    archive: Option<Archive>,
    public: Option<PublicArchive>,
    publicAssurance: Option<Assurance>,
    intact: bool,
    failures: seq<Failure>)

  function Read(sha: Hash, verify: Verify, lines: seq<Line>, keys: seq<KeyEntry>): Reading {
    var private := ParseRange(lines, false);
    var public := if private.Some? then None else ParsePublic(lines);
    var assurance := if public.Some? then VerifyPublic(sha, verify, public.value, keys) else None;
    var chainLines := if public.Some? then public.value.chainLines else lines;
    var intact := assurance.Some? || VerifyRange(sha, chainLines, None, None).Intact?;
    var archive := if private.Some? then private else if public.Some? then Some(public.value.archive) else None;
    Reading(archive, public, assurance, intact,
            (if intact then [] else [ChainBroken]) +
            (if public.Some? && assurance.None? && intact then [PublicExportBroken] else []))
  }

  function FormatOf(public: Option<PublicArchive>): Format {
    if public.None? then V3 else if public.value.bundle.Some? then V5 else V4
  }

  function ContextOf(r: Reading): Option<(string, nat)> {
    if r.publicAssurance.Some? && r.public.Some?
    then Some((r.public.value.context.sha256, |r.public.value.context.notices|)) else None
  }

  function Refused(problem: Option<string>, checkpoints: nat, failures: seq<Failure>): Verification {
    Verification(false, None, problem, checkpoints, 0, None, None, None, None, failures)
  }

  // ----- the embedded branch

  function DistinctSeqs(signatures: seq<Signature>): set<int> {
    set i | 0 <= i < |signatures| :: signatures[i].checkpointSeq
  }

  function EmbeddedFailures(r: Reading): seq<Failure> {
    if r.public.None? || r.public.value.bundle.None? then [SeparateFileRequired]
    else if r.publicAssurance.Some? && !r.publicAssurance.value.authenticated then [FinalEventNotPinned]
    else []
  }

  function EmbeddedVerdict(r: Reading): Verification
    requires r.archive.Some?
  {
    var failures := r.failures + EmbeddedFailures(r);
    var signed := if r.public.Some? && r.publicAssurance.Some? && r.public.value.bundle.Some?
                  then |DistinctSeqs(r.public.value.bundle.value.signatures)| else 0;
    Verification(failures == [], Some(FormatOf(r.public)), Some(r.archive.value.header.problem),
                 |r.archive.value.header.checkpoints|, signed, Some(r.intact),
                 Some(r.publicAssurance.Some? && r.publicAssurance.value.authenticated),
                 r.publicAssurance, ContextOf(r), failures)
  }

  // ----- the sidecar branch

  datatype Anchor = Anchor(root: string, digest: string)
  datatype Anchoring = Anchoring(anchors: map<int, Anchor>, invalid: bool, failures: seq<Failure>)

  function AddAnchor(verify: Verify, problem: string, trusted: map<string, string>, a: Anchoring, s: Signature): Anchoring {
    if s.keyId !in trusted then a
    else if SignatureValid(verify, problem, s, trusted[s.keyId]) then
      a.(anchors := a.anchors[s.checkpointSeq := Anchor(s.rootChainDigest, s.checkpointDigest)])
    else a.(invalid := true, failures := a.failures + [SignatureDoesNotVerify(s.checkpointSeq)])
  }

  function Anchors(verify: Verify, problem: string, trusted: map<string, string>, sigs: seq<Signature>): Anchoring {
    if sigs == [] then Anchoring(map[], false, [])
    else AddAnchor(verify, problem, trusted, Anchors(verify, problem, trusted, sigs[..|sigs| - 1]), sigs[|sigs| - 1])
  }

  const DIGEST_PREFIX := "sha256:"

  function Bare(digest: string): string {
    if DIGEST_PREFIX <= digest then digest[|DIGEST_PREFIX|..] else digest
  }

  datatype Matching = Matching(signed: nat, through: int, failures: seq<Failure>)

  function MatchEvent(anchors: map<int, Anchor>, m: Matching, e: Event): Matching {
    if e.seq_ !in anchors then m
    else if anchors[e.seq_].root != Bare(e.chainDigest) then m.(failures := m.failures + [DiffersFromSigned(e.seq_)])
    else Matching(m.signed + 1, Max(m.through, e.seq_), m.failures)
  }

  function MatchEvents(anchors: map<int, Anchor>, events: seq<Event>): Matching {
    if events == [] then Matching(0, 0, [])
    else MatchEvent(anchors, MatchEvents(anchors, events[..|events| - 1]), events[|events| - 1])
  }

  predicate Agrees(anchors: map<int, Anchor>, c: Checkpoint) {
    c.seq_ in anchors ==> anchors[c.seq_] == Anchor(Bare(c.root), Bare(c.digest))
  }

  function HeaderFailures(anchors: map<int, Anchor>, checkpoints: seq<Checkpoint>): seq<Failure> {
    if checkpoints == [] then []
    else
      var c := checkpoints[|checkpoints| - 1];
      HeaderFailures(anchors, checkpoints[..|checkpoints| - 1]) +
      (if Agrees(anchors, c) then [] else [HeaderDisagrees(c.seq_)])
  }

  function TailFailures(anchors: map<int, Anchor>, events: seq<Event>): seq<Failure> {
    if events == [] then if anchors == map[] then [] else [Truncated]
    else
      var last := events[|events| - 1].seq_;
      (if last in anchors then [] else [UnsignedTail(last)]) +
      (if exists s :: s in anchors && s > last then [Truncated] else [])
  }

  function When(condition: bool, failure: Failure): seq<Failure> {
    if condition then [failure] else []
  }

  function SidecarFailures(verify: Verify, r: Reading, face: Face, keys: seq<KeyEntry>): seq<Failure>
    requires r.archive.Some?
  {
    var archive, pinning := r.archive.value, PinKeys(keys);
    var anchoring := Anchors(verify, archive.header.problem, pinning.trusted, face.signatures);
    r.failures
    + When(face.problemId != archive.header.problem, ProblemMismatch)
    + pinning.failures + When(pinning.trusted == map[], NoTrustedKey)
    + anchoring.failures + When(archive.events == [], NoEvents)
    + MatchEvents(anchoring.anchors, archive.events).failures
    + TailFailures(anchoring.anchors, archive.events)
    + HeaderFailures(anchoring.anchors, archive.header.checkpoints)
  }

  function LastSeq(events: seq<Event>): Option<int> {
    if events == [] then None else Some(events[|events| - 1].seq_)
  }

  function SidecarVerdict(verify: Verify, r: Reading, face: Face, keys: seq<KeyEntry>): Verification
    requires r.archive.Some?
  {
    var archive, pinning := r.archive.value, PinKeys(keys);
    var anchoring := Anchors(verify, archive.header.problem, pinning.trusted, face.signatures);
    var matching := MatchEvents(anchoring.anchors, archive.events);
    var failures := SidecarFailures(verify, r, face, keys);
    var complete := Some(matching.through) == LastSeq(archive.events);
    var coverage := if matching.through == 0 then NoCoverage else if complete then CompleteCoverage else PrefixCoverage;
    var authenticated := failures == [] && matching.through > 0 && complete;
    Verification(failures == [], Some(FormatOf(r.public)), Some(archive.header.problem),
                 |archive.header.checkpoints|, matching.signed, Some(r.intact), Some(authenticated),
                 Some(Assurance(if anchoring.invalid then Some(false) else if anchoring.anchors == map[] then None else Some(true),
                                |anchoring.anchors|, matching.through, matching.through, coverage, authenticated)),
                 ContextOf(r), failures)
  }

  // ----- the whole verdict

  function Verdict(sha: Hash, verify: Verify, input: Input): Verification {
    if input.trustedKeys.None? then Refused(None, 0, [KeysNotAnArray])
    else
      var keys := input.trustedKeys.value;
      var r := Read(sha, verify, input.lines, keys);
      if r.archive.None? then Refused(None, 0, r.failures + [ExportUnreadable])
      else
        match input.sidecar
        case Absent => EmbeddedVerdict(r)
        case Malformed =>
          Refused(Some(r.archive.value.header.problem), |r.archive.value.header.checkpoints|, r.failures + [FaceMalformed])
        case Given(face) =>
          if FaceShape(face) then SidecarVerdict(verify, r, face, keys)
          else Refused(Some(r.archive.value.header.problem), |r.archive.value.header.checkpoints|, r.failures + [FaceMalformed])
  }
}
