/**
 * What a checkpoint signature covers (packages/contracts/src/ledger.ts): five lines that
 * can be told apart, and so what an accepted export or backup was signed for.
 */
module SignedMessages {
  import opened Wrappers
  import opened Digests
  import opened ChainVerifier
  import opened OfflineVerifier
  import opened OfflineTheorems
  import opened BackupAssembly
  import opened AssemblyTheorems
  import opened Decimals
  import Routes

  predicate OneLine(s: string) {
    '\n' !in s
  }

  // ----- numbers in decimal

  lemma IntTextOneLine(n: int)
    ensures OneLine(IntText(n)) && IntText(n) != ""
  {
    var digits := NatText(if n < 0 then -n else n);
    assert forall i :: 0 <= i < |digits| ==> digits[i] != '\n';
  }

  lemma IntTextInjective(a: int, b: int)
    requires IntText(a) == IntText(b)
    ensures a == b
  {
    var x, y := NatText(if a < 0 then -a else a), NatText(if b < 0 then -b else b);
    assert IsDigit(x[0]) && IsDigit(y[0]);
    if a < 0 && b < 0 {
      assert x == IntText(a)[1..] && y == IntText(b)[1..];
    }
  }

  /** A number is written with its decimal digits, no leading zero, and a minus sign if it is negative. */
  lemma IntTextExactly(n: int, s: string)
    ensures s == IntText(n) <==>
            var digits := if n < 0 then (if "-" <= s then s[1..] else "") else s;
            digits != "" && AllDigits(digits) && ValueOf(digits) == (if n < 0 then -n else n) && (|digits| > 1 ==> digits[0] != '0')
  {
    var digits := if n < 0 then (if "-" <= s then s[1..] else "") else s;
    NatTextExactly(if n < 0 then -n else n, digits);
    hide NatText, ValueOf;
    if n < 0 && "-" <= s {
      assert s == "-" + digits;
    }
  }

  // ----- the five lines

  /** The lines of a message, in order. */
  function MessageLines(problem: string, s: Signature): seq<string> {
    ["asimposium.checkpoint.v1", problem, IntText(s.checkpointSeq), s.rootChainDigest, s.checkpointDigest]
  }

  lemma SplitFive(a: string, b: string, c: string, d: string, e: string)
    requires OneLine(a) && OneLine(b) && OneLine(c) && OneLine(d) && OneLine(e)
    ensures Routes.Split(a + "\n" + b + "\n" + c + "\n" + d + "\n" + e, '\n') == [a, b, c, d, e]
  {
    hide Routes.Split;
    Routes.SplitWhole(e, '\n');
    Routes.SplitFirst(d, '\n', e);
    Routes.SplitFirst(c, '\n', d + ['\n'] + e);
    Routes.SplitFirst(b, '\n', c + ['\n'] + (d + ['\n'] + e));
    Routes.SplitFirst(a, '\n', b + ['\n'] + (c + ['\n'] + (d + ['\n'] + e)));
    assert a + "\n" + b + "\n" + c + "\n" + d + "\n" + e
        == a + ['\n'] + (b + ['\n'] + (c + ['\n'] + (d + ['\n'] + e)));
  }

  /** The message splits into the format, the problem, the number in decimal, the root and the digest. */
  lemma MessageSplits(problem: string, s: Signature)
    requires OneLine(problem) && OneLine(s.rootChainDigest) && OneLine(s.checkpointDigest)
    ensures Routes.Split(Message(problem, s), '\n') == MessageLines(problem, s)
  {
    IntTextOneLine(s.checkpointSeq);
    assert OneLine("asimposium.checkpoint.v1");
    SplitFive("asimposium.checkpoint.v1", problem, IntText(s.checkpointSeq), s.rootChainDigest, s.checkpointDigest);
    hide Routes.Split, IntText;
  }

  /** One message, one claim: the problem, the checkpoint, the root and the digest. */
  lemma MessageInjective(p: string, s: Signature, q: string, t: Signature)
    requires OneLine(p) && OneLine(s.rootChainDigest) && OneLine(s.checkpointDigest)
    requires OneLine(q) && OneLine(t.rootChainDigest) && OneLine(t.checkpointDigest)
    requires Message(p, s) == Message(q, t)
    ensures p == q && s.checkpointSeq == t.checkpointSeq
    ensures s.rootChainDigest == t.rootChainDigest && s.checkpointDigest == t.checkpointDigest
  {
    hide Message, IntText, Routes.Split;
    MessageSplits(p, s);
    MessageSplits(q, t);
    var l, r := MessageLines(p, s), MessageLines(q, t);
    assert l[1] == r[1] && l[2] == r[2] && l[3] == r[3] && l[4] == r[4];
    IntTextInjective(s.checkpointSeq, t.checkpointSeq);
  }

  lemma HexOneLine(s: string, n: nat)
    requires Hex(s, n)
    ensures OneLine(s)
  {
  }

  lemma ProblemOneLine(s: string)
    requires ProblemId(s)
    ensures OneLine(s)
  {
  }

  // ----- what was signed for an accepted export

  /** The key accepted a text over these five lines. */
  ghost predicate SignedFor(verify: Verify, publicKey: string, signature: string, lines: seq<string>) {
    exists text :: verify(publicKey, text, signature) && Routes.Split(text, '\n') == lines
  }

  lemma ValidSignedFor(verify: Verify, problem: string, s: Signature, publicKey: string)
    requires SignatureValid(verify, problem, s, publicKey)
    requires OneLine(problem) && OneLine(s.rootChainDigest) && OneLine(s.checkpointDigest)
    ensures SignedFor(verify, publicKey, s.signature, MessageLines(problem, s))
  {
    hide Routes.Split, Message, Hex;
    MessageSplits(problem, s);
    assert verify(publicKey, Message(problem, s), s.signature);
  }

  /** Some pinned key signed the five lines that name the last event. */
  ghost predicate FinalEventSigned(verify: Verify, a: Archive, keys: seq<KeyEntry>, s: Signature) {
    && a.events != [] && KeysGood(keys)
    && exists i :: 0 <= i < |keys| && keys[i].keyId == s.keyId &&
         SignedFor(verify, keys[i].publicKey, s.signature,
                   ["asimposium.checkpoint.v1", a.header.problem, IntText(|a.events|),
                    a.events[|a.events| - 1].chainDigest, s.checkpointDigest])
  }

  lemma PinnedKeyListed(keys: seq<KeyEntry>, id: string) returns (i: nat)
    requires KeysGood(keys) && id in PinKeys(keys).trusted
    ensures i < |keys| && keys[i].Key? && keys[i].keyId == id && keys[i].publicKey == PinKeys(keys).trusted[id]
  {
    hide PinKeys, KeyValid;
    PinKeysMeans(keys);
    i :| 0 <= i < |keys| && keys[i].Key? && keys[i].keyId == id;
  }

  lemma VerifiedFinalEventSigned(verify: Verify, a: Archive, keys: seq<KeyEntry>, s: Signature)
    requires KeysGood(keys) && PinsFinalEvent(verify, a, keys, s)
    requires OneLine(a.header.problem) && OneLine(s.rootChainDigest) && OneLine(s.checkpointDigest)
    ensures FinalEventSigned(verify, a, keys, s)
  {
    hide PinKeys, KeysGood, Message, Hex, IntText, SignedFor;
    var i := PinnedKeyListed(keys, s.keyId);
    ValidSignedFor(verify, a.header.problem, s, keys[i].publicKey);
  }

  lemma FaceOneLine(f: Face, s: Signature)
    requires FaceShape(f) && s in f.signatures
    ensures OneLine(s.rootChainDigest) && OneLine(s.checkpointDigest)
  {
    hide Bounded, PublishedKeyShape;
    var i :| 0 <= i < |f.signatures| && f.signatures[i] == s;
    HexOneLine(s.rootChainDigest, 64);
    HexOneLine(s.checkpointDigest, 64);
    hide Hex;
  }

  /** An anchored last event has a signature in the face that pins it. */
  lemma AnchoredFinalEvent(sha: Hash, verify: Verify, a: Archive, face: Face, keys: seq<KeyEntry>) returns (s: Signature)
    requires Authentic(sha, verify, a, face, keys)
    ensures s in face.signatures && PinsFinalEvent(verify, a, keys, s)
  {
    var trusted := PinKeys(keys).trusted;
    AnchorsMean(verify, face.problemId, trusted, face.signatures);
    LastDigestAnchored(sha, verify, a, face, keys);
    hide Integrity, Anchors, PinKeys, SignatureValid, EventsOk, EventsAgree, TailAnchored;
    s := LastVerified(verify, face.problemId, trusted, face.signatures, |a.events|).value;
  }

  /** With a sidecar, ok means that a pinned key signed a text naming the last event's number and chain digest. */
  lemma SidecarOkSigned(sha: Hash, verify: Verify, lines: seq<Line>, face: Face, keys: seq<KeyEntry>) returns (s: Signature)
    requires Verdict(sha, verify, Input(lines, Given(face), Some(keys))).ok
    ensures s in face.signatures
    ensures ArchiveOf(sha, verify, Input(lines, Given(face), Some(keys))).Some?
    ensures FinalEventSigned(verify, ArchiveOf(sha, verify, Input(lines, Given(face), Some(keys))).value, keys, s)
  {
    OkIsAuthentic(sha, verify, lines, face, keys);
    GivenOkMeans(sha, verify, lines, face, keys);
    var a := ArchiveOf(sha, verify, Input(lines, Given(face), Some(keys))).value;
    hide Verdict, Authentic, ArchiveOf, FaceShape, PinsFinalEvent, FinalEventSigned, ProblemId, KeysGood;
    s := AnchoredFinalEvent(sha, verify, a, face, keys);
    FaceOneLine(face, s);
    ProblemOneLine(a.header.problem);
    VerifiedFinalEventSigned(verify, a, keys, s);
  }

  lemma GivenOkMeans(sha: Hash, verify: Verify, lines: seq<Line>, face: Face, keys: seq<KeyEntry>)
    requires Verdict(sha, verify, Input(lines, Given(face), Some(keys))).ok
    ensures FaceShape(face) && KeysGood(keys)
    ensures ArchiveOf(sha, verify, Input(lines, Given(face), Some(keys))).Some?
    ensures ProblemId(ArchiveOf(sha, verify, Input(lines, Given(face), Some(keys))).value.header.problem)
  {
    hide Read, SidecarVerdict, FaceShape, EventsOk, Integrity, KeysGood, TitleOk, RealDate, ProblemId, EventsAgree, TailAnchored, HeaderAgrees, SignaturesVerify, PinKeys, Anchors;
    var r := Read(sha, verify, lines, keys);
    SidecarOkExactly(verify, r, face, keys);
    ReadingHasIntegrity(sha, verify, lines, keys);
  }

  /** Without one, it means the same of a signature the export carries. */
  lemma EmbeddedOkSigned(sha: Hash, verify: Verify, lines: seq<Line>, keys: seq<KeyEntry>) returns (s: Signature)
    requires Verdict(sha, verify, Input(lines, Absent, Some(keys))).ok
    ensures ArchiveOf(sha, verify, Input(lines, Absent, Some(keys))).Some?
    ensures FinalEventSigned(verify, ArchiveOf(sha, verify, Input(lines, Absent, Some(keys))).value, keys, s)
  {
    EmbeddedOkMeans(sha, verify, lines, keys);
    var r := Read(sha, verify, lines, keys);
    var a := r.archive.value;
    AbsentOkShapes(sha, verify, lines, keys);
    hide Read, Verdict, Integrity, PinsFinalEvent, FinalEventSigned, KeysGood, ProblemId, BundleShape;
    s :| s in r.public.value.bundle.value.signatures && PinsFinalEvent(verify, a, keys, s);
    BundleOneLine(r.public.value.bundle.value, s);
    ProblemOneLine(a.header.problem);
    VerifiedFinalEventSigned(verify, a, keys, s);
  }

  lemma BundleOneLine(b: Bundle, s: Signature)
    requires BundleShape(b) && s in b.signatures
    ensures OneLine(s.rootChainDigest) && OneLine(s.checkpointDigest)
  {
    var i :| 0 <= i < |b.signatures| && b.signatures[i] == s;
    assert SignatureShape(b.signatures[i]) by {
      hide SignatureShape, PublishedKeyShape, KeyFollows, SignatureFollows, ProblemId;
    }
    HexOneLine(s.rootChainDigest, 64);
    HexOneLine(s.checkpointDigest, 64);
    hide Hex, BundleShape;
  }

  lemma AbsentOkShapes(sha: Hash, verify: Verify, lines: seq<Line>, keys: seq<KeyEntry>)
    requires Verdict(sha, verify, Input(lines, Absent, Some(keys))).ok
    ensures var r := Read(sha, verify, lines, keys);
            && r.archive.Some? && ProblemId(r.archive.value.header.problem)
            && r.public.Some? && r.public.value.bundle.Some? && BundleShape(r.public.value.bundle.value)
  {
    EmbeddedOkMeans(sha, verify, lines, keys);
    ReadingHasIntegrity(sha, verify, lines, keys) by {
      hide Read, Integrity, EmbeddedFailures;
    }
    PublicShape(lines);
    hide ParseRange, ParsePublic, VerifyPublic, VerifyRange, Integrity, PinsFinalEvent, BundleShape, EventsOk, KeysGood, TitleOk, RealDate, ProblemId;
  }

  lemma PublicShape(lines: seq<Line>)
    ensures ParsePublic(lines).Some? && ParsePublic(lines).value.bundle.Some? ==> BundleShape(ParsePublic(lines).value.bundle.value)
  {
    hide ParseRange, BundleShape, NoticeAttached;
  }

  // ----- what was signed for a recovered backup

  /** A backup is assembled only under a key that signed a text naming the manifest's cursor and chain digest. */
  lemma AssembledSigned(sha: Hash, verify: Verify, m: Manifest, keys: seq<PublishedKey>, read: ReadSegment)
    requires Assemble(sha, verify, Some(m), keys, read).Ok?
    ensures exists k :: k in keys && k.keyId == m.signature.keyId &&
              SignedFor(verify, k.publicKey, m.signature.signature,
                        ["asimposium.checkpoint.v1", m.problem, IntText(m.cursor), m.chainDigest,
                         sha(CheckpointRecord(m.problem, m.cursor, m.chainDigest))])
  {
    var a, trusted := AssembledFrom(sha, verify, m, keys, read);
    ProblemOneLine(m.problem);
    ManifestOneLine(m);
    hide Assemble, ManifestOk, Joined, SignatureValid, FindKey, Message, SignedFor, IntText, TitleOk, RealDate, ProblemId, BackupFace;
    ValidSignedFor(verify, m.problem, m.signature, trusted.publicKey);
    FoundKeyListed(keys, m.signature.keyId);
    assert trusted in keys && trusted.keyId == m.signature.keyId;
  }

  lemma FoundKeyListed(keys: seq<PublishedKey>, id: string)
    requires FindKey(keys, id).Some?
    ensures FindKey(keys, id).value in keys && FindKey(keys, id).value.keyId == id
  {
  }

  lemma ManifestOneLine(m: Manifest)
    requires ManifestOk(m)
    ensures OneLine(m.signature.rootChainDigest) && OneLine(m.signature.checkpointDigest)
    ensures m.signature.checkpointSeq == m.cursor && m.signature.rootChainDigest == m.chainDigest
  {
    hide ManifestProblem, Bounded;
    HexOneLine(m.signature.rootChainDigest, 64);
    HexOneLine(m.signature.checkpointDigest, 64);
    hide Hex;
  }
}
