/**
 * The whole verdict of the offline verifier, field by field and failure by failure: what is
 * reported, in which order, and what is said about signatures, for every input.
 */
module VerdictMeaning {
  import opened Wrappers
  import opened Digests
  import opened ChainVerifier
  import opened OfflineVerifier
  import opened OfflineTheorems
  import opened PublicGrammar
  import opened VerdictParts

  // ----- the signatures that a public export carries

  /** Entry i is the last one with the id. */
  predicate LastKey(keys: seq<PublishedKey>, id: string, i: nat) {
    i < |keys| && keys[i].keyId == id && forall j :: i < j < |keys| ==> keys[j].keyId != id
  }

  lemma {:induction false} KeyOfExactly(keys: seq<PublishedKey>, id: string)
    ensures match KeyOf(keys, id)
            case None => forall i :: 0 <= i < |keys| ==> keys[i].keyId != id
            case Some(publicKey) => exists i: nat :: LastKey(keys, id, i) && keys[i].publicKey == publicKey
  {
    if keys != [] {
      var init, last := keys[..|keys| - 1], |keys| - 1;
      KeyOfExactly(init, id);
      if keys[last].keyId == id {
        assert LastKey(keys, id, last);
      } else if KeyOf(init, id).Some? {
        var i: nat :| LastKey(init, id, i) && init[i].publicKey == KeyOf(init, id).value;
        assert forall j :: 0 <= j < last ==> init[j] == keys[j];
        assert LastKey(keys, id, i);
      } else {
        assert forall j :: 0 <= j < last ==> init[j] == keys[j];
      }
    }
  }

  /** The bundle publishes this key under the id. */
  ghost predicate Publishes(keys: seq<PublishedKey>, id: string, publicKey: string) {
    exists i: nat :: LastKey(keys, id, i) && keys[i].publicKey == publicKey
  }

  lemma PublishesExactly(keys: seq<PublishedKey>, id: string, publicKey: string)
    ensures Publishes(keys, id, publicKey) <==> KeyOf(keys, id) == Some(publicKey)
  {
    KeyOfExactly(keys, id);
    if i: nat :| LastKey(keys, id, i) && keys[i].publicKey == publicKey {
      if KeyOf(keys, id).Some? {
        var j: nat :| LastKey(keys, id, j) && keys[j].publicKey == KeyOf(keys, id).value;
        LastKeyOnce(keys, id, i, j);
      }
    }
    hide KeyOf;
  }

  lemma LastKeyOnce(keys: seq<PublishedKey>, id: string, i: nat, j: nat)
    requires LastKey(keys, id, i) && LastKey(keys, id, j)
    ensures i == j
  {
  }

  /** A signature of the bundle states an exported checkpoint and event, and verifies under the key published for it. */
  ghost predicate Belongs(sha: Hash, verify: Verify, a: Archive, keys: seq<PublishedKey>, s: Signature) {
    var problem := a.header.problem;
    && s.checkpointSeq >= 0
    && Checkpoint(problem, s.checkpointSeq, s.rootChainDigest, s.checkpointDigest) in a.header.checkpoints
    && (exists i: nat :: LastWith(a.events, s.checkpointSeq, i) && a.events[i].chainDigest == s.rootChainDigest)
    && s.checkpointDigest == sha(CheckpointRecord(problem, s.checkpointSeq, s.rootChainDigest))
    && exists publicKey :: Publishes(keys, s.keyId, publicKey) && Hex(publicKey, 64) && Hex(s.signature, 128)
                           && verify(publicKey, Message(problem, s), s.signature)
  }

  lemma EventsLast(events: seq<Event>, n: int, digest: string)
    ensures (exists i: nat :: LastWith(events, n, i) && events[i].chainDigest == digest) <==>
            EventAt(events, n).Some? && EventAt(events, n).value.chainDigest == digest
  {
    EventAtExactly(events, n);
    if i: nat :| LastWith(events, n, i) && events[i].chainDigest == digest {
      if EventAt(events, n).Some? {
        var j: nat :| LastWith(events, n, j) && events[j] == EventAt(events, n).value;
        OnlyLast(events, n, i, j);
      }
    }
    hide EventAt;
  }

  lemma BelongsExactly(sha: Hash, verify: Verify, a: Archive, keys: seq<PublishedKey>, s: Signature)
    ensures Attached(sha, verify, a, keys, s) <==> Belongs(sha, verify, a, keys, s)
  {
    hide EventAt, KeyOf, Message, Hex, Publishes, LastWith;
    EventsLast(a.events, s.checkpointSeq, s.rootChainDigest);
    forall publicKey ensures Publishes(keys, s.keyId, publicKey) <==> KeyOf(keys, s.keyId) == Some(publicKey) {
      PublishesExactly(keys, s.keyId, publicKey);
    }
  }

  // ----- what is said about them

  /** Published under the key that the caller pinned for the same id. */
  ghost predicate Trusted(pins: seq<KeyEntry>, keys: seq<PublishedKey>, s: Signature) {
    exists publicKey :: PinnedKey(pins, s.keyId, publicKey) && Publishes(keys, s.keyId, publicKey)
  }

  lemma TrustedExactly(pins: seq<KeyEntry>, keys: seq<PublishedKey>, s: Signature)
    ensures PinnedAs(PinKeys(pins).trusted, keys, s) <==> Trusted(pins, keys, s)
  {
    hide PinKeys, KeyOf, Publishes, PinnedKey, RejectedKeys;
    forall publicKey
      ensures PinnedKey(pins, s.keyId, publicKey) <==>
              s.keyId in PinKeys(pins).trusted && PinKeys(pins).trusted[s.keyId] == publicKey
      ensures Publishes(keys, s.keyId, publicKey) <==> KeyOf(keys, s.keyId) == Some(publicKey)
    {
      PinKeysExactly(pins, s.keyId, publicKey);
      PublishesExactly(keys, s.keyId, publicKey);
    }
  }

  /** The greatest checkpoint that is signed, or zero without signatures. */
  predicate SignedUpTo(sigs: seq<Signature>, n: int) {
    && n >= 0 && (n > 0 ==> exists i :: 0 <= i < |sigs| && sigs[i].checkpointSeq == n)
    && forall i :: 0 <= i < |sigs| ==> sigs[i].checkpointSeq <= n
  }

  ghost predicate TrustedUpTo(pins: seq<KeyEntry>, keys: seq<PublishedKey>, sigs: seq<Signature>, n: int) {
    && n >= 0 && (n > 0 ==> exists i :: 0 <= i < |sigs| && Trusted(pins, keys, sigs[i]) && sigs[i].checkpointSeq == n)
    && forall i :: 0 <= i < |sigs| && Trusted(pins, keys, sigs[i]) ==> sigs[i].checkpointSeq <= n
  }

  lemma {:induction false} SignedThroughMeans(sigs: seq<Signature>)
    ensures SignedUpTo(sigs, SignedThrough(sigs))
  {
    if sigs != [] {
      var init := sigs[..|sigs| - 1];
      SignedThroughMeans(init);
      assert forall i :: 0 <= i < |init| ==> init[i] == sigs[i];
      if SignedThrough(init) > 0 {
        var i :| 0 <= i < |init| && init[i].checkpointSeq == SignedThrough(init);
        assert sigs[i].checkpointSeq == SignedThrough(init);
      }
      assert sigs[|sigs| - 1].checkpointSeq <= SignedThrough(sigs);
    }
  }

  lemma TrustedUpToMeans(pins: seq<KeyEntry>, keys: seq<PublishedKey>, sigs: seq<Signature>)
    ensures TrustedUpTo(pins, keys, sigs, TrustedThrough(PinKeys(pins).trusted, keys, sigs))
  {
    hide TrustedThrough, PinKeys, PinnedAs, Trusted;
    TrustedThroughMeans(PinKeys(pins).trusted, keys, sigs);
    forall i | 0 <= i < |sigs| ensures PinnedAs(PinKeys(pins).trusted, keys, sigs[i]) <==> Trusted(pins, keys, sigs[i]) {
      TrustedExactly(pins, keys, sigs[i]);
    }
  }

  predicate Covers(coverage: Coverage, through: int, last: int) {
    match coverage
    case NoCoverage => through == 0
    case CompleteCoverage => through != 0 && through == last
    case PrefixCoverage => through != 0 && through != last
  }

  /** What the signatures of a bundle are said to establish. */
  ghost predicate Assures(v: Assurance, a: Archive, b: Bundle, pins: seq<KeyEntry>) {
    && v.signatureCount == |b.signatures|
    && v.signaturesValid == (if |b.signatures| == 0 then None else Some(true))
    && SignedUpTo(b.signatures, v.signedThrough) && TrustedUpTo(pins, b.keys, b.signatures, v.trustedThrough)
    && Covers(v.coverage, v.signedThrough, a.finalCursor)
    && (v.authenticated <==> a.finalCursor > 0 && v.trustedThrough == a.finalCursor)
  }

  /** A v4 export has no bundle: no keys and no signatures. */
  predicate BundleOf(p: PublicArchive, b: Bundle) {
    if p.bundle.Some? then p.bundle == Some(b) else b.keys == [] && b.signatures == []
  }

  /** The context's digest holds, the chain is whole, every pin is usable and every signature belongs. */
  ghost predicate Verifiable(sha: Hash, verify: Verify, p: PublicArchive, b: Bundle, pins: seq<KeyEntry>) {
    && p.context.sha256 == sha(Raw("asimposium.publication-context.v1\n" + p.context.fields))
    && Integrity(sha, p.archive, None, None)
    && (forall i :: 0 <= i < |pins| ==> !RejectedKey(pins, i))
    && forall i :: 0 <= i < |b.signatures| ==> Belongs(sha, verify, p.archive, b.keys, b.signatures[i])
  }

  lemma NoneRejected(pins: seq<KeyEntry>)
    ensures PinKeys(pins).failures == [] <==> forall i :: 0 <= i < |pins| ==> !RejectedKey(pins, i)
  {
    hide PinKeys, RejectedKey, PinnedKey;
    PinKeysExactly(pins, "", "");
    if forall i :: 0 <= i < |pins| ==> !RejectedKey(pins, i) {
      assert RejectedKeys(pins) == {};
    } else {
      var i :| 0 <= i < |pins| && RejectedKey(pins, i);
      assert i in RejectedKeys(pins);
    }
  }

  lemma BundleVerified(sha: Hash, verify: Verify, a: Archive, b: Bundle, pins: seq<KeyEntry>)
    ensures var v := VerifyBundle(sha, verify, a, b, pins);
            && (v.Some? <==>
                  && (forall i :: 0 <= i < |pins| ==> !RejectedKey(pins, i))
                  && forall i :: 0 <= i < |b.signatures| ==> Belongs(sha, verify, a, b.keys, b.signatures[i]))
            && (v.Some? ==> Assures(v.value, a, b, pins))
  {
    NoneRejected(pins);
    forall i | 0 <= i < |b.signatures|
      ensures Attached(sha, verify, a, b.keys, b.signatures[i]) <==> Belongs(sha, verify, a, b.keys, b.signatures[i])
    {
      BelongsExactly(sha, verify, a, b.keys, b.signatures[i]);
    }
    SignedThroughMeans(b.signatures);
    TrustedUpToMeans(pins, b.keys, b.signatures);
    hide PinKeys, RejectedKey, Attached, Belongs, SignedUpTo, TrustedUpTo, SignedThrough, TrustedThrough;
  }

  /** The verdict on a public export: there is one exactly when it is verifiable, and what it says. */
  lemma PublicVerified(sha: Hash, verify: Verify, p: PublicArchive, pins: seq<KeyEntry>) returns (b: Bundle)
    requires ParseRange(p.chainLines, false) == Some(p.archive)
    ensures BundleOf(p, b)
    ensures VerifyPublic(sha, verify, p, pins).Some? <==> Verifiable(sha, verify, p, b, pins)
    ensures VerifyPublic(sha, verify, p, pins).Some? ==> Assures(VerifyPublic(sha, verify, p, pins).value, p.archive, b, pins)
  {
    b := if p.bundle.Some? then p.bundle.value else Bundle(p.archive.header.problem, p.archive.finalCursor, [], []);
    IntactExactly(sha, p.chainLines, None, None);
    BundleVerified(sha, verify, p.archive, b, pins);
    hide VerifyRange, VerifyBundle, Integrity, RejectedKey, Belongs, Assures, ParseRange;
  }

  // ----- what was read

  /** The archive is the private one if the text is one, otherwise the public one's; and its chain is whole or is not. */
  ghost predicate ReadAs(sha: Hash, verify: Verify, lines: seq<Line>, pins: seq<KeyEntry>, r: Reading) {
    && r.public == (if ParseRange(lines, false).None? then ParsePublic(lines) else None)
    && r.archive == (if r.public.Some? then Some(r.public.value.archive) else ParseRange(lines, false))
    && (r.intact <==> r.archive.Some? && Integrity(sha, r.archive.value, None, None))
    && (if r.public.None? then r.publicAssurance.None?
        else
          exists b :: && BundleOf(r.public.value, b)
                      && (r.publicAssurance.Some? <==> Verifiable(sha, verify, r.public.value, b, pins))
                      && (r.publicAssurance.Some? ==> Assures(r.publicAssurance.value, r.public.value.archive, b, pins)))
    && r.failures ==
       (if !r.intact then [ChainBroken]
        else if r.public.Some? && r.publicAssurance.None? then [PublicExportBroken] else [])
  }

  lemma ReadExactly(sha: Hash, verify: Verify, lines: seq<Line>, pins: seq<KeyEntry>)
    ensures ReadAs(sha, verify, lines, pins, Read(sha, verify, lines, pins))
  {
    var public := ParsePublic(lines);
    if ParseRange(lines, false).None? && public.Some? {
      PublicArchiveParsed(lines);
      var b := PublicVerified(sha, verify, public.value, pins);
      IntactExactly(sha, public.value.chainLines, None, None);
      VerifiableIntact(sha, verify, public.value, b, pins);
      hide ParseRange, ParsePublic, VerifyPublic, VerifyRange, Integrity, Verifiable, Assures, BundleOf;
    } else {
      IntactExactly(sha, lines, None, None);
      hide ParseRange, ParsePublic, VerifyPublic, VerifyRange, Integrity, Verifiable, Assures, BundleOf;
    }
  }

  lemma VerifiableIntact(sha: Hash, verify: Verify, p: PublicArchive, b: Bundle, pins: seq<KeyEntry>)
    ensures Verifiable(sha, verify, p, b, pins) ==> Integrity(sha, p.archive, None, None)
  {
    hide Integrity, RejectedKey, Belongs;
  }

  // ----- without a checkpoint file

  /** Neither signatures nor a chain are judged. */
  predicate Turned(v: Verification, problem: Option<string>, checkpoints: nat, failures: seq<Failure>) {
    && !v.ok && v.format.None? && v.problem == problem && v.checkpoints == checkpoints && v.signed == 0
    && v.chainLinkageValid.None? && v.authenticated.None? && v.assurance.None? && v.context.None? && v.failures == failures
  }

  /** What both branches say of the export itself. */
  predicate Describes(r: Reading, v: Verification)
    requires r.archive.Some?
  {
    && (v.ok <==> v.failures == [])
    && v.format == Some(if r.public.None? then V3 else if r.public.value.bundle.None? then V4 else V5)
    && v.problem == Some(r.archive.value.header.problem)
    && v.checkpoints == |r.archive.value.header.checkpoints|
    && v.chainLinkageValid == Some(r.intact)
    && v.context == (if r.public.Some? && r.publicAssurance.Some?
                     then Some((r.public.value.context.sha256, |r.public.value.context.notices|)) else None)
  }

  predicate Embedded(r: Reading) {
    r.public.Some? && r.public.value.bundle.Some?
  }

  /** The judgement by the signatures that the export carries. */
  predicate SaysEmbedded(r: Reading, v: Verification)
    requires r.archive.Some?
  {
    && Describes(r, v)
    && v.assurance == r.publicAssurance
    && v.authenticated == Some(r.publicAssurance.Some? && r.publicAssurance.value.authenticated)
    && v.signed == (if Embedded(r) && r.publicAssurance.Some?
                    then |set s | s in r.public.value.bundle.value.signatures :: s.checkpointSeq| else 0)
    && v.failures == r.failures +
         (if !Embedded(r) then [SeparateFileRequired]
          else if r.publicAssurance.Some? && !r.publicAssurance.value.authenticated then [FinalEventNotPinned] else [])
  }

  lemma SeqsOf(signatures: seq<Signature>)
    ensures DistinctSeqs(signatures) == set s | s in signatures :: s.checkpointSeq
  {
    forall n ensures n in DistinctSeqs(signatures) <==> n in set s | s in signatures :: s.checkpointSeq {
      if s :| s in signatures && s.checkpointSeq == n {
        var i :| 0 <= i < |signatures| && signatures[i] == s;
      }
    }
  }

  lemma EmbeddedSays(r: Reading)
    requires r.archive.Some?
    ensures SaysEmbedded(r, EmbeddedVerdict(r))
  {
    if Embedded(r) {
      SeqsOf(r.public.value.bundle.value.signatures);
    }
    hide DistinctSeqs;
  }

  // ----- with a checkpoint file

  /** One report for each entry that is rejected. */
  predicate KeysReported(pins: seq<KeyEntry>, out: seq<Failure>) {
    |out| == |RejectedKeys(pins)| && forall k :: 0 <= k < |out| ==> out[k] == KeyInvalid
  }

  /** One report for each signature under a pinned key that does not verify, in their order. */
  predicate SignaturesNamed(verify: Verify, problem: string, trusted: map<string, string>, sigs: seq<Signature>, out: seq<Failure>) {
    var places := Places(BadSignatures(verify, problem, trusted, sigs), |sigs|);
    |out| == |places| && forall k :: 0 <= k < |out| ==> out[k] == SignatureDoesNotVerify(sigs[places[k]].checkpointSeq)
  }

  predicate EventsNamed(anchors: map<int, Anchor>, events: seq<Event>, out: seq<Failure>) {
    var places := Places(DifferingEvents(anchors, events), |events|);
    |out| == |places| && forall k :: 0 <= k < |out| ==> out[k] == DiffersFromSigned(events[places[k]].seq_)
  }

  predicate HeaderNamed(anchors: map<int, Anchor>, checkpoints: seq<Checkpoint>, out: seq<Failure>) {
    var places := Places(Disagreeing(anchors, checkpoints), |checkpoints|);
    |out| == |places| && forall k :: 0 <= k < |out| ==> out[k] == HeaderDisagrees(checkpoints[places[k]].seq_)
  }

  /** The last event is signed for, and nothing beyond it is. */
  predicate TailNamed(anchors: map<int, Anchor>, events: seq<Event>, out: seq<Failure>) {
    var unsigned := events != [] && events[|events| - 1].seq_ !in anchors;
    var beyond := exists n :: n in anchors && (events == [] || n > events[|events| - 1].seq_);
    out == (if unsigned then [UnsignedTail(events[|events| - 1].seq_)] else []) + (if beyond then [Truncated] else [])
  }

  /** All the reports, stage by stage. */
  ghost predicate Reports(verify: Verify, r: Reading, face: Face, pins: seq<KeyEntry>, out: seq<Failure>)
    requires r.archive.Some?
  {
    var archive, trusted := r.archive.value, PinKeys(pins).trusted;
    var anchors := Anchors(verify, archive.header.problem, trusted, face.signatures).anchors;
    exists keys, signatures, events, tail, header ::
      && KeysReported(pins, keys)
      && SignaturesNamed(verify, archive.header.problem, trusted, face.signatures, signatures)
      && EventsNamed(anchors, archive.events, events)
      && TailNamed(anchors, archive.events, tail)
      && HeaderNamed(anchors, archive.header.checkpoints, header)
      && out == r.failures
              + (if face.problemId == archive.header.problem then [] else [ProblemMismatch])
              + keys + (if forall i :: 0 <= i < |pins| ==> !FirstKey(pins, i) then [NoTrustedKey] else [])
              + signatures + (if |archive.events| == 0 then [NoEvents] else [])
              + events + tail + header
  }

  /** What is said of the signatures: how many events they match, how far, and whether one of them failed. */
  ghost predicate SaysSidecar(verify: Verify, r: Reading, face: Face, pins: seq<KeyEntry>, v: Verification)
    requires r.archive.Some?
  {
    var archive, trusted := r.archive.value, PinKeys(pins).trusted;
    var problem, events := archive.header.problem, archive.events;
    var anchors := Anchors(verify, problem, trusted, face.signatures).anchors;
    var seqs, bad := VerifiedSeqs(verify, problem, trusted, face.signatures), BadSignatures(verify, problem, trusted, face.signatures);
    && Describes(r, v) && Reports(verify, r, face, pins, v.failures)
    && v.signed == |MatchingEvents(anchors, events)|
    && v.assurance.Some?
    && var said := v.assurance.value;
       && said.signatureCount == |seqs|
       && said.signaturesValid == (if bad != {} then Some(false) else if seqs == {} then None else Some(true))
       && GreatestMatch(anchors, events, said.signedThrough) && said.trustedThrough == said.signedThrough
       && Covers(said.coverage, said.signedThrough, if events == [] then -1 else events[|events| - 1].seq_)
       && (said.authenticated <==>
             v.failures == [] && events != [] && said.signedThrough > 0 && said.signedThrough == events[|events| - 1].seq_)
       && v.authenticated == Some(said.authenticated)
  }

  lemma NoPins(pins: seq<KeyEntry>)
    ensures PinKeys(pins).trusted == map[] <==> forall i :: 0 <= i < |pins| ==> !FirstKey(pins, i)
  {
    PinKeysHold(pins);
    hide PinKeys, RejectedKeys;
    var trusted := PinKeys(pins).trusted;
    if trusted == map[] {
      assert forall i :: 0 <= i < |pins| && FirstKey(pins, i) ==> pins[i].keyId in trusted;
    } else {
      var id :| id in trusted;
    }
  }

  lemma TailSaid(anchors: map<int, Anchor>, events: seq<Event>)
    ensures TailNamed(anchors, events, TailFailures(anchors, events))
  {
    if events == [] && anchors != map[] {
      var n := Member(anchors.Keys);
    }
  }

  lemma SidecarReports(verify: Verify, r: Reading, face: Face, pins: seq<KeyEntry>)
    requires r.archive.Some?
    ensures Reports(verify, r, face, pins, SidecarFailures(verify, r, face, pins))
  {
    var archive, pinning := r.archive.value, PinKeys(pins);
    var anchoring := Anchors(verify, archive.header.problem, pinning.trusted, face.signatures);
    PinKeysHold(pins);
    NoPins(pins);
    SignaturesReported(verify, archive.header.problem, pinning.trusted, face.signatures);
    EventsReported(anchoring.anchors, archive.events);
    TailSaid(anchoring.anchors, archive.events);
    HeaderReported(anchoring.anchors, archive.header.checkpoints);
    hide PinKeys, Anchors, MatchEvents, TailFailures, HeaderFailures, TailNamed, RejectedKeys, FirstKey, BadSignatures, DifferingEvents, Disagreeing, HoldsPinned;
    assert KeysReported(pins, pinning.failures);
    assert SignaturesNamed(verify, archive.header.problem, pinning.trusted, face.signatures, anchoring.failures);
    assert EventsNamed(anchoring.anchors, archive.events, MatchEvents(anchoring.anchors, archive.events).failures);
    assert HeaderNamed(anchoring.anchors, archive.header.checkpoints, HeaderFailures(anchoring.anchors, archive.header.checkpoints));
    hide KeysReported, SignaturesNamed, EventsNamed, HeaderNamed;
  }

  lemma SomeBad(verify: Verify, problem: string, trusted: map<string, string>, sigs: seq<Signature>)
    ensures Anchors(verify, problem, trusted, sigs).invalid <==> BadSignatures(verify, problem, trusted, sigs) != {}
  {
    AnchorsMean(verify, problem, trusted, sigs);
    SignaturesReported(verify, problem, trusted, sigs);
    var bad := BadSignatures(verify, problem, trusted, sigs);
    if bad != {} {
      var p := Member(bad);
      PlacesHold(bad, |sigs|, p);
    }
    hide Anchors, SignatureValid, Places;
  }

  lemma AnchorsCounted(verify: Verify, problem: string, trusted: map<string, string>, sigs: seq<Signature>)
    ensures var anchors := Anchors(verify, problem, trusted, sigs).anchors;
            var seqs := VerifiedSeqs(verify, problem, trusted, sigs);
            |anchors| == |seqs| && (anchors == map[] <==> seqs == {})
  {
    AnchoredSeqs(verify, problem, trusted, sigs);
    hide Anchors, VerifiedSeqs;
    var anchors := Anchors(verify, problem, trusted, sigs).anchors;
    assert |anchors| == |anchors.Keys|;
    assert anchors == map[] <==> anchors.Keys == {};
  }

  lemma SidecarDescribes(verify: Verify, r: Reading, face: Face, pins: seq<KeyEntry>)
    requires r.archive.Some?
    ensures Describes(r, SidecarVerdict(verify, r, face, pins))
    ensures SidecarVerdict(verify, r, face, pins).failures == SidecarFailures(verify, r, face, pins)
  {
    hide PinKeys, Anchors, MatchEvents, SidecarFailures;
  }

  lemma SidecarSays(verify: Verify, r: Reading, face: Face, pins: seq<KeyEntry>)
    requires r.archive.Some?
    ensures SaysSidecar(verify, r, face, pins, SidecarVerdict(verify, r, face, pins))
  {
    var archive, trusted := r.archive.value, PinKeys(pins).trusted;
    var problem := archive.header.problem;
    var anchors := Anchors(verify, problem, trusted, face.signatures).anchors;
    SidecarReports(verify, r, face, pins);
    EventsMatched(anchors, archive.events);
    AnchorsCounted(verify, problem, trusted, face.signatures);
    SomeBad(verify, problem, trusted, face.signatures);
    SidecarDescribes(verify, r, face, pins);
    hide PinKeys, Anchors, MatchEvents, SidecarFailures, Reports, VerifiedSeqs, BadSignatures, GreatestMatch, MatchingEvents, Describes, FormatOf, ContextOf;
  }

  // ----- the verdict

  /** The answer once an archive was read, by the shape of the checkpoint file. */
  ghost predicate SaysOf(verify: Verify, r: Reading, sidecar: Sidecar, pins: seq<KeyEntry>, v: Verification)
    requires r.archive.Some?
  {
    match sidecar
    case Absent => SaysEmbedded(r, v)
    case Given(face) =>
      if FaceShape(face) then SaysSidecar(verify, r, face, pins, v)
      else Turned(v, Some(r.archive.value.header.problem), |r.archive.value.header.checkpoints|, r.failures + [FaceMalformed])
    case Malformed =>
      Turned(v, Some(r.archive.value.header.problem), |r.archive.value.header.checkpoints|, r.failures + [FaceMalformed])
  }

  /** Everything the verifier answers, by the shape of its three arguments. */
  ghost predicate Says(sha: Hash, verify: Verify, input: Input, v: Verification) {
    if input.trustedKeys.None? then Turned(v, None, 0, [KeysNotAnArray])
    else
      exists r ::
        && ReadAs(sha, verify, input.lines, input.trustedKeys.value, r)
        && if r.archive.None? then Turned(v, None, 0, [ChainBroken, ExportUnreadable])
           else SaysOf(verify, r, input.sidecar, input.trustedKeys.value, v)
  }

  lemma ArchiveSays(sha: Hash, verify: Verify, input: Input, r: Reading)
    requires input.trustedKeys.Some? && r == Read(sha, verify, input.lines, input.trustedKeys.value) && r.archive.Some?
    ensures SaysOf(verify, r, input.sidecar, input.trustedKeys.value, Verdict(sha, verify, input))
  {
    hide Read, EmbeddedVerdict, SidecarVerdict, SaysEmbedded, SaysSidecar, FaceShape;
    EmbeddedSays(r);
    if input.sidecar.Given? {
      SidecarSays(verify, r, input.sidecar.face, input.trustedKeys.value);
    }
  }

  lemma Unread(sha: Hash, verify: Verify, lines: seq<Line>, pins: seq<KeyEntry>, r: Reading)
    requires ReadAs(sha, verify, lines, pins, r) && r.archive.None?
    ensures r.failures + [ExportUnreadable] == [ChainBroken, ExportUnreadable]
  {
    hide Integrity, ParseRange, ParsePublic, Verifiable, Assures, BundleOf;
  }

  /** The verifier's answer, whatever it is given. */
  lemma VerdictSays(sha: Hash, verify: Verify, input: Input)
    ensures Says(sha, verify, input, Verdict(sha, verify, input))
  {
    if input.trustedKeys.Some? {
      var r := Read(sha, verify, input.lines, input.trustedKeys.value);
      ReadExactly(sha, verify, input.lines, input.trustedKeys.value);
      if r.archive.Some? {
        ArchiveSays(sha, verify, input, r);
        hide Verdict;
      } else {
        Unread(sha, verify, input.lines, input.trustedKeys.value, r);
      }
      hide Read, ReadAs, SaysOf;
    }
  }
}
