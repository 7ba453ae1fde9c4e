/** The loops of the offline verifier, against the folds that specify them. */
module OfflineLoops {
  import opened Wrappers
  import opened Digests
  import opened ChainVerifier
  import opened OfflineVerifier

  lemma Prefixes<T>(s: seq<T>, i: nat)
    requires i < |s|
    ensures s[..i + 1][..i] == s[..i] && s[..i + 1][i] == s[i]
  {
  }

  /** Each invalid or ambiguous key is reported; the others are pinned. */
  method PinAll(keys: seq<KeyEntry>) returns (trusted: map<string, string>, failures: seq<Failure>)
    ensures Pinning(trusted, failures) == PinKeys(keys)
  {
    trusted, failures := map[], [];
    for i := 0 to |keys|
      invariant Pinning(trusted, failures) == PinKeys(keys[..i])
    {
      Prefixes(keys, i);
      var key := keys[i];
      if !KeyAccepted(trusted, key) {
        failures := failures + [KeyInvalid];
        continue;
      }
      trusted := trusted[key.keyId := key.publicKey];
    }
    assert keys[..|keys|] == keys;
  }

  /** Signatures under unpinned keys are skipped; a later valid one replaces an earlier one. */
  method CollectAnchors(verify: Verify, problem: string, trusted: map<string, string>, sigs: seq<Signature>)
    returns (anchors: map<int, Anchor>, invalid: bool, failures: seq<Failure>)
    ensures Anchoring(anchors, invalid, failures) == Anchors(verify, problem, trusted, sigs)
  {
    hide SignatureValid;
    anchors, invalid, failures := map[], false, [];
    for i := 0 to |sigs|
      invariant Anchoring(anchors, invalid, failures) == Anchors(verify, problem, trusted, sigs[..i])
    {
      Prefixes(sigs, i);
      var s := sigs[i];
      if s.keyId !in trusted {
        continue;
      }
      if SignatureValid(verify, problem, s, trusted[s.keyId]) {
        anchors := anchors[s.checkpointSeq := Anchor(s.rootChainDigest, s.checkpointDigest)];
      } else {
        invalid := true;
        failures := failures + [SignatureDoesNotVerify(s.checkpointSeq)];
      }
    }
    assert sigs[..|sigs|] == sigs;
  }

  method MatchAll(anchors: map<int, Anchor>, events: seq<Event>)
    returns (signed: nat, through: int, failures: seq<Failure>)
    ensures Matching(signed, through, failures) == MatchEvents(anchors, events)
  {
    hide Bare;
    signed, through, failures := 0, 0, [];
    for i := 0 to |events|
      invariant Matching(signed, through, failures) == MatchEvents(anchors, events[..i])
    {
      Prefixes(events, i);
      var e := events[i];
      if e.seq_ !in anchors {
        continue;
      }
      if anchors[e.seq_].root != Bare(e.chainDigest) {
        failures := failures + [DiffersFromSigned(e.seq_)];
      } else {
        signed, through := signed + 1, Max(through, e.seq_);
      }
    }
    assert events[..|events|] == events;
  }

  method CompareHeader(anchors: map<int, Anchor>, checkpoints: seq<Checkpoint>) returns (failures: seq<Failure>)
    ensures failures == HeaderFailures(anchors, checkpoints)
  {
    hide Agrees;
    failures := [];
    for i := 0 to |checkpoints|
      invariant failures == HeaderFailures(anchors, checkpoints[..i])
    {
      Prefixes(checkpoints, i);
      if !Agrees(anchors, checkpoints[i]) {
        failures := failures + [HeaderDisagrees(checkpoints[i].seq_)];
      }
    }
    assert checkpoints[..|checkpoints|] == checkpoints;
  }

  /** The sidecar branch: failures are collected in the order the verifier meets them. */
  method VerifySidecar(verify: Verify, r: Reading, face: Face, keys: seq<KeyEntry>) returns (v: Verification)
    requires r.archive.Some?
    ensures v == SidecarVerdict(verify, r, face, keys)
  {
    hide PinKeys, Anchors, MatchEvents, HeaderFailures, TailFailures, When, FormatOf, ContextOf;
    var archive := r.archive.value;
    var failures := r.failures + When(face.problemId != archive.header.problem, ProblemMismatch);
    var trusted, keyFailures := PinAll(keys);
    failures := failures + keyFailures + When(trusted == map[], NoTrustedKey);
    var anchors, invalid, signatureFailures :=
      CollectAnchors(verify, archive.header.problem, trusted, face.signatures);
    var last := LastSeq(archive.events);
    failures := failures + signatureFailures + When(archive.events == [], NoEvents);
    var signed, through, eventFailures := MatchAll(anchors, archive.events);
    failures := failures + eventFailures + TailFailures(anchors, archive.events);
    var headerFailures := CompareHeader(anchors, archive.header.checkpoints);
    failures := failures + headerFailures;
    assert failures == SidecarFailures(verify, r, face, keys);
    var coverage := if through == 0 then NoCoverage else if Some(through) == last then CompleteCoverage else PrefixCoverage;
    var authenticated := failures == [] && through > 0 && Some(through) == last;
    v := Verification(failures == [], Some(FormatOf(r.public)), Some(archive.header.problem),
                      |archive.header.checkpoints|, signed, Some(r.intact), Some(authenticated),
                      Some(Assurance(if invalid then Some(false) else if anchors == map[] then None else Some(true),
                                     |anchors|, through, through, coverage, authenticated)),
                      ContextOf(r), failures);
  }

  method VerifyExportOffline(sha: Hash, verify: Verify, input: Input) returns (v: Verification)
    ensures v == Verdict(sha, verify, input)
  {
    hide Read, SidecarVerdict, EmbeddedVerdict, FaceShape;
    if input.trustedKeys.None? {
      return Refused(None, 0, [KeysNotAnArray]);
    }
    var keys := input.trustedKeys.value;
    var r := Read(sha, verify, input.lines, keys);
    if r.archive.None? {
      return Refused(None, 0, r.failures + [ExportUnreadable]);
    }
    var problem, checkpoints := r.archive.value.header.problem, |r.archive.value.header.checkpoints|;
    match input.sidecar {
      case Absent => v := EmbeddedVerdict(r);
      case Malformed => v := Refused(Some(problem), checkpoints, r.failures + [FaceMalformed]);
      case Given(face) =>
        if FaceShape(face) {
          v := VerifySidecar(verify, r, face, keys);
        } else {
          v := Refused(Some(problem), checkpoints, r.failures + [FaceMalformed]);
        }
    }
  }
}
