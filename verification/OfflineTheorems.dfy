/** What the offline verifier's verdict means, in both branches. */
module OfflineTheorems {
  import opened Wrappers
  import opened Digests
  import opened ChainVerifier
  import opened LedgerHistory
  import opened OfflineVerifier

  // ----- pinned keys

  /** Every key is valid, and no id is pinned to two keys. */
  predicate KeysGood(keys: seq<KeyEntry>) {
    && (forall i :: 0 <= i < |keys| ==> KeyValid(keys[i]))
    && (forall i, j :: 0 <= i < |keys| && 0 <= j < |keys| && keys[i].keyId == keys[j].keyId ==>
          keys[i].publicKey == keys[j].publicKey)
  }

  lemma KeysGoodInit(keys: seq<KeyEntry>)
    requires keys != []
    ensures var init, k := keys[..|keys| - 1], keys[|keys| - 1];
            KeysGood(keys) <==>
            && KeysGood(init) && KeyValid(k)
            && forall i :: 0 <= i < |init| && init[i].keyId == k.keyId ==> init[i].publicKey == k.publicKey
  {
    hide Hex, KeyIdChar;
    var init, k := keys[..|keys| - 1], keys[|keys| - 1];
    assert forall i :: 0 <= i < |init| ==> keys[i] == init[i];
    if KeysGood(init) && KeyValid(k) &&
       (forall i :: 0 <= i < |init| && init[i].keyId == k.keyId ==> init[i].publicKey == k.publicKey) {
      assert KeysGood(keys);
    }
  }

  /** The pinned keys are exactly those listed. */
  predicate Holds(trusted: map<string, string>, keys: seq<KeyEntry>) {
    && (forall i :: 0 <= i < |keys| ==> keys[i].Key? && keys[i].keyId in trusted && trusted[keys[i].keyId] == keys[i].publicKey)
    && (forall id :: id in trusted ==> exists i :: 0 <= i < |keys| && keys[i].Key? && keys[i].keyId == id)
  }

  lemma HoldsSnoc(trusted: map<string, string>, keys: seq<KeyEntry>, k: KeyEntry)
    requires Holds(trusted, keys) && KeyAccepted(trusted, k)
    ensures Holds(trusted[k.keyId := k.publicKey], keys + [k])
  {
    hide Hex, KeyIdChar;
    var more, all := trusted[k.keyId := k.publicKey], keys + [k];
    forall id | id in more ensures exists i :: 0 <= i < |all| && all[i].Key? && all[i].keyId == id {
      if id == k.keyId {
        assert all[|keys|].keyId == id;
      } else {
        var i :| 0 <= i < |keys| && keys[i].Key? && keys[i].keyId == id;
        assert all[i] == keys[i];
      }
    }
  }

  lemma AcceptedExactly(trusted: map<string, string>, keys: seq<KeyEntry>, k: KeyEntry)
    requires Holds(trusted, keys) && KeysGood(keys)
    ensures KeyAccepted(trusted, k) <==>
            KeyValid(k) && forall i :: 0 <= i < |keys| && keys[i].keyId == k.keyId ==> keys[i].publicKey == k.publicKey
  {
    hide Hex, KeyIdChar;
    if KeyValid(k) && k.keyId in trusted {
      var i :| 0 <= i < |keys| && keys[i].Key? && keys[i].keyId == k.keyId;
    }
  }

  /** Pinning reports nothing exactly for good keys, and then holds each of them. */
  lemma {:induction false} PinKeysMeans(keys: seq<KeyEntry>)
    ensures PinKeys(keys).failures == [] <==> KeysGood(keys)
    ensures KeysGood(keys) ==> Holds(PinKeys(keys).trusted, keys)
  {
    if keys != [] {
      hide KeyValid, KeyAccepted, KeysGood, Holds;
      var init, k := keys[..|keys| - 1], keys[|keys| - 1];
      assert keys == init + [k];
      PinKeysMeans(init);
      KeysGoodInit(keys);
      if KeysGood(init) {
        AcceptedExactly(PinKeys(init).trusted, init, k);
        if KeysGood(keys) {
          HoldsSnoc(PinKeys(init).trusted, init, k);
        }
      }
    }
  }

  // ----- anchors

  predicate Verifies(verify: Verify, problem: string, trusted: map<string, string>, s: Signature) {
    s.keyId in trusted && SignatureValid(verify, problem, s, trusted[s.keyId])
  }

  /** The last signature for a sequence number that verifies under a pinned key. */
  function LastVerified(verify: Verify, problem: string, trusted: map<string, string>, sigs: seq<Signature>, seq_: int)
    : (r: Option<Signature>)
    ensures match r
            case Some(s) => s in sigs && s.checkpointSeq == seq_ && Verifies(verify, problem, trusted, s)
            case None => forall i :: 0 <= i < |sigs| && sigs[i].checkpointSeq == seq_ ==> !Verifies(verify, problem, trusted, sigs[i])
  {
    if sigs == [] then None
    else if sigs[|sigs| - 1].checkpointSeq == seq_ && Verifies(verify, problem, trusted, sigs[|sigs| - 1])
    then Some(sigs[|sigs| - 1])
    else
      var r := LastVerified(verify, problem, trusted, sigs[..|sigs| - 1], seq_);
      assert sigs == sigs[..|sigs| - 1] + [sigs[|sigs| - 1]];
      r
  }

  predicate SignaturesVerify(verify: Verify, problem: string, trusted: map<string, string>, sigs: seq<Signature>) {
    forall i :: 0 <= i < |sigs| && sigs[i].keyId in trusted ==> Verifies(verify, problem, trusted, sigs[i])
  }

  /** An anchor is what the last verified signature for its sequence number says. */
  lemma {:induction false} AnchorsMean(verify: Verify, problem: string, trusted: map<string, string>, sigs: seq<Signature>)
    ensures var a := Anchors(verify, problem, trusted, sigs);
            && (forall n :: n in a.anchors <==> LastVerified(verify, problem, trusted, sigs, n).Some?)
            && (forall n :: n in a.anchors ==>
                  var s := LastVerified(verify, problem, trusted, sigs, n).value;
                  a.anchors[n] == Anchor(s.rootChainDigest, s.checkpointDigest))
            && (a.failures == [] <==> SignaturesVerify(verify, problem, trusted, sigs))
            && (a.invalid <==> a.failures != [])
  {
    hide SignatureValid;
    if sigs != [] {
      var init, s := sigs[..|sigs| - 1], sigs[|sigs| - 1];
      AnchorsMean(verify, problem, trusted, init);
      assert sigs == init + [s];
    }
  }

  /** The signatures under pinned keys, in order. */
  function UnderPinned(trusted: map<string, string>, sigs: seq<Signature>): seq<Signature> {
    if sigs == [] then []
    else
      var s := sigs[|sigs| - 1];
      UnderPinned(trusted, sigs[..|sigs| - 1]) + (if s.keyId in trusted then [s] else [])
  }

  /** Signatures under keys that are not pinned, however many and wherever they stand, change nothing. */
  lemma {:induction false} UnpinnedIgnored(verify: Verify, problem: string, trusted: map<string, string>, sigs: seq<Signature>)
    ensures Anchors(verify, problem, trusted, sigs) == Anchors(verify, problem, trusted, UnderPinned(trusted, sigs))
  {
    hide SignatureValid;
    if sigs != [] {
      var init, s := sigs[..|sigs| - 1], sigs[|sigs| - 1];
      UnpinnedIgnored(verify, problem, trusted, init);
      if s.keyId in trusted {
        assert UnderPinned(trusted, sigs)[..|UnderPinned(trusted, sigs)| - 1] == UnderPinned(trusted, init);
      } else {
        assert UnderPinned(trusted, sigs) == UnderPinned(trusted, init);
      }
    }
  }

  // ----- events against anchors

  lemma {:induction false} MatchEventsMeans(anchors: map<int, Anchor>, events: seq<Event>)
    ensures var m := MatchEvents(anchors, events);
            && (m.failures == [] <==>
                  forall i :: 0 <= i < |events| && events[i].seq_ in anchors ==>
                    anchors[events[i].seq_].root == Bare(events[i].chainDigest))
            && (m.through == 0 || exists i :: 0 <= i < |events| && events[i].seq_ == m.through)
            && (forall i :: (0 <= i < |events| && events[i].seq_ in anchors
                             && anchors[events[i].seq_].root == Bare(events[i].chainDigest)) ==> events[i].seq_ <= m.through)
  {
    hide Bare;
    if events != [] {
      var init, e := events[..|events| - 1], events[|events| - 1];
      MatchEventsMeans(anchors, init);
      assert events == init + [e];
      var m := MatchEvents(anchors, init);
      if m.through != 0 {
        var i :| 0 <= i < |init| && init[i].seq_ == m.through;
        assert events[i].seq_ == m.through;
      }
      assert events[|events| - 1].seq_ == e.seq_;
    }
  }

  lemma {:induction false} HeaderFailuresMean(anchors: map<int, Anchor>, checkpoints: seq<Checkpoint>)
    ensures HeaderFailures(anchors, checkpoints) == [] <==>
            forall i :: 0 <= i < |checkpoints| ==> Agrees(anchors, checkpoints[i])
  {
    hide Agrees;
    if checkpoints != [] {
      var init, c := checkpoints[..|checkpoints| - 1], checkpoints[|checkpoints| - 1];
      HeaderFailuresMean(anchors, init);
      assert checkpoints == init + [c];
    }
  }

  // ----- exactly when the sidecar branch accepts

  /** Every event that has an anchor has its chain digest. */
  predicate EventsAgree(anchors: map<int, Anchor>, events: seq<Event>) {
    forall i :: 0 <= i < |events| && events[i].seq_ in anchors ==>
      anchors[events[i].seq_].root == Bare(events[i].chainDigest)
  }

  /** There is a last event; it is anchored, and no anchor lies beyond it. */
  predicate TailAnchored(anchors: map<int, Anchor>, events: seq<Event>) {
    && events != []
    && events[|events| - 1].seq_ in anchors
    && forall n :: n in anchors ==> n <= events[|events| - 1].seq_
  }

  predicate HeaderAgrees(anchors: map<int, Anchor>, checkpoints: seq<Checkpoint>) {
    forall i :: 0 <= i < |checkpoints| ==> Agrees(anchors, checkpoints[i])
  }

  predicate SidecarAccepts(verify: Verify, r: Reading, face: Face, keys: seq<KeyEntry>)
    requires r.archive.Some?
  {
    var archive, trusted := r.archive.value, PinKeys(keys).trusted;
    var anchors := Anchors(verify, archive.header.problem, trusted, face.signatures).anchors;
    && r.failures == []
    && face.problemId == archive.header.problem
    && KeysGood(keys) && keys != []
    && SignaturesVerify(verify, archive.header.problem, trusted, face.signatures)
    && EventsAgree(anchors, archive.events)
    && TailAnchored(anchors, archive.events)
    && HeaderAgrees(anchors, archive.header.checkpoints)
  }

  lemma TailFailuresMean(anchors: map<int, Anchor>, events: seq<Event>)
    ensures events != [] && TailFailures(anchors, events) == [] <==> TailAnchored(anchors, events)
  {
  }

  lemma NonemptyPins(keys: seq<KeyEntry>)
    requires KeysGood(keys)
    ensures PinKeys(keys).trusted == map[] <==> keys == []
  {
    hide Hex, KeyIdChar, PinKeys;
    PinKeysMeans(keys);
    if keys != [] {
      assert keys[0].Key? && keys[0].keyId in PinKeys(keys).trusted;
    } else {
      assert PinKeys(keys).trusted.Keys == {};
    }
  }

  /** The verdict is ok exactly under the stated conditions. */
  lemma SidecarOkExactly(verify: Verify, r: Reading, face: Face, keys: seq<KeyEntry>)
    requires r.archive.Some?
    ensures SidecarVerdict(verify, r, face, keys).ok <==> SidecarAccepts(verify, r, face, keys)
  {
    hide PinKeys, Anchors, MatchEvents, HeaderFailures, TailFailures, KeysGood, SignaturesVerify, EventsAgree, TailAnchored, HeaderAgrees, ContextOf, FormatOf;
    var archive := r.archive.value;
    var anchoring := Anchors(verify, archive.header.problem, PinKeys(keys).trusted, face.signatures);
    PinKeysMeans(keys);
    if KeysGood(keys) {
      NonemptyPins(keys);
    }
    AnchorsMean(verify, archive.header.problem, PinKeys(keys).trusted, face.signatures);
    EventsAgreeMeans(anchoring.anchors, archive.events);
    TailFailuresMean(anchoring.anchors, archive.events);
    HeaderAgreesMeans(anchoring.anchors, archive.header.checkpoints);
  }

  lemma EventsAgreeMeans(anchors: map<int, Anchor>, events: seq<Event>)
    ensures MatchEvents(anchors, events).failures == [] <==> EventsAgree(anchors, events)
  {
    hide MatchEvents, Bare;
    MatchEventsMeans(anchors, events);
  }

  lemma HeaderAgreesMeans(anchors: map<int, Anchor>, checkpoints: seq<Checkpoint>)
    ensures HeaderFailures(anchors, checkpoints) == [] <==> HeaderAgrees(anchors, checkpoints)
  {
    hide HeaderFailures, Agrees;
    HeaderFailuresMean(anchors, checkpoints);
  }

  // ----- what an accepted reading is

  lemma PublicArchiveParsed(lines: seq<Line>)
    requires ParsePublic(lines).Some?
    ensures ParseRange(ParsePublic(lines).value.chainLines, false) == Some(ParsePublic(lines).value.archive)
  {
    hide ParseRange, BundleShape, NoticeAttached;
  }

  lemma VerifiedPublicIntact(sha: Hash, verify: Verify, p: PublicArchive, keys: seq<KeyEntry>)
    requires VerifyPublic(sha, verify, p, keys).Some?
    ensures VerifyRange(sha, p.chainLines, None, None).Intact?
  {
    hide VerifyRange, VerifyBundle;
  }

  /** A reading without failures carries an archive with full integrity from genesis. */
  lemma ReadingHasIntegrity(sha: Hash, verify: Verify, lines: seq<Line>, keys: seq<KeyEntry>)
    requires Read(sha, verify, lines, keys).failures == []
    requires Read(sha, verify, lines, keys).archive.Some?
    ensures Integrity(sha, Read(sha, verify, lines, keys).archive.value, None, None)
    ensures HeaderOk(Read(sha, verify, lines, keys).archive.value.header)
    ensures EventsOk(Read(sha, verify, lines, keys).archive.value.events)
  {
    hide ParseRange, ParsePublic, VerifyPublic, VerifyRange, Integrity, EventsOk, HeaderOk;
    var public := ParsePublic(lines);
    if ParseRange(lines, false).Some? {
      IntactExactly(sha, lines, None, None);
      ParsedShapes(lines, false);
    } else {
      PublicArchiveParsed(lines);
      if VerifyPublic(sha, verify, public.value, keys).Some? {
        VerifiedPublicIntact(sha, verify, public.value, keys);
      }
      IntactExactly(sha, public.value.chainLines, None, None);
      ParsedShapes(public.value.chainLines, false);
    }
  }

  predicate EventsOk(events: seq<Event>) {
    forall i :: 0 <= i < |events| ==> EventOk(events[i])
  }

  lemma ParsedShapes(lines: seq<Line>, segment: bool)
    requires ParseRange(lines, segment).Some?
    ensures HeaderOk(ParseRange(lines, segment).value.header)
    ensures EventsOk(ParseRange(lines, segment).value.events)
  {
    hide HeaderOk, EventOk;
  }

  lemma BareHex(digest: string)
    requires Hex64(digest)
    ensures Bare(digest) == digest
  {
    assert HexChar(digest[0]) && DIGEST_PREFIX[0] == 's';
  }

  lemma LinkedSeq(sha: Hash, problem: string, root: string, events: seq<Event>, i: nat)
    requires Linked(sha, problem, 0, root, events) && i < |events|
    ensures events[i].seq_ == i + 1
  {
    hide LinkOk;
    LinkSeq(sha, problem, PreviousDigest(root, events, i), i + 1, events[i]);
  }

  lemma GenesisEventSeq(sha: Hash, archive: Archive, i: nat)
    requires Integrity(sha, archive, None, None) && i < |archive.events|
    ensures archive.events[i].seq_ == i + 1
  {
    hide Linked, CheckpointsHold;
    LinkedSeq(sha, archive.header.problem, sha(GenesisRecord(archive.header.problem)), archive.events, i);
  }

  // ----- verdict soundness

  lemma SidecarAcceptedMeans(sha: Hash, verify: Verify, lines: seq<Line>, face: Face, keys: seq<KeyEntry>)
    requires Read(sha, verify, lines, keys).archive.Some?
    requires SidecarAccepts(verify, Read(sha, verify, lines, keys), face, keys)
    ensures var r := Read(sha, verify, lines, keys);
            var archive := r.archive.value;
            var a := Anchors(verify, archive.header.problem, PinKeys(keys).trusted, face.signatures);
            && r.intact && Integrity(sha, archive, None, None)
            && archive.events != [] && LastSeq(archive.events) == Some(|archive.events|)
            && MatchEvents(a.anchors, archive.events).through == |archive.events|
            && a.anchors != map[] && !a.invalid && a.failures == []
  {
    ReadIntact(sha, verify, lines, keys);
    hide Read, PinKeys, Anchors, MatchEvents, Integrity, KeysGood, SignaturesVerify, HeaderAgrees, EventsAgree;
    var archive := Read(sha, verify, lines, keys).archive.value;
    ReadingHasIntegrity(sha, verify, lines, keys);
    var trusted := PinKeys(keys).trusted;
    AnchorsMean(verify, archive.header.problem, trusted, face.signatures);
    MatchedThrough(sha, archive, Anchors(verify, archive.header.problem, trusted, face.signatures).anchors);
    GenesisEventSeq(sha, archive, |archive.events| - 1);
  }

  /** On the sidecar path, ok and authenticated are one claim, and it covers the last event. */
  lemma SidecarOkMeans(sha: Hash, verify: Verify, lines: seq<Line>, face: Face, keys: seq<KeyEntry>)
    requires Read(sha, verify, lines, keys).archive.Some?
    ensures var r := Read(sha, verify, lines, keys);
            var v := SidecarVerdict(verify, r, face, keys);
            && (v.ok <==> v.authenticated == Some(true))
            && (v.ok ==>
                  && v.failures == [] && r.archive.value.events != []
                  && v.assurance.Some? && v.assurance.value.signaturesValid == Some(true)
                  && v.assurance.value.coverage == CompleteCoverage && v.assurance.value.authenticated
                  && v.assurance.value.trustedThrough == |r.archive.value.events|
                  && v.chainLinkageValid == Some(true)
                  && Integrity(sha, r.archive.value, None, None))
  {
    hide Read, PinKeys, Anchors, MatchEvents, SidecarFailures, Integrity, SidecarAccepts, ContextOf, FormatOf, LastSeq;
    var r := Read(sha, verify, lines, keys);
    SidecarOkExactly(verify, r, face, keys);
    if SidecarVerdict(verify, r, face, keys).ok {
      SidecarAcceptedMeans(sha, verify, lines, face, keys);
    }
  }

  lemma ReadIntact(sha: Hash, verify: Verify, lines: seq<Line>, keys: seq<KeyEntry>)
    requires Read(sha, verify, lines, keys).failures == []
    ensures Read(sha, verify, lines, keys).intact
  {
    hide ParseRange, ParsePublic, VerifyPublic, VerifyRange;
  }

  lemma MatchedThrough(sha: Hash, archive: Archive, anchors: map<int, Anchor>)
    requires Integrity(sha, archive, None, None)
    requires TailAnchored(anchors, archive.events) && EventsAgree(anchors, archive.events)
    ensures MatchEvents(anchors, archive.events).through == |archive.events|
  {
    hide MatchEvents, Bare, Integrity;
    MatchEventsMeans(anchors, archive.events);
    var n := |archive.events|;
    GenesisEventSeq(sha, archive, n - 1);
    var through := MatchEvents(anchors, archive.events).through;
    if through != 0 {
      var i :| 0 <= i < n && archive.events[i].seq_ == through;
      GenesisEventSeq(sha, archive, i);
    }
  }

  // ----- one sidecar admits one history

  function AnchorsOf(verify: Verify, face: Face, keys: seq<KeyEntry>): map<int, Anchor> {
    Anchors(verify, face.problemId, PinKeys(keys).trusted, face.signatures).anchors
  }

  /** An archive that the sidecar accepts, without the text it was read from. */
  predicate Authentic(sha: Hash, verify: Verify, archive: Archive, face: Face, keys: seq<KeyEntry>) {
    && Integrity(sha, archive, None, None) && EventsOk(archive.events)
    && archive.header.problem == face.problemId
    && EventsAgree(AnchorsOf(verify, face, keys), archive.events)
    && TailAnchored(AnchorsOf(verify, face, keys), archive.events)
  }

  /** The archive a verdict was about. */
  function ArchiveOf(sha: Hash, verify: Verify, input: Input): Option<Archive> {
    if input.trustedKeys.None? then None else Read(sha, verify, input.lines, input.trustedKeys.value).archive
  }

  lemma OkIsAuthentic(sha: Hash, verify: Verify, lines: seq<Line>, face: Face, keys: seq<KeyEntry>)
    requires Verdict(sha, verify, Input(lines, Given(face), Some(keys))).ok
    ensures ArchiveOf(sha, verify, Input(lines, Given(face), Some(keys))).Some?
    ensures Authentic(sha, verify, ArchiveOf(sha, verify, Input(lines, Given(face), Some(keys))).value, face, keys)
  {
    hide Read, SidecarVerdict, EventsAgree, TailAnchored, EventsOk, Integrity, Anchors, PinKeys, HeaderAgrees, SignaturesVerify, KeysGood;
    var r := Read(sha, verify, lines, keys);
    SidecarOkExactly(verify, r, face, keys);
    ReadingHasIntegrity(sha, verify, lines, keys);
  }

  /** The number of the last event is fixed by the anchors alone. */
  lemma AuthenticLength(sha: Hash, verify: Verify, a: Archive, b: Archive, face: Face, keys: seq<KeyEntry>)
    requires Authentic(sha, verify, a, face, keys) && Authentic(sha, verify, b, face, keys)
    ensures |a.events| == |b.events|
  {
    hide Integrity, EventsOk, EventsAgree, AnchorsOf;
    GenesisEventSeq(sha, a, |a.events| - 1);
    GenesisEventSeq(sha, b, |b.events| - 1);
  }

  lemma LastDigestAnchored(sha: Hash, verify: Verify, a: Archive, face: Face, keys: seq<KeyEntry>)
    requires Authentic(sha, verify, a, face, keys)
    ensures a.events != [] && |a.events| in AnchorsOf(verify, face, keys)
    ensures a.events[|a.events| - 1].chainDigest == AnchorsOf(verify, face, keys)[|a.events|].root
  {
    hide Integrity, AnchorsOf;
    var e := a.events[|a.events| - 1];
    GenesisEventSeq(sha, a, |a.events| - 1);
    BareHex(e.chainDigest);
  }

  lemma IntegrityLinked(sha: Hash, a: Archive)
    requires Integrity(sha, a, None, None)
    ensures Linked(sha, a.header.problem, 0, sha(GenesisRecord(a.header.problem)), a.events)
  {
    hide Linked, CheckpointsHold;
  }

  /** Two archives that one sidecar and one set of pinned keys accept are one history. */
  lemma AuthenticOneHistory(sha: Hash, verify: Verify, a: Archive, b: Archive, face: Face, keys: seq<KeyEntry>)
    requires Authentic(sha, verify, a, face, keys) && Authentic(sha, verify, b, face, keys)
    ensures |a.events| == |b.events|
    ensures match FindCollision(face.problemId, 0, sha(GenesisRecord(face.problemId)), a.events, b.events)
            case Some(c) => Collides(sha, c)
            case None => a.events == b.events
  {
    hide Linked, Integrity, EventsOk, EventsAgree, TailAnchored, AnchorsOf, FindCollision;
    AuthenticLength(sha, verify, a, b, face, keys);
    LastDigestAnchored(sha, verify, a, face, keys);
    LastDigestAnchored(sha, verify, b, face, keys);
    IntegrityLinked(sha, a);
    IntegrityLinked(sha, b);
    OneHistory(sha, face.problemId, 0, sha(GenesisRecord(face.problemId)), a.events, b.events);
  }

  /** One sidecar admits one history: equal events, or two texts with one SHA-256. */
  lemma OneSidecarOneHistory(sha: Hash, verify: Verify, x: seq<Line>, y: seq<Line>, face: Face, keys: seq<KeyEntry>)
    requires Verdict(sha, verify, Input(x, Given(face), Some(keys))).ok
    requires Verdict(sha, verify, Input(y, Given(face), Some(keys))).ok
    ensures var a := ArchiveOf(sha, verify, Input(x, Given(face), Some(keys)));
            var b := ArchiveOf(sha, verify, Input(y, Given(face), Some(keys)));
            && a.Some? && b.Some?
            && |a.value.events| == |b.value.events|
            && match FindCollision(face.problemId, 0, sha(GenesisRecord(face.problemId)), a.value.events, b.value.events)
               case Some(c) => Collides(sha, c)
               case None => a.value.events == b.value.events
  {
    hide Verdict, Authentic, FindCollision, ArchiveOf;
    OkIsAuthentic(sha, verify, x, face, keys);
    OkIsAuthentic(sha, verify, y, face, keys);
    AuthenticOneHistory(sha, verify, ArchiveOf(sha, verify, Input(x, Given(face), Some(keys))).value,
                        ArchiveOf(sha, verify, Input(y, Given(face), Some(keys))).value, face, keys);
  }

  /** A truncated or extended copy of an accepted export is refused, whatever the hash does. */
  lemma PrefixAndExtensionRefused(sha: Hash, verify: Verify, x: seq<Line>, y: seq<Line>, face: Face, keys: seq<KeyEntry>)
    requires Verdict(sha, verify, Input(x, Given(face), Some(keys))).ok
    requires ArchiveOf(sha, verify, Input(x, Given(face), Some(keys))).Some?
    requires ArchiveOf(sha, verify, Input(y, Given(face), Some(keys))).Some?
    requires var a := ArchiveOf(sha, verify, Input(x, Given(face), Some(keys))).value.events;
             var b := ArchiveOf(sha, verify, Input(y, Given(face), Some(keys))).value.events;
             b < a || a < b
    ensures !Verdict(sha, verify, Input(y, Given(face), Some(keys))).ok
  {
    hide Verdict, Authentic, FindCollision, ArchiveOf;
    OkIsAuthentic(sha, verify, x, face, keys);
    if Verdict(sha, verify, Input(y, Given(face), Some(keys))).ok {
      OkIsAuthentic(sha, verify, y, face, keys);
      AuthenticLength(sha, verify, ArchiveOf(sha, verify, Input(x, Given(face), Some(keys))).value,
                      ArchiveOf(sha, verify, Input(y, Given(face), Some(keys))).value, face, keys);
    }
  }

  /**
   * Two faces for one problem that agree on the signatures under pinned keys, and differ in any
   * number of others, have one verdict in every field.
   */
  lemma UnpinnedSignaturesIgnored(sha: Hash, verify: Verify, lines: seq<Line>, face: Face, other: Face, keys: seq<KeyEntry>)
    requires FaceShape(face) && FaceShape(other) && face.problemId == other.problemId
    requires UnderPinned(PinKeys(keys).trusted, face.signatures) == UnderPinned(PinKeys(keys).trusted, other.signatures)
    ensures Verdict(sha, verify, Input(lines, Given(face), Some(keys))) ==
            Verdict(sha, verify, Input(lines, Given(other), Some(keys)))
  {
    hide Read, PinKeys, Anchors, FaceShape, MatchEvents, TailFailures, HeaderFailures, UnderPinned;
    var r := Read(sha, verify, lines, keys);
    if r.archive.Some? {
      UnpinnedIgnored(verify, r.archive.value.header.problem, PinKeys(keys).trusted, face.signatures);
      UnpinnedIgnored(verify, r.archive.value.header.problem, PinKeys(keys).trusted, other.signatures);
    }
  }

  // ----- the embedded branch

  /** The greatest checkpoint of a signature under a key pinned as published, or 0. */
  lemma {:induction false} TrustedThroughMeans(trusted: map<string, string>, keys: seq<PublishedKey>, sigs: seq<Signature>)
    ensures var through := TrustedThrough(trusted, keys, sigs);
            && through >= 0
            && (through == 0 || exists i :: 0 <= i < |sigs| && PinnedAs(trusted, keys, sigs[i]) && sigs[i].checkpointSeq == through)
            && forall i :: 0 <= i < |sigs| && PinnedAs(trusted, keys, sigs[i]) ==> sigs[i].checkpointSeq <= through
  {
    hide PinnedAs;
    if sigs != [] {
      var init := sigs[..|sigs| - 1];
      TrustedThroughMeans(trusted, keys, init);
      if TrustedThrough(trusted, keys, init) != 0 {
        var i :| 0 <= i < |init| && PinnedAs(trusted, keys, init[i])
                 && init[i].checkpointSeq == TrustedThrough(trusted, keys, init);
        assert sigs[i] == init[i];
      }
      assert sigs[|sigs| - 1] == sigs[|sigs| - 1];
      assert forall i :: 0 <= i < |init| ==> init[i] == sigs[i];
    }
  }

  /** A signature over the last event's chain digest, under a key the caller pinned. */
  predicate PinsFinalEvent(verify: Verify, a: Archive, keys: seq<KeyEntry>, s: Signature) {
    && a.events != [] && s.checkpointSeq == |a.events|
    && s.rootChainDigest == a.events[|a.events| - 1].chainDigest
    && Verifies(verify, a.header.problem, PinKeys(keys).trusted, s)
  }

  lemma {:induction false} EventAtGenesis(sha: Hash, a: Archive, n: nat)
    requires Integrity(sha, a, None, None) && 0 < n <= |a.events|
    ensures EventAt(a.events, n) == Some(a.events[n - 1])
  {
    hide Integrity;
    EventAtPrefix(sha, a, n, |a.events|);
    assert a.events[..|a.events|] == a.events;
  }

  lemma {:induction false} EventAtPrefix(sha: Hash, a: Archive, n: nat, m: nat)
    requires Integrity(sha, a, None, None) && 0 < n <= m <= |a.events|
    ensures EventAt(a.events[..m], n) == Some(a.events[n - 1])
    decreases m
  {
    hide Integrity;
    GenesisEventSeq(sha, a, m - 1);
    if n < m {
      assert a.events[..m][..m - 1] == a.events[..m - 1];
      EventAtPrefix(sha, a, n, m - 1);
    }
  }

  /** What an authenticated bundle establishes, signature by signature. */
  lemma BundleMeans(sha: Hash, verify: Verify, a: Archive, b: Bundle, keys: seq<KeyEntry>)
    requires VerifyBundle(sha, verify, a, b, keys).Some?
    ensures PinKeys(keys).failures == []
    ensures forall i :: 0 <= i < |b.signatures| ==> Attached(sha, verify, a, b.keys, b.signatures[i])
    ensures VerifyBundle(sha, verify, a, b, keys).value.authenticated ==>
              a.finalCursor > 0 && TrustedThrough(PinKeys(keys).trusted, b.keys, b.signatures) == a.finalCursor
  {
    hide PinKeys, Attached, TrustedThrough, SignedThrough;
  }

  lemma AttachedMeans(sha: Hash, verify: Verify, a: Archive, keys: seq<PublishedKey>, s: Signature)
    requires Attached(sha, verify, a, keys, s)
    ensures EventAt(a.events, s.checkpointSeq).Some?
    ensures EventAt(a.events, s.checkpointSeq).value.chainDigest == s.rootChainDigest
    ensures KeyOf(keys, s.keyId).Some? && SignatureValid(verify, a.header.problem, s, KeyOf(keys, s.keyId).value)
  {
    hide SignatureValid, KeyOf, EventAt;
  }

  lemma BundlePinsFinalEvent(sha: Hash, verify: Verify, a: Archive, b: Bundle, keys: seq<KeyEntry>)
    returns (s: Signature)
    requires Integrity(sha, a, None, None)
    requires VerifyBundle(sha, verify, a, b, keys).Some?
    requires VerifyBundle(sha, verify, a, b, keys).value.authenticated
    ensures s in b.signatures && PinsFinalEvent(verify, a, keys, s) && KeysGood(keys)
  {
    hide PinKeys, KeysGood, SignatureValid, KeyOf, EventAt, Integrity, VerifyBundle, Attached, TrustedThrough;
    PinKeysMeans(keys);
    BundleMeans(sha, verify, a, b, keys);
    FinalCursorMeans(sha, a);
    var trusted := PinKeys(keys).trusted;
    TrustedThroughMeans(trusted, b.keys, b.signatures);
    var i :| 0 <= i < |b.signatures| && PinnedAs(trusted, b.keys, b.signatures[i])
             && b.signatures[i].checkpointSeq == a.finalCursor;
    s := b.signatures[i];
    AttachedMeans(sha, verify, a, b.keys, s);
    EventAtGenesis(sha, a, |a.events|);
  }

  lemma FinalCursorMeans(sha: Hash, a: Archive)
    requires Integrity(sha, a, None, None)
    ensures a.finalCursor == |a.events|
  {
    hide Linked, CheckpointsHold;
  }

  /**
   * On the embedded path, ok means: a v5 export with full integrity, whose last event
   * carries an embedded signature that verifies under a key the caller pinned.
   */
  lemma EmbeddedOkMeans(sha: Hash, verify: Verify, lines: seq<Line>, keys: seq<KeyEntry>)
    requires Verdict(sha, verify, Input(lines, Absent, Some(keys))).ok
    ensures var r := Read(sha, verify, lines, keys);
            var v := Verdict(sha, verify, Input(lines, Absent, Some(keys)));
            && r.archive.Some? && r.public.Some? && r.public.value.bundle.Some?
            && v.format == Some(V5) && v.authenticated == Some(true) && v.chainLinkageValid == Some(true)
            && Integrity(sha, r.archive.value, None, None) && KeysGood(keys)
            && exists s :: s in r.public.value.bundle.value.signatures && PinsFinalEvent(verify, r.archive.value, keys, s)
  {
    hide Read, KeysGood, PinsFinalEvent, Integrity;
    var r := Read(sha, verify, lines, keys);
    ReadingHasIntegrity(sha, verify, lines, keys);
    ReadIntact(sha, verify, lines, keys);
    PublicReading(sha, verify, lines, keys);
    var s := PublicBundle(sha, verify, r.public.value, keys);
  }

  lemma PublicReading(sha: Hash, verify: Verify, lines: seq<Line>, keys: seq<KeyEntry>)
    requires Read(sha, verify, lines, keys).failures == [] && Read(sha, verify, lines, keys).public.Some?
    ensures var r := Read(sha, verify, lines, keys);
            && r.publicAssurance.Some?
            && VerifyPublic(sha, verify, r.public.value, keys) == r.publicAssurance
            && r.archive == Some(r.public.value.archive)
  {
    hide ParseRange, ParsePublic, VerifyPublic, VerifyRange;
  }

  lemma PublicBundle(sha: Hash, verify: Verify, p: PublicArchive, keys: seq<KeyEntry>) returns (s: Signature)
    requires p.bundle.Some? && Integrity(sha, p.archive, None, None)
    requires VerifyPublic(sha, verify, p, keys).Some? && VerifyPublic(sha, verify, p, keys).value.authenticated
    ensures s in p.bundle.value.signatures && PinsFinalEvent(verify, p.archive, keys, s) && KeysGood(keys)
  {
    hide VerifyRange, VerifyBundle, KeysGood, PinsFinalEvent, Integrity;
    s := BundlePinsFinalEvent(sha, verify, p.archive, p.bundle.value, keys);
  }

  // ----- exactly when the embedded branch accepts

  /** Good keys, signatures that all belong to the export, and one under a pinned key for the last event. */
  predicate BundleAccepts(sha: Hash, verify: Verify, a: Archive, b: Bundle, keys: seq<KeyEntry>) {
    && KeysGood(keys)
    && (forall i :: 0 <= i < |b.signatures| ==> Attached(sha, verify, a, b.keys, b.signatures[i]))
    && a.events != []
    && exists i :: 0 <= i < |b.signatures| && PinnedAs(PinKeys(keys).trusted, b.keys, b.signatures[i])
                   && b.signatures[i].checkpointSeq == |a.events|
  }

  lemma {:induction false} EventAtListed(events: seq<Event>, n: int)
    requires EventAt(events, n).Some?
    ensures exists i :: 0 <= i < |events| && events[i].seq_ == n
  {
    if events[|events| - 1].seq_ != n {
      EventAtListed(events[..|events| - 1], n);
      var i :| 0 <= i < |events| - 1 && events[..|events| - 1][i].seq_ == n;
      assert events[i].seq_ == n;
    }
  }

  lemma AttachedWithin(sha: Hash, verify: Verify, a: Archive, keys: seq<PublishedKey>, s: Signature)
    requires Integrity(sha, a, None, None) && Attached(sha, verify, a, keys, s)
    ensures s.checkpointSeq <= |a.events|
  {
    AttachedMeans(sha, verify, a, keys, s);
    hide Integrity, Attached;
    EventAtListed(a.events, s.checkpointSeq);
    var i :| 0 <= i < |a.events| && a.events[i].seq_ == s.checkpointSeq;
    GenesisEventSeq(sha, a, i);
  }

  lemma BundleVerifiedExactly(sha: Hash, verify: Verify, a: Archive, b: Bundle, keys: seq<KeyEntry>)
    ensures VerifyBundle(sha, verify, a, b, keys).Some? <==>
            && KeysGood(keys)
            && forall i :: 0 <= i < |b.signatures| ==> Attached(sha, verify, a, b.keys, b.signatures[i])
    ensures VerifyBundle(sha, verify, a, b, keys).Some? ==>
              (VerifyBundle(sha, verify, a, b, keys).value.authenticated <==>
               a.finalCursor > 0 && TrustedThrough(PinKeys(keys).trusted, b.keys, b.signatures) == a.finalCursor)
  {
    PinKeysMeans(keys);
    hide PinKeys, KeysGood, Attached, TrustedThrough, SignedThrough;
  }

  lemma BundleAuthenticatedExactly(sha: Hash, verify: Verify, a: Archive, b: Bundle, keys: seq<KeyEntry>)
    requires Integrity(sha, a, None, None)
    ensures VerifyBundle(sha, verify, a, b, keys).Some? && VerifyBundle(sha, verify, a, b, keys).value.authenticated <==>
            BundleAccepts(sha, verify, a, b, keys)
  {
    BundleVerifiedExactly(sha, verify, a, b, keys);
    FinalCursorMeans(sha, a);
    hide VerifyBundle, KeysGood, Integrity, Attached, PinnedAs, TrustedThrough, PinKeys;
    TrustedThroughMeans(PinKeys(keys).trusted, b.keys, b.signatures);
    forall i | 0 <= i < |b.signatures| && Attached(sha, verify, a, b.keys, b.signatures[i])
      ensures b.signatures[i].checkpointSeq <= |a.events|
    {
      AttachedWithin(sha, verify, a, b.keys, b.signatures[i]);
    }
  }

  /** What an export must be for the embedded branch to accept it. */
  predicate EmbeddedAccepts(sha: Hash, verify: Verify, lines: seq<Line>, keys: seq<KeyEntry>) {
    && ParseRange(lines, false).None? && ParsePublic(lines).Some?
    && var p := ParsePublic(lines).value;
       && p.bundle.Some?
       && sha(Raw("asimposium.publication-context.v1\n" + p.context.fields)) == p.context.sha256
       && Integrity(sha, p.archive, None, None)
       && BundleAccepts(sha, verify, p.archive, p.bundle.value, keys)
  }

  lemma PublicVerifiedExactly(sha: Hash, verify: Verify, p: PublicArchive, keys: seq<KeyEntry>)
    requires p.bundle.Some? && ParseRange(p.chainLines, false) == Some(p.archive)
    ensures VerifyPublic(sha, verify, p, keys).Some? && VerifyPublic(sha, verify, p, keys).value.authenticated <==>
            && sha(Raw("asimposium.publication-context.v1\n" + p.context.fields)) == p.context.sha256
            && Integrity(sha, p.archive, None, None)
            && BundleAccepts(sha, verify, p.archive, p.bundle.value, keys)
  {
    hide VerifyRange, VerifyBundle, Integrity, BundleAccepts, ParseRange;
    IntactExactly(sha, p.chainLines, None, None);
    if Integrity(sha, p.archive, None, None) {
      BundleAuthenticatedExactly(sha, verify, p.archive, p.bundle.value, keys);
    }
  }

  lemma EmbeddedReading(sha: Hash, verify: Verify, lines: seq<Line>, keys: seq<KeyEntry>)
    ensures Verdict(sha, verify, Input(lines, Absent, Some(keys))).ok <==>
            && ParseRange(lines, false).None? && ParsePublic(lines).Some? && ParsePublic(lines).value.bundle.Some?
            && VerifyPublic(sha, verify, ParsePublic(lines).value, keys).Some?
            && VerifyPublic(sha, verify, ParsePublic(lines).value, keys).value.authenticated
  {
    hide ParseRange, ParsePublic, VerifyPublic, VerifyRange;
  }

  /** Without a sidecar, the verdict is ok exactly under the stated conditions. */
  lemma EmbeddedOkExactly(sha: Hash, verify: Verify, lines: seq<Line>, keys: seq<KeyEntry>)
    ensures Verdict(sha, verify, Input(lines, Absent, Some(keys))).ok <==> EmbeddedAccepts(sha, verify, lines, keys)
  {
    EmbeddedReading(sha, verify, lines, keys);
    hide ParseRange, ParsePublic, VerifyPublic, Verdict, Integrity, BundleAccepts;
    if ParsePublic(lines).Some? {
      PublicArchiveParsed(lines);
      if ParsePublic(lines).value.bundle.Some? {
        PublicVerifiedExactly(sha, verify, ParsePublic(lines).value, keys);
      }
    }
  }
}
