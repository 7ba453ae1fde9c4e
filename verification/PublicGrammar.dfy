/**
 * The grammar of public exports as printing: an export parses exactly when it is the printed
 * form of an archive with its publication context and its bundle of checkpoint signatures.
 */
module PublicGrammar {
  import opened Wrappers
  import opened Digests
  import opened ChainVerifier
  import opened OfflineVerifier
  import opened RangeGrammar
  import KeyOrder

  // ----- signatures and keys

  /** A key id of one to sixty-four UTF-16 code units. */
  predicate NamesKey(id: string) {
    id != "" && |KeyOrder.Encode(id)| <= 64
  }

  predicate SignatureFits(s: Signature) {
    && 1 <= s.checkpointSeq && NamesKey(s.keyId)
    && Hex(s.rootChainDigest, 64) && Hex(s.checkpointDigest, 64) && Hex(s.signature, 128)
  }

  predicate KeyFits(k: PublishedKey) {
    NamesKey(k.keyId) && Hex(k.publicKey, 64)
  }

  lemma NamesKeyExactly(id: string)
    ensures Bounded(id, 1, 64) <==> NamesKey(id)
  {
    if id != "" {
      assert |KeyOrder.EncodeChar(id[0])| >= 1;
    }
  }

  lemma SignatureFitsExactly(s: Signature)
    ensures SignatureShape(s) <==> SignatureFits(s)
  {
    hide Hex, Bounded, NamesKey;
    NamesKeyExactly(s.keyId);
  }

  lemma KeyFitsExactly(k: PublishedKey)
    ensures PublishedKeyShape(k) <==> KeyFits(k)
  {
    hide Hex, Bounded, NamesKey;
    NamesKeyExactly(k.keyId);
  }

  /** A checkpoint face is in shape within these limits, whatever its order and repetitions. */
  lemma FaceFitsExactly(f: Face)
    ensures FaceShape(f) <==>
            && NamesKey(f.problemId) && f.unsigned >= 0
            && |f.keys| <= 16 && (forall i :: 0 <= i < |f.keys| ==> KeyFits(f.keys[i]))
            && |f.signatures| <= 500 && (forall i :: 0 <= i < |f.signatures| ==> SignatureFits(f.signatures[i]))
  {
    hide PublishedKeyShape, SignatureShape, KeyFits, SignatureFits, NamesKey, Bounded;
    NamesKeyExactly(f.problemId);
    forall i | 0 <= i < |f.keys| ensures PublishedKeyShape(f.keys[i]) <==> KeyFits(f.keys[i]) {
      KeyFitsExactly(f.keys[i]);
    }
    forall i | 0 <= i < |f.signatures| ensures SignatureShape(f.signatures[i]) <==> SignatureFits(f.signatures[i]) {
      SignatureFitsExactly(f.signatures[i]);
    }
  }

  // ----- the order of a bundle

  predicate EarlierSignature(a: Signature, b: Signature) {
    a.checkpointSeq < b.checkpointSeq || (a.checkpointSeq == b.checkpointSeq && KeyOrder.KeyLess(a.keyId, b.keyId))
  }

  /** Every key stands after all those before it. */
  predicate KeysInOrder(keys: seq<PublishedKey>) {
    forall i, j :: 0 <= i < j < |keys| ==> KeyOrder.KeyLess(keys[i].keyId, keys[j].keyId)
  }

  predicate SignaturesInOrder(signatures: seq<Signature>) {
    forall i, j :: 0 <= i < j < |signatures| ==> EarlierSignature(signatures[i], signatures[j])
  }

  lemma KeyLessTransitive(a: string, b: string, c: string)
    requires KeyOrder.KeyLess(a, b) && KeyOrder.KeyLess(b, c)
    ensures KeyOrder.KeyLess(a, c)
  {
    KeyOrder.UnitsLessTransitive(KeyOrder.Encode(a), KeyOrder.Encode(b), KeyOrder.Encode(c));
  }

  lemma {:induction false} KeysFollow(keys: seq<PublishedKey>, i: nat, j: nat)
    requires i < j < |keys| && forall k :: 0 < k < |keys| ==> KeyFollows(keys, k)
    ensures KeyOrder.KeyLess(keys[i].keyId, keys[j].keyId)
    decreases j
  {
    assert KeyFollows(keys, j);
    if i < j - 1 {
      KeysFollow(keys, i, j - 1);
      KeyLessTransitive(keys[i].keyId, keys[j - 1].keyId, keys[j].keyId);
    }
  }

  lemma {:induction false} SignaturesFollow(signatures: seq<Signature>, i: nat, j: nat)
    requires i < j < |signatures| && forall k :: 0 < k < |signatures| ==> SignatureFollows(signatures, k)
    ensures EarlierSignature(signatures[i], signatures[j])
    decreases j
  {
    hide KeyOrder.KeyLess;
    assert SignatureFollows(signatures, j);
    if i < j - 1 {
      SignaturesFollow(signatures, i, j - 1);
      if KeyOrder.KeyLess(signatures[i].keyId, signatures[j - 1].keyId)
         && KeyOrder.KeyLess(signatures[j - 1].keyId, signatures[j].keyId) {
        KeyLessTransitive(signatures[i].keyId, signatures[j - 1].keyId, signatures[j].keyId);
      }
    }
  }

  lemma KeysInOrderExactly(keys: seq<PublishedKey>)
    ensures (forall k :: 0 < k < |keys| ==> KeyFollows(keys, k)) <==> KeysInOrder(keys)
  {
    hide KeyOrder.KeyLess;
    if forall k :: 0 < k < |keys| ==> KeyFollows(keys, k) {
      forall i, j | 0 <= i < j < |keys| ensures KeyOrder.KeyLess(keys[i].keyId, keys[j].keyId) {
        KeysFollow(keys, i, j);
      }
    }
  }

  lemma SignaturesInOrderExactly(signatures: seq<Signature>)
    ensures (forall k :: 0 < k < |signatures| ==> SignatureFollows(signatures, k)) <==> SignaturesInOrder(signatures)
  {
    hide KeyOrder.KeyLess;
    if forall k :: 0 < k < |signatures| ==> SignatureFollows(signatures, k) {
      forall i, j | 0 <= i < j < |signatures| ensures EarlierSignature(signatures[i], signatures[j]) {
        SignaturesFollow(signatures, i, j);
      }
    }
    if SignaturesInOrder(signatures) {
      forall k | 0 < k < |signatures| ensures SignatureFollows(signatures, k) {
        assert EarlierSignature(signatures[k - 1], signatures[k]);
      }
    }
  }

  /** One of the keys signed, and not beyond the cut. */
  ghost predicate Bound(b: Bundle, s: Signature) {
    s.checkpointSeq <= b.through && exists k :: k in b.keys && k.keyId == s.keyId
  }

  /** At most sixteen keys and signatures, in order, one signature a key, none beyond the cut. */
  ghost predicate BundleFits(b: Bundle) {
    && ProblemId(b.problem) && Count(b.through)
    && |b.keys| <= 16 && (forall i :: 0 <= i < |b.keys| ==> KeyFits(b.keys[i])) && KeysInOrder(b.keys)
    && |b.signatures| <= 16 && (forall i :: 0 <= i < |b.signatures| ==> SignatureFits(b.signatures[i]))
    && SignaturesInOrder(b.signatures)
    && OneEach(b.signatures)
    && forall i :: 0 <= i < |b.signatures| ==> Bound(b, b.signatures[i])
  }

  /** The bound of each signature, by place or by member. */
  lemma BoundExactly(b: Bundle, s: Signature)
    ensures Bound(b, s) <==> s.checkpointSeq <= b.through && exists j :: 0 <= j < |b.keys| && b.keys[j].keyId == s.keyId
  {
    if k :| k in b.keys && k.keyId == s.keyId {
      var j :| 0 <= j < |b.keys| && b.keys[j] == k;
    }
    if j :| 0 <= j < |b.keys| && b.keys[j].keyId == s.keyId {
      assert b.keys[j] in b.keys;
    }
  }

  predicate OneEach(signatures: seq<Signature>) {
    forall i, j :: 0 <= i < |signatures| && 0 <= j < |signatures| && signatures[i].keyId == signatures[j].keyId ==> i == j
  }

  lemma OneEachExactly(signatures: seq<Signature>)
    ensures (forall i, j :: 0 <= i < j < |signatures| ==> signatures[i].keyId != signatures[j].keyId) <==> OneEach(signatures)
  {
  }

  lemma BundleFitsExactly(b: Bundle)
    ensures BundleShape(b) <==> BundleFits(b)
  {
    KeysInOrderExactly(b.keys);
    SignaturesInOrderExactly(b.signatures);
    OneEachExactly(b.signatures);
    hide OneEach, PublishedKeyShape, SignatureShape, KeyFits, SignatureFits, KeysInOrder, SignaturesInOrder, KeyFollows, SignatureFollows, ProblemId, Bound;
    forall i | 0 <= i < |b.keys| ensures PublishedKeyShape(b.keys[i]) <==> KeyFits(b.keys[i]) {
      KeyFitsExactly(b.keys[i]);
    }
    forall i | 0 <= i < |b.signatures|
      ensures SignatureShape(b.signatures[i]) <==> SignatureFits(b.signatures[i])
      ensures Bound(b, b.signatures[i]) <==>
              b.signatures[i].checkpointSeq <= b.through && exists j :: 0 <= j < |b.keys| && b.keys[j].keyId == b.signatures[i].keyId
    {
      SignatureFitsExactly(b.signatures[i]);
      BoundExactly(b, b.signatures[i]);
    }
    assert Count(b.through) == NonNegative(b.through);
    hide Count, NonNegative;
    if BundleFits(b) {
      assert forall i :: 0 <= i < |b.keys| ==> PublishedKeyShape(b.keys[i]);
      assert forall i :: 0 <= i < |b.signatures| ==> SignatureShape(b.signatures[i]);
      assert forall i :: 0 <= i < |b.signatures| ==>
               b.signatures[i].checkpointSeq <= b.through && exists j :: 0 <= j < |b.keys| && b.keys[j].keyId == b.signatures[i].keyId;
    }
  }

  // ----- the companion of the archive

  /** Event i is the last one with the number n. */
  predicate LastWith(events: seq<Event>, n: int, i: nat) {
    i < |events| && events[i].seq_ == n && forall j :: i < j < |events| ==> events[j].seq_ != n
  }

  /** The last of the events with the notice's number is the one the notice is about. */
  ghost predicate Concerns(n: Notice, events: seq<Event>) {
    exists i: nat :: LastWith(events, n.seq_, i)
                     && events[i].envelope.eventId == n.eventId && events[i].payloadSha256 == n.payloadSha256
  }

  lemma {:induction false} EventAtExactly(events: seq<Event>, n: int)
    ensures match EventAt(events, n)
            case None => forall i :: 0 <= i < |events| ==> events[i].seq_ != n
            case Some(e) => exists i: nat :: LastWith(events, n, i) && events[i] == e
  {
    if events != [] {
      var init, last := events[..|events| - 1], |events| - 1;
      EventAtExactly(init, n);
      if events[last].seq_ == n {
        assert LastWith(events, n, last);
      } else if EventAt(init, n).Some? {
        var i: nat :| LastWith(init, n, i) && init[i] == EventAt(init, n).value;
        assert LastWith(events, n, i) by {
          forall j | i < j < |events| ensures events[j].seq_ != n {
            assert j < last ==> init[j] == events[j];
          }
        }
        assert events[i] == EventAt(events, n).value;
      } else {
        forall i | 0 <= i < |events| ensures events[i].seq_ != n {
          assert i < last ==> init[i] == events[i];
        }
      }
    }
  }

  lemma OnlyLast(events: seq<Event>, n: int, i: nat, j: nat)
    requires LastWith(events, n, i) && LastWith(events, n, j)
    ensures i == j
  {
  }

  lemma ConcernsExactly(n: Notice, events: seq<Event>)
    ensures NoticeAttached(n, events) <==> Concerns(n, events)
  {
    EventAtExactly(events, n.seq_);
    if Concerns(n, events) {
      var i: nat :| LastWith(events, n.seq_, i)
                    && events[i].envelope.eventId == n.eventId && events[i].payloadSha256 == n.payloadSha256;
      assert EventAt(events, n.seq_).Some?;
      var j: nat :| LastWith(events, n.seq_, j) && events[j] == EventAt(events, n.seq_).value;
      OnlyLast(events, n.seq_, i, j);
    }
    hide EventAt;
  }

  function PublicPrinted(p: PublicArchive): seq<Line> {
    [PublicHeaderLine(p.archive.header, p.context.sha256, p.bundle), ContextLine(p.context)] + Printed(p.archive)[1..]
  }

  /** The context and the bundle are of the archive's own problem and cut. */
  ghost predicate PublicFits(p: PublicArchive) {
    && Fits(p.archive, false) && p.chainLines == Printed(p.archive)
    && p.context.problem == p.archive.header.problem && p.context.through == p.archive.finalCursor
    && (forall i :: 0 <= i < |p.context.notices| ==> Concerns(p.context.notices[i], p.archive.events))
    && (p.bundle.Some? ==>
          && BundleFits(p.bundle.value)
          && p.bundle.value.problem == p.archive.header.problem && p.bundle.value.through == p.archive.finalCursor)
  }

  lemma PublicParsed(lines: seq<Line>, p: PublicArchive)
    requires ParsePublic(lines) == Some(p)
    ensures lines == PublicPrinted(p) && PublicFits(p)
  {
    ParsedExactly(p.chainLines, false, p.archive);
    if p.bundle.Some? {
      BundleFitsExactly(p.bundle.value);
    }
    hide ParseRange, Fits, BundleShape, BundleFits, NoticeAttached, Concerns, Printed;
    forall i | 0 <= i < |p.context.notices| ensures Concerns(p.context.notices[i], p.archive.events) {
      assert NoticeAttached(p.context.notices[i], p.archive.events);
      ConcernsExactly(p.context.notices[i], p.archive.events);
    }
    HeaderPrinted(p.archive);
    assert p.chainLines == [HeaderLine(lines[0].header)] + lines[2..];
    assert lines[2..] == p.chainLines[1..] && lines[0].header == p.archive.header;
    assert lines == [lines[0], lines[1]] + lines[2..];
  }

  lemma HeaderPrinted(a: Archive)
    ensures |Printed(a)| >= 2 && Printed(a)[0] == HeaderLine(a.header)
    ensures Printed(a) == [HeaderLine(a.header)] + Printed(a)[1..]
  {
  }

  lemma PublicParses(p: PublicArchive)
    requires PublicFits(p)
    ensures ParsePublic(PublicPrinted(p)) == Some(p)
  {
    ParsedExactly(p.chainLines, false, p.archive);
    if p.bundle.Some? {
      BundleFitsExactly(p.bundle.value);
    }
    HeaderPrinted(p.archive);
    hide ParseRange, Fits, BundleShape, BundleFits, NoticeAttached, Concerns, Printed;
    forall i | 0 <= i < |p.context.notices| ensures NoticeAttached(p.context.notices[i], p.archive.events) {
      ConcernsExactly(p.context.notices[i], p.archive.events);
    }
    var lines := PublicPrinted(p);
    assert lines[2..] == p.chainLines[1..];
  }

  /** An export parses as a public one exactly when it is the printed form of what was parsed, in shape. */
  lemma PublicParsedExactly(lines: seq<Line>, p: PublicArchive)
    ensures ParsePublic(lines) == Some(p) <==> lines == PublicPrinted(p) && PublicFits(p)
  {
    hide ParsePublic, PublicPrinted, PublicFits;
    if ParsePublic(lines) == Some(p) {
      PublicParsed(lines, p);
    }
    if lines == PublicPrinted(p) && PublicFits(p) {
      PublicParses(p);
    }
  }
}
