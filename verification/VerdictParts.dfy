/**
 * The offline verifier's accumulators, each said without accumulating: which key a pin is,
 * which signatures, events and header checkpoints are reported and in which order, and what
 * is counted.
 */
module VerdictParts {
  import opened Wrappers
  import opened Digests
  import opened ChainVerifier
  import opened OfflineVerifier
  import opened OfflineTheorems

  // ----- places in order

  /** The members of the set below n, in increasing order. */
  function Places(chosen: set<int>, n: nat): (places: seq<int>)
    ensures forall k :: 0 <= k < |places| ==> places[k] in chosen && 0 <= places[k] < n
  {
    if n == 0 then [] else Places(chosen, n - 1) + (if n - 1 in chosen then [n - 1] else [])
  }

  lemma {:induction false} PlacesRise(chosen: set<int>, n: nat)
    ensures forall i, j :: 0 <= i < j < |Places(chosen, n)| ==> Places(chosen, n)[i] < Places(chosen, n)[j]
  {
    if n > 0 {
      PlacesRise(chosen, n - 1);
      var before, all := Places(chosen, n - 1), Places(chosen, n);
      assert all == before || all == before + [n - 1];
    }
  }

  /** No member is left out. */
  lemma {:induction false} PlacesHold(chosen: set<int>, n: nat, p: nat)
    requires p < n && p in chosen
    ensures p in Places(chosen, n)
  {
    if p < n - 1 {
      PlacesHold(chosen, n - 1, p);
    }
  }

  lemma {:induction false} PlacesAlike(a: set<int>, b: set<int>, n: nat)
    requires forall p :: 0 <= p < n ==> (p in a <==> p in b)
    ensures Places(a, n) == Places(b, n)
  {
    if n > 0 {
      PlacesAlike(a, b, n - 1);
    }
  }

  lemma Member<T>(chosen: set<T>) returns (p: T)
    requires chosen != {}
    ensures p in chosen
  {
    p :| p in chosen;
  }

  // ----- pinned keys

  /** The first usable entry for its id. */
  predicate FirstKey(keys: seq<KeyEntry>, i: int) {
    0 <= i < |keys| && KeyValid(keys[i]) && forall j :: 0 <= j < i && KeyValid(keys[j]) ==> keys[j].keyId != keys[i].keyId
  }

  /** Unusable, or another key than the one pinned under its id. */
  predicate RejectedKey(keys: seq<KeyEntry>, i: int) {
    0 <= i < |keys| &&
    (KeyValid(keys[i]) ==>
       exists j :: 0 <= j < i && FirstKey(keys, j) && keys[j].keyId == keys[i].keyId && keys[j].publicKey != keys[i].publicKey)
  }

  /** The caller pinned this public key under the id. */
  predicate PinnedKey(keys: seq<KeyEntry>, id: string, publicKey: string) {
    exists i :: 0 <= i < |keys| && FirstKey(keys, i) && keys[i].keyId == id && keys[i].publicKey == publicKey
  }

  function RejectedKeys(keys: seq<KeyEntry>): set<int> {
    set i | 0 <= i < |keys| && RejectedKey(keys, i)
  }

  lemma KeysInit(keys: seq<KeyEntry>, i: int)
    requires keys != [] && i < |keys| - 1
    ensures FirstKey(keys[..|keys| - 1], i) <==> FirstKey(keys, i)
    ensures RejectedKey(keys[..|keys| - 1], i) <==> RejectedKey(keys, i)
  {
    hide KeyValid;
    var init := keys[..|keys| - 1];
    assert forall j :: 0 <= j < |init| ==> init[j] == keys[j];
    forall j | 0 <= j < |init| ensures FirstKey(init, j) <==> FirstKey(keys, j) {
    }
  }

  /** The map of trusted keys is exactly the pinned keys. */
  predicate HoldsPinned(trusted: map<string, string>, keys: seq<KeyEntry>) {
    && (forall i :: 0 <= i < |keys| && FirstKey(keys, i) ==> keys[i].keyId in trusted && trusted[keys[i].keyId] == keys[i].publicKey)
    && forall id :: id in trusted ==> exists i :: 0 <= i < |keys| && FirstKey(keys, i) && keys[i].keyId == id
  }

  /** Whether the last entry is pinned, rejected or pinned again. */
  lemma LastKeyAccepted(trusted: map<string, string>, keys: seq<KeyEntry>)
    requires keys != [] && HoldsPinned(trusted, keys[..|keys| - 1])
    ensures var n := |keys| - 1;
            && (KeyAccepted(trusted, keys[n]) <==> !RejectedKey(keys, n))
            && (FirstKey(keys, n) <==> KeyValid(keys[n]) && keys[n].keyId !in trusted)
  {
    var n := |keys| - 1;
    var k := keys[n];
    forall i | 0 <= i < n ensures FirstKey(keys[..n], i) <==> FirstKey(keys, i) {
      KeysInit(keys, i);
    }
    assert forall i :: FirstKey(keys, i) ==> keys[i].Key?;
    assert KeyValid(k) ==> k.Key?;
    hide KeyValid, FirstKey;
    if KeyValid(k) {
      if k.keyId in trusted {
        var i :| 0 <= i < n && FirstKey(keys[..n], i) && keys[..n][i].keyId == k.keyId;
        assert FirstKey(keys, i) && trusted[k.keyId] == keys[i].publicKey;
        SameIdNotFirst(keys, i, n);
        FirstKeyOnce(keys, k.keyId, i);
      } else {
        NewIdFirst(trusted, keys);
        FirstKeyOnce(keys, k.keyId, n);
      }
    } else {
      InvalidNotFirst(keys, n);
    }
  }

  lemma HoldsNext(trusted: map<string, string>, keys: seq<KeyEntry>)
    requires keys != [] && HoldsPinned(trusted, keys[..|keys| - 1])
    ensures var k := keys[|keys| - 1];
            HoldsPinned(if KeyAccepted(trusted, k) then trusted[k.keyId := k.publicKey] else trusted, keys)
  {
    var n := |keys| - 1;
    var init, k := keys[..n], keys[n];
    LastKeyAccepted(trusted, keys);
    forall i | 0 <= i < n ensures FirstKey(init, i) <==> FirstKey(keys, i) {
      KeysInit(keys, i);
    }
    assert forall i :: FirstKey(keys, i) ==> keys[i].Key?;
    assert KeyValid(k) ==> k.Key?;
    assert forall i :: 0 <= i < n ==> init[i] == keys[i];
    hide KeyValid, FirstKey, RejectedKey;
    var after := if KeyAccepted(trusted, k) then trusted[k.keyId := k.publicKey] else trusted;
    forall id | id in after ensures exists i :: 0 <= i < |keys| && FirstKey(keys, i) && keys[i].keyId == id {
      if id in trusted {
        var i :| 0 <= i < n && FirstKey(init, i) && init[i].keyId == id;
        assert FirstKey(keys, i) && keys[i].keyId == id;
      } else {
        assert FirstKey(keys, n) && keys[n].keyId == id;
      }
    }
  }

  lemma SameIdNotFirst(keys: seq<KeyEntry>, i: int, n: int)
    requires 0 <= i < n < |keys| && FirstKey(keys, i) && keys[n].Key? && keys[i].keyId == keys[n].keyId
    ensures !FirstKey(keys, n)
  {
    hide Hex, KeyIdChar;
  }

  lemma InvalidNotFirst(keys: seq<KeyEntry>, n: int)
    requires 0 <= n < |keys| && !KeyValid(keys[n])
    ensures !FirstKey(keys, n)
  {
    hide KeyValid;
  }

  lemma FirstKeyOnce(keys: seq<KeyEntry>, id: string, i: int)
    requires FirstKey(keys, i) && keys[i].keyId == id
    ensures forall j :: FirstKey(keys, j) && keys[j].keyId == id ==> j == i
  {
    hide Hex, KeyIdChar;
  }

  /** A usable entry for an id that is not pinned yet is the first for its id. */
  lemma NewIdFirst(trusted: map<string, string>, keys: seq<KeyEntry>)
    requires keys != [] && HoldsPinned(trusted, keys[..|keys| - 1])
    requires KeyValid(keys[|keys| - 1]) && keys[|keys| - 1].keyId !in trusted
    ensures FirstKey(keys, |keys| - 1)
  {
    hide HoldsPinned;
    var n := |keys| - 1;
    forall j | 0 <= j < n && KeyValid(keys[j]) ensures keys[j].keyId != keys[n].keyId {
      assert keys[..n][j] == keys[j];
      var i := FirstFor(keys[..n], j);
      FirstHeld(trusted, keys[..n], i);
    }
  }

  lemma FirstHeld(trusted: map<string, string>, keys: seq<KeyEntry>, i: int)
    requires HoldsPinned(trusted, keys) && FirstKey(keys, i)
    ensures keys[i].keyId in trusted
  {
    hide KeyValid;
  }

  /** Every usable entry has a first one for its id. */
  lemma {:induction false} FirstFor(keys: seq<KeyEntry>, j: nat) returns (i: nat)
    requires j < |keys| && KeyValid(keys[j])
    ensures i <= j && FirstKey(keys, i) && keys[i].keyId == keys[j].keyId
    decreases j
  {
    hide Hex, KeyIdChar;
    if FirstKey(keys, j) {
      i := j;
    } else {
      var k :| 0 <= k < j && KeyValid(keys[k]) && keys[k].keyId == keys[j].keyId;
      i := FirstFor(keys, k);
    }
  }

  lemma {:induction false} PinKeysHold(keys: seq<KeyEntry>)
    ensures HoldsPinned(PinKeys(keys).trusted, keys)
    ensures |PinKeys(keys).failures| == |RejectedKeys(keys)|
    ensures forall k :: 0 <= k < |PinKeys(keys).failures| ==> PinKeys(keys).failures[k] == KeyInvalid
  {
    if keys != [] {
      hide KeyAccepted, HoldsPinned, RejectedKey, RejectedKeys;
      PinKeysHold(keys[..|keys| - 1]);
      LastKeyAccepted(PinKeys(keys[..|keys| - 1]).trusted, keys);
      HoldsNext(PinKeys(keys[..|keys| - 1]).trusted, keys);
      RejectedNext(keys);
    }
  }

  /** Two sets that differ at most in one place. */
  lemma OneMore<T>(all: set<T>, before: set<T>, n: T)
    requires n !in before && forall i :: i != n ==> (i in all <==> i in before)
    ensures |all| == |before| + if n in all then 1 else 0
  {
    if n in all {
      assert all == before + {n};
    } else {
      assert all == before;
    }
  }

  lemma RejectedNext(keys: seq<KeyEntry>)
    requires keys != []
    ensures |RejectedKeys(keys)| == |RejectedKeys(keys[..|keys| - 1])| + if RejectedKey(keys, |keys| - 1) then 1 else 0
  {
    var n := |keys| - 1;
    forall i | 0 <= i < n ensures RejectedKey(keys[..n], i) <==> RejectedKey(keys, i) {
      KeysInit(keys, i);
    }
    hide RejectedKey;
    if RejectedKey(keys, n) {
      assert RejectedKeys(keys) == RejectedKeys(keys[..n]) + {n};
    } else {
      assert RejectedKeys(keys) == RejectedKeys(keys[..n]);
    }
  }

  /** Pinning: the first usable entry for each id is trusted, and every entry that is unusable or differs from it is reported. */
  lemma PinKeysExactly(keys: seq<KeyEntry>, id: string, publicKey: string)
    ensures var p := PinKeys(keys);
            && (PinnedKey(keys, id, publicKey) <==> id in p.trusted && p.trusted[id] == publicKey)
            && |p.failures| == |RejectedKeys(keys)| && forall k :: 0 <= k < |p.failures| ==> p.failures[k] == KeyInvalid
  {
    PinKeysHold(keys);
    hide FirstKey, PinKeys, RejectedKeys;
  }

  // ----- signatures

  predicate BadSignature(verify: Verify, problem: string, trusted: map<string, string>, s: Signature) {
    s.keyId in trusted && !SignatureValid(verify, problem, s, trusted[s.keyId])
  }

  function BadSignatures(verify: Verify, problem: string, trusted: map<string, string>, sigs: seq<Signature>): set<int> {
    set i | 0 <= i < |sigs| && BadSignature(verify, problem, trusted, sigs[i])
  }

  /** The checkpoints that a signature under a pinned key verifies for. */
  function VerifiedSeqs(verify: Verify, problem: string, trusted: map<string, string>, sigs: seq<Signature>): set<int> {
    set i | 0 <= i < |sigs| && Verifies(verify, problem, trusted, sigs[i]) :: sigs[i].checkpointSeq
  }

  /** The reports name the places of the signatures that fail, in order, by their checkpoints. */
  lemma {:induction false} SignaturesReported(verify: Verify, problem: string, trusted: map<string, string>, sigs: seq<Signature>)
    ensures var out := Anchors(verify, problem, trusted, sigs).failures;
            var places := Places(BadSignatures(verify, problem, trusted, sigs), |sigs|);
            |out| == |places| && forall k :: 0 <= k < |out| ==> out[k] == SignatureDoesNotVerify(sigs[places[k]].checkpointSeq)
  {
    if sigs != [] {
      var n := |sigs| - 1;
      var init, bad := sigs[..n], BadSignatures(verify, problem, trusted, sigs);
      SignaturesReported(verify, problem, trusted, init);
      AnchorStep(verify, problem, trusted, sigs);
      assert forall i :: 0 <= i < n ==> init[i] == sigs[i];
      hide Anchors, BadSignature;
      PlacesAlike(BadSignatures(verify, problem, trusted, init), bad, n);
      assert n in bad <==> BadSignature(verify, problem, trusted, sigs[n]);
      var before := Places(bad, n);
      assert forall k :: 0 <= k < |before| ==> init[before[k]] == sigs[before[k]];
      hide BadSignatures;
    }
  }

  lemma AnchorStep(verify: Verify, problem: string, trusted: map<string, string>, sigs: seq<Signature>)
    requires sigs != []
    ensures var s := sigs[|sigs| - 1];
            Anchors(verify, problem, trusted, sigs).failures ==
            Anchors(verify, problem, trusted, sigs[..|sigs| - 1]).failures +
            if BadSignature(verify, problem, trusted, s) then [SignatureDoesNotVerify(s.checkpointSeq)] else []
  {
    hide SignatureValid;
  }

  lemma AnchoredSeqs(verify: Verify, problem: string, trusted: map<string, string>, sigs: seq<Signature>)
    ensures Anchors(verify, problem, trusted, sigs).anchors.Keys == VerifiedSeqs(verify, problem, trusted, sigs)
  {
    AnchorsMean(verify, problem, trusted, sigs);
    hide Anchors, SignatureValid;
    var anchors := Anchors(verify, problem, trusted, sigs).anchors;
    forall n ensures n in anchors <==> n in VerifiedSeqs(verify, problem, trusted, sigs) {
      if LastVerified(verify, problem, trusted, sigs, n).Some? {
        var s := LastVerified(verify, problem, trusted, sigs, n).value;
        var i :| 0 <= i < |sigs| && sigs[i] == s;
      }
    }
  }

  // ----- events

  predicate Matches(anchors: map<int, Anchor>, e: Event) {
    e.seq_ in anchors && anchors[e.seq_].root == Bare(e.chainDigest)
  }

  predicate Differs(anchors: map<int, Anchor>, e: Event) {
    e.seq_ in anchors && anchors[e.seq_].root != Bare(e.chainDigest)
  }

  function MatchingEvents(anchors: map<int, Anchor>, events: seq<Event>): set<int> {
    set i | 0 <= i < |events| && Matches(anchors, events[i])
  }

  function DifferingEvents(anchors: map<int, Anchor>, events: seq<Event>): set<int> {
    set i | 0 <= i < |events| && Differs(anchors, events[i])
  }

  /** The greatest number of a matching event, or zero when there is none above zero. */
  predicate GreatestMatch(anchors: map<int, Anchor>, events: seq<Event>, through: int) {
    && through >= 0
    && (through > 0 ==> exists i :: 0 <= i < |events| && Matches(anchors, events[i]) && events[i].seq_ == through)
    && forall i :: 0 <= i < |events| && Matches(anchors, events[i]) ==> events[i].seq_ <= through
  }

  lemma MatchingNext(anchors: map<int, Anchor>, events: seq<Event>)
    requires events != []
    ensures |MatchingEvents(anchors, events)| ==
            |MatchingEvents(anchors, events[..|events| - 1])| + if Matches(anchors, events[|events| - 1]) then 1 else 0
  {
    hide Matches;
    var n := |events| - 1;
    var all, before := MatchingEvents(anchors, events), MatchingEvents(anchors, events[..n]);
    forall i | i != n ensures i in all <==> i in before {
      assert 0 <= i < n ==> events[..n][i] == events[i];
    }
    assert n !in before && (n in all <==> Matches(anchors, events[n]));
    hide MatchingEvents;
    OneMore(all, before, n);
  }

  lemma MatchStep(anchors: map<int, Anchor>, events: seq<Event>)
    requires events != []
    ensures var before, e := MatchEvents(anchors, events[..|events| - 1]), events[|events| - 1];
            var m := MatchEvents(anchors, events);
            if Matches(anchors, e) then m.signed == before.signed + 1 && m.through == Max(before.through, e.seq_)
            else m.signed == before.signed && m.through == before.through
  {
    hide Bare;
  }

  lemma {:induction false} EventsMatched(anchors: map<int, Anchor>, events: seq<Event>)
    ensures var m := MatchEvents(anchors, events);
            m.signed == |MatchingEvents(anchors, events)| && GreatestMatch(anchors, events, m.through)
  {
    if events != [] {
      var init := events[..|events| - 1];
      EventsMatched(anchors, init);
      MatchStep(anchors, events);
      MatchingNext(anchors, events);
      GreatestMatchNext(anchors, events, MatchEvents(anchors, init).through);
      hide Matches, MatchingEvents, GreatestMatch, MatchEvents;
    }
  }

  lemma GreatestMatchNext(anchors: map<int, Anchor>, events: seq<Event>, through: int)
    requires events != [] && GreatestMatch(anchors, events[..|events| - 1], through)
    ensures var e := events[|events| - 1];
            GreatestMatch(anchors, events, if Matches(anchors, e) then Max(through, e.seq_) else through)
  {
    hide Matches;
    var n := |events| - 1;
    var init := events[..n];
    assert forall i :: 0 <= i < n ==> init[i] == events[i];
    if through > 0 {
      var i :| 0 <= i < n && Matches(anchors, init[i]) && init[i].seq_ == through;
      assert Matches(anchors, events[i]) && events[i].seq_ == through;
    }
  }

  lemma {:induction false} EventsReported(anchors: map<int, Anchor>, events: seq<Event>)
    ensures var out := MatchEvents(anchors, events).failures;
            var places := Places(DifferingEvents(anchors, events), |events|);
            |out| == |places| && forall k :: 0 <= k < |out| ==> out[k] == DiffersFromSigned(events[places[k]].seq_)
  {
    if events != [] {
      var n := |events| - 1;
      var init, bad := events[..n], DifferingEvents(anchors, events);
      EventsReported(anchors, init);
      hide Bare;
      assert forall i :: 0 <= i < n ==> init[i] == events[i];
      PlacesAlike(DifferingEvents(anchors, init), bad, n);
      assert n in bad <==> Differs(anchors, events[n]);
      var before := Places(bad, n);
      assert forall k :: 0 <= k < |before| ==> init[before[k]] == events[before[k]];
      hide DifferingEvents;
    }
  }

  // ----- header checkpoints

  /** The signature for the checkpoint's number states another root or another digest. */
  predicate Disagrees(anchors: map<int, Anchor>, c: Checkpoint) {
    c.seq_ in anchors && (anchors[c.seq_].root != Bare(c.root) || anchors[c.seq_].digest != Bare(c.digest))
  }

  function Disagreeing(anchors: map<int, Anchor>, checkpoints: seq<Checkpoint>): set<int> {
    set i | 0 <= i < |checkpoints| && Disagrees(anchors, checkpoints[i])
  }

  lemma {:induction false} HeaderReported(anchors: map<int, Anchor>, checkpoints: seq<Checkpoint>)
    ensures var out := HeaderFailures(anchors, checkpoints);
            var places := Places(Disagreeing(anchors, checkpoints), |checkpoints|);
            |out| == |places| && forall k :: 0 <= k < |out| ==> out[k] == HeaderDisagrees(checkpoints[places[k]].seq_)
  {
    if checkpoints != [] {
      var n := |checkpoints| - 1;
      var init, bad := checkpoints[..n], Disagreeing(anchors, checkpoints);
      HeaderReported(anchors, init);
      hide Bare;
      assert forall i :: 0 <= i < n ==> init[i] == checkpoints[i];
      PlacesAlike(Disagreeing(anchors, init), bad, n);
      assert n in bad <==> Disagrees(anchors, checkpoints[n]);
      var before := Places(bad, n);
      assert forall k :: 0 <= k < |before| ==> init[before[k]] == checkpoints[before[k]];
      hide Disagreeing;
    }
  }

  /** The digest without the prefix that names its algorithm, which is taken off once. */
  lemma BareExactly(digest: string, rest: string)
    ensures Bare("sha256:" + rest) == rest
    ensures !("sha256:" <= digest) ==> Bare(digest) == digest
  {
    assert ("sha256:" + rest)[7..] == rest;
  }
}
