/**
 * Chains of events as histories: two chains that end in one digest are the same
 * history, or contain two texts with one SHA-256; and chains can be cut and joined.
 */
module LedgerHistory {
  import opened Wrappers
  import opened Digests
  import opened ChainVerifier

  // ----- one final digest, one history

  /** Where two chained events with equal chain digests differ, as texts with equal hashes. */
  function Divergence(problem: string, seq_: nat, p: string, d: Event, q: string, e: Event): Option<Collision> {
    if d.payloadSha256 != e.payloadSha256 || d.rowDigest != e.rowDigest || p != q then
      Some(Collision(LinkRecord(problem, seq_, d.payloadSha256, d.rowDigest, p),
                     LinkRecord(problem, seq_, e.payloadSha256, e.rowDigest, q)))
    else if d.envelope != e.envelope then
      Some(Collision(RowRecord(problem, seq_, d.payloadSha256, d.envelope),
                     RowRecord(problem, seq_, e.payloadSha256, e.envelope)))
    else if d.payloadJson != e.payloadJson then Some(Collision(Raw(d.payloadJson), Raw(e.payloadJson)))
    else None
  }

  lemma EqualLinks(sha: Hash, problem: string, seq_: nat, p: string, d: Event, q: string, e: Event)
    requires LinkOk(sha, problem, p, seq_, d) && LinkOk(sha, problem, q, seq_, e)
    requires d.chainDigest == e.chainDigest
    ensures match Divergence(problem, seq_, p, d, q, e)
            case Some(c) => Collides(sha, c)
            case None => d == e && p == q
  {
  }

  /** The last place where two histories of one length diverge. */
  function FindCollision(problem: string, start: nat, root: string, a: seq<Event>, b: seq<Event>): Option<Collision>
    requires |a| == |b|
    decreases |a|
  {
    if a == [] then None
    else
      var n := |a| - 1;
      var here := Divergence(problem, start + 1 + n, PreviousDigest(root, a, n), a[n], PreviousDigest(root, b, n), b[n]);
      if here.Some? then here else FindCollision(problem, start, root, a[..n], b[..n])
  }

  lemma LinkedInit(sha: Hash, problem: string, start: nat, root: string, a: seq<Event>)
    requires a != [] && Linked(sha, problem, start, root, a)
    ensures Linked(sha, problem, start, root, a[..|a| - 1])
    ensures LinkOk(sha, problem, FinalDigest(root, a[..|a| - 1]), start + |a|, a[|a| - 1])
    ensures PreviousDigest(root, a, |a| - 1) == FinalDigest(root, a[..|a| - 1])
  {
    hide LinkOk, Linked;
    var init, e := a[..|a| - 1], a[|a| - 1];
    assert a == init + [e];
    LinkedSnoc(sha, problem, start, root, init, e);
    assert start + 1 + |init| == start + |a|;
  }

  lemma FindStep(problem: string, start: nat, root: string, a: seq<Event>, b: seq<Event>)
    requires |a| == |b|
    ensures FindCollision(problem, start, root, a, b) ==
            if a == [] then None
            else
              var n := |a| - 1;
              var here :=
                Divergence(problem, start + 1 + n, PreviousDigest(root, a, n), a[n], PreviousDigest(root, b, n), b[n]);
              if here.Some? then here else FindCollision(problem, start, root, a[..n], b[..n])
  {
    hide Divergence, PreviousDigest;
  }

  lemma LastDigest(root: string, a: seq<Event>)
    requires a != []
    ensures FinalDigest(root, a) == a[|a| - 1].chainDigest
  {
  }

  /** Two chains of one length from one root to one digest: equal, or a collision is found. */
  lemma {:induction false} OneHistory(sha: Hash, problem: string, start: nat, root: string, a: seq<Event>, b: seq<Event>)
    requires |a| == |b|
    requires Linked(sha, problem, start, root, a) && Linked(sha, problem, start, root, b)
    requires FinalDigest(root, a) == FinalDigest(root, b)
    ensures match FindCollision(problem, start, root, a, b)
            case Some(c) => Collides(sha, c)
            case None => a == b
    decreases |a|
  {
    hide LinkOk, Divergence, Linked, FindCollision, FinalDigest;
    FindStep(problem, start, root, a, b);
    if a != [] {
      var n := |a| - 1;
      LinkedInit(sha, problem, start, root, a);
      LinkedInit(sha, problem, start, root, b);
      LastDigest(root, a);
      LastDigest(root, b);
      var p, q := PreviousDigest(root, a, n), PreviousDigest(root, b, n);
      hide PreviousDigest;
      EqualLinks(sha, problem, start + 1 + n, p, a[n], q, b[n]);
      if Divergence(problem, start + 1 + n, p, a[n], q, b[n]).None? {
        OneHistory(sha, problem, start, root, a[..n], b[..n]);
        assert a == a[..n] + [a[n]] && b == b[..n] + [b[n]];
      }
    }
  }

  // ----- cutting and joining

  lemma {:induction false} LinkedJoin(sha: Hash, problem: string, start: nat, root: string, a: seq<Event>, b: seq<Event>)
    requires Linked(sha, problem, start, root, a)
    requires Linked(sha, problem, start + |a|, FinalDigest(root, a), b)
    ensures Linked(sha, problem, start, root, a + b)
    ensures FinalDigest(root, a + b) == FinalDigest(FinalDigest(root, a), b)
    decreases |b|
  {
    hide LinkOk, Linked;
    if b == [] {
      assert a + b == a;
    } else {
      var init, e := b[..|b| - 1], b[|b| - 1];
      LinkedInit(sha, problem, start + |a|, FinalDigest(root, a), b);
      LinkedJoin(sha, problem, start, root, a, init);
      LinkedSnoc(sha, problem, start, root, a + init, e);
      assert a + b == a + init + [e];
    }
  }

  lemma CheckpointsJoin(sha: Hash, problem: string, start: nat, a: seq<Event>, b: seq<Event>, c: Checkpoint)
    requires CheckpointHolds(sha, problem, start, a, c) || CheckpointHolds(sha, problem, start + |a|, b, c)
    ensures CheckpointHolds(sha, problem, start, a + b, c)
  {
    hide CheckpointMatches;
  }
}
