/**
 * Bounded reading of a child process's output (e2e/gauntlet/real-spawn.ts): a stream
 * is the sequence of chunks its reader delivers before it is done.
 */
module StreamBounds {
  import opened Wrappers

  newtype byte = x: int | 0 <= x < 256

  function Flatten(chunks: seq<seq<byte>>): seq<byte> {
    if chunks == [] then [] else Flatten(chunks[..|chunks| - 1]) + chunks[|chunks| - 1]
  }

  function Min(a: int, b: int): int {
    if a < b then a else b
  }

  /** How much of `total` bytes a cap lets through; a negative cap lets nothing through. */
  function Kept(total: nat, cap: int): (n: nat)
    ensures n <= total
  {
    if cap <= 0 then 0 else Min(total, cap)
  }

  function Chunks(stream: Option<seq<seq<byte>>>): seq<seq<byte>> {
    if stream.Some? then stream.value else []
  }

  lemma FlattenSnoc(chunks: seq<seq<byte>>, chunk: seq<byte>)
    ensures Flatten(chunks + [chunk]) == Flatten(chunks) + chunk
  {
    assert (chunks + [chunk])[..|chunks|] == chunks;
  }

  lemma FlattenNext(chunks: seq<seq<byte>>, i: nat)
    requires i < |chunks|
    ensures Flatten(chunks[..i + 1]) == Flatten(chunks[..i]) + chunks[i]
  {
    assert chunks[..i + 1] == chunks[..i] + [chunks[i]];
    FlattenSnoc(chunks[..i], chunks[i]);
  }

  /** The first bytes up to the cap, and the number of the others, however they were chunked. */
  method DrainWithCap(stream: Option<seq<seq<byte>>>, cap: int) returns (captured: seq<byte>, discarded: nat)
    ensures var all := if stream.Some? then Flatten(stream.value) else [];
            && captured <= all
            && |captured| == (if cap <= 0 then 0 else if |all| <= cap then |all| else cap)
            && discarded == |all| - |captured|
  {
    if stream.None? {
      return [], 0;
    }
    var chunks: seq<seq<byte>>, kept: nat := [], 0;
    discarded := 0;
    for i := 0 to |stream.value|
      invariant var all := Flatten(stream.value[..i]);
                && kept == Kept(|all|, cap) && Flatten(chunks) == all[..kept]
                && discarded == |all| - kept
    {
      var buffer := stream.value[i];
      FlattenNext(stream.value, i);
      if kept < cap {
        var room := cap - kept;
        var take := if |buffer| <= room then buffer else buffer[..room];
        FlattenSnoc(chunks, take);
        chunks := chunks + [take];
        kept := kept + |take|;
        discarded := discarded + (|buffer| - |take|);
      } else {
        discarded := discarded + |buffer|;
      }
    }
    assert stream.value[..|stream.value|] == stream.value;
    captured := Flatten(chunks);
  }

  // ----- the tail

  /** A slice start beyond the end is clamped to the end. */
  function From(s: seq<byte>, start: nat): seq<byte> {
    if start <= |s| then s[start..] else []
  }

  /** The last n bytes. */
  function Suffix(s: seq<byte>, n: nat): (r: seq<byte>)
    requires n <= |s|
    ensures |r| == n
  {
    s[|s| - n..]
  }

  /** The length the tail really has: a last chunk beyond the cap is kept whole. */
  function TailLength(chunks: seq<seq<byte>>, cap: nat): (n: nat)
    ensures n <= |Flatten(chunks)|
  {
    if chunks != [] && |chunks[|chunks| - 1]| > cap then |chunks[|chunks| - 1]|
    else Min(|Flatten(chunks)|, cap)
  }

  function NextTail(tail: seq<byte>, buffer: seq<byte>, cap: nat): seq<byte> {
    if |tail| + |buffer| <= cap then tail + buffer else From(tail, |tail| + |buffer| - cap) + buffer
  }

  lemma NextTailIs(tail: seq<byte>, buffer: seq<byte>, cap: nat)
    ensures NextTail(tail, buffer, cap) ==
            if |tail| + |buffer| <= cap then tail + buffer else From(tail, |tail| + |buffer| - cap) + buffer
  {
  }

  lemma SuffixAppend(all: seq<byte>, n: nat, buffer: seq<byte>)
    requires n <= |all|
    ensures Suffix(all, n) + buffer == Suffix(all + buffer, n + |buffer|)
  {
  }

  lemma SuffixOfSuffix(all: seq<byte>, n: nat, start: nat)
    requires n <= |all|
    ensures From(Suffix(all, n), start) == Suffix(all, if start <= n then n - start else 0)
  {
  }

  lemma TailStep(all: seq<byte>, n: nat, buffer: seq<byte>, cap: nat)
    requires Min(|all|, cap) <= n <= |all|
    ensures NextTail(Suffix(all, n), buffer, cap) ==
            Suffix(all + buffer, if |buffer| > cap then |buffer| else Min(|all| + |buffer|, cap))
  {
    hide Suffix, From;
    if n + |buffer| <= cap {
      SuffixAppend(all, n, buffer);
    } else {
      var start := n + |buffer| - cap;
      SuffixOfSuffix(all, n, start);
      SuffixAppend(all, if start <= n then n - start else 0, buffer);
    }
  }

  lemma TailLengthNext(chunks: seq<seq<byte>>, i: nat, cap: nat)
    requires i < |chunks|
    ensures TailLength(chunks[..i + 1], cap) ==
            if |chunks[i]| > cap then |chunks[i]| else Min(|Flatten(chunks[..i])| + |chunks[i]|, cap)
    ensures Min(|Flatten(chunks[..i])|, cap) <= TailLength(chunks[..i], cap)
  {
    FlattenNext(chunks, i);
    assert chunks[..i + 1][i] == chunks[i];
  }

  lemma NoTail(cap: nat)
    ensures Flatten([]) == [] && TailLength([], cap) == 0 && Suffix([], 0) == []
  {
  }

  /** The end of the stream: a last chunk over the cap as it is, otherwise the last bytes up to the cap. */
  predicate IsTail(chunks: seq<seq<byte>>, cap: nat, tail: seq<byte>) {
    var all := Flatten(chunks);
    && (exists i :: 0 <= i <= |all| && all[i..] == tail)
    && |tail| == if chunks != [] && |chunks[|chunks| - 1]| > cap then |chunks[|chunks| - 1]| else if |all| <= cap then |all| else cap
  }

  lemma SuffixIsTail(chunks: seq<seq<byte>>, cap: nat)
    ensures IsTail(chunks, cap, Suffix(Flatten(chunks), TailLength(chunks, cap)))
  {
    hide Flatten;
    var all := Flatten(chunks);
    var i := |all| - TailLength(chunks, cap);
    assert all[i..] == Suffix(all, TailLength(chunks, cap));
  }

  /** The tail is always the end of the stream. */
  method TailOf(stream: Option<seq<seq<byte>>>, cap: nat) returns (tail: seq<byte>)
    ensures tail == Suffix(Flatten(Chunks(stream)), TailLength(Chunks(stream), cap))
    ensures IsTail(if stream.Some? then stream.value else [], cap, tail)
  {
    tail := [];
    if stream.None? {
      NoTail(cap);
      SuffixIsTail([], cap);
      return;
    }
    hide IsTail;
    hide Flatten, TailLength, Suffix, Min, NextTail, From;
    NoTail(cap);
    var chunks := stream.value;
    for i := 0 to |chunks|
      invariant tail == Suffix(Flatten(chunks[..i]), TailLength(chunks[..i], cap))
    {
      var buffer := chunks[i];
      FlattenNext(chunks, i);
      TailLengthNext(chunks, i, cap);
      TailStep(Flatten(chunks[..i]), TailLength(chunks[..i], cap), buffer, cap);
      NextTailIs(tail, buffer, cap);
      tail := if |tail| + |buffer| <= cap then tail + buffer else From(tail, |tail| + |buffer| - cap) + buffer;
    }
    assert chunks[..|chunks|] == chunks;
    SuffixIsTail(chunks, cap);
  }

  /** The tail is the last min(total, cap) bytes exactly when the last chunk is within the cap. */
  lemma TailIsCappedExactly(chunks: seq<seq<byte>>, cap: nat)
    ensures TailLength(chunks, cap) == Min(|Flatten(chunks)|, cap) <==>
            chunks == [] || |chunks[|chunks| - 1]| <= cap
  {
    if chunks != [] {
      assert |Flatten(chunks)| == |Flatten(chunks[..|chunks| - 1])| + |chunks[|chunks| - 1]|;
    }
  }

  /** The length of a last chunk that alone exceeds the cap, or zero. */
  function Overlong(chunks: seq<seq<byte>>, cap: nat): nat {
    if chunks != [] && |chunks[|chunks| - 1]| > cap then |chunks[|chunks| - 1]| else 0
  }

  /** Two chunkings of one stream give one tail exactly when neither ends overlong, or both by as much. */
  lemma TailByChunking(a: seq<seq<byte>>, b: seq<seq<byte>>, cap: nat)
    requires Flatten(a) == Flatten(b)
    ensures Suffix(Flatten(a), TailLength(a, cap)) == Suffix(Flatten(b), TailLength(b, cap)) <==>
            Overlong(a, cap) == Overlong(b, cap)
  {
    hide Flatten, Suffix;
    var all := Flatten(a);
    assert |Suffix(all, TailLength(a, cap))| == TailLength(a, cap);
    assert |Suffix(all, TailLength(b, cap))| == TailLength(b, cap);
  }
}
