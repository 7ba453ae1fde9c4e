/** The gauntlet scorecard (e2e/gauntlet/scorecard.ts): the median, and the pass bar. */
module Scorecard {
  import Multisets

  const REQUIRED_ATTEMPTS := 10
  const PASS_FRACTION := 0.8
  const MAX_MEDIAN_TOKENS := 25_000.0
  const MIN_HARNESS_COUNT := 3
  const KNOWN_HARNESSES := {"claude-code", "codex", "gemini"}
  const MAX_SAFE_INTEGER := 9_007_199_254_740_991.0

  // ----- the median

  predicate Sorted(s: seq<real>) {
    forall i, j :: 0 <= i < j < |s| ==> s[i] <= s[j]
  }

  function Insert(x: real, s: seq<real>): seq<real> {
    if s == [] || x <= s[0] then [x] + s else [s[0]] + Insert(x, s[1..])
  }

  function Sort(s: seq<real>): seq<real> {
    if s == [] then [] else Insert(s[0], Sort(s[1..]))
  }

  function Median(tokens: seq<real>): real {
    var sorted := Sort(tokens);
    var mid := |sorted| / 2;
    if |tokens| == 0 || |sorted| == 0 then 0.0
    else (sorted[|sorted| - 1 - mid] + sorted[mid]) / 2.0
  }

  /** How many entries are at most x. */
  function AtMost(s: seq<real>, x: real): (n: nat)
    ensures n <= |s|
  {
    if s == [] then 0 else (if s[0] <= x then 1 else 0) + AtMost(s[1..], x)
  }

  function AtLeast(s: seq<real>, x: real): (n: nat)
    ensures n <= |s|
  {
    if s == [] then 0 else (if s[0] >= x then 1 else 0) + AtLeast(s[1..], x)
  }

  lemma {:induction false} InsertCounts(x: real, s: seq<real>, y: real)
    ensures |Insert(x, s)| == |s| + 1
    ensures AtMost(Insert(x, s), y) == AtMost([x] + s, y) && AtLeast(Insert(x, s), y) == AtLeast([x] + s, y)
    ensures Sorted(s) ==> Sorted(Insert(x, s))
    ensures forall z :: z in Insert(x, s) ==> z == x || z in s
  {
    assert ([x] + s)[1..] == s;
    if s != [] && x > s[0] {
      InsertCounts(x, s[1..], y);
      var rest := Insert(x, s[1..]);
      assert ([s[0]] + rest)[1..] == rest && ([x] + s[1..])[1..] == s[1..];
      if Sorted(s) {
        forall j | 0 <= j < |rest| ensures s[0] <= rest[j] {
          assert rest[j] in rest;
        }
      }
    }
  }

  /** Sorting keeps every count, and sorts. */
  lemma {:induction false} SortCounts(s: seq<real>, y: real)
    ensures |Sort(s)| == |s| && Sorted(Sort(s))
    ensures AtMost(Sort(s), y) == AtMost(s, y) && AtLeast(Sort(s), y) == AtLeast(s, y)
  {
    if s != [] {
      SortCounts(s[1..], y);
      InsertCounts(s[0], Sort(s[1..]), y);
      assert ([s[0]] + Sort(s[1..]))[1..] == Sort(s[1..]);
    }
  }

  /** In a sorted list, the k-th entry is at most x exactly when more than k entries are. */
  lemma {:induction false} OrderStatistic(s: seq<real>, k: nat, x: real)
    requires Sorted(s) && k < |s|
    ensures s[k] <= x <==> AtMost(s, x) > k
    ensures s[k] >= x <==> AtLeast(s, x) >= |s| - k
  {
    if k == 0 {
      if s[0] > x {
        NoneAtMost(s, x);
      }
      if s[0] >= x {
        AllAtLeast(s, x);
      } else {
        assert AtLeast(s, x) == AtLeast(s[1..], x);
      }
    } else {
      OrderStatistic(s[1..], k - 1, x);
      if s[0] >= x {
        AllAtLeast(s, x);
      }
    }
  }

  lemma {:induction false} NoneAtMost(s: seq<real>, x: real)
    requires forall i :: 0 <= i < |s| ==> s[i] > x
    ensures AtMost(s, x) == 0
  {
    if s != [] {
      NoneAtMost(s[1..], x);
    }
  }

  lemma {:induction false} AllAtLeast(s: seq<real>, x: real)
    requires forall i :: 0 <= i < |s| ==> s[i] >= x
    ensures AtLeast(s, x) == |s|
  {
    if s != [] {
      AllAtLeast(s[1..], x);
    }
  }

  /** Raising entries lowers no entry of the sorted list. */
  lemma {:induction false} RaisingKeepsCounts(a: seq<real>, b: seq<real>, x: real)
    requires |a| == |b| && forall i :: 0 <= i < |a| ==> a[i] <= b[i]
    ensures AtMost(b, x) <= AtMost(a, x)
  {
    if a != [] {
      RaisingKeepsCounts(a[1..], b[1..], x);
    }
  }

  lemma SortMonotone(a: seq<real>, b: seq<real>, k: nat)
    requires |a| == |b| && k < |a| && forall i :: 0 <= i < |a| ==> a[i] <= b[i]
    ensures |Sort(a)| == |Sort(b)| == |a| && Sort(a)[k] <= Sort(b)[k]
  {
    SortCounts(a, 0.0);
    SortCounts(b, 0.0);
    var x := Sort(b)[k];
    SortCounts(a, x);
    SortCounts(b, x);
    RaisingKeepsCounts(a, b, x);
    OrderStatistic(Sort(b), k, x);
    OrderStatistic(Sort(a), k, x);
  }

  /** Raising any entries never lowers the median. */
  lemma MedianMonotone(a: seq<real>, b: seq<real>)
    requires |a| == |b| && forall i :: 0 <= i < |a| ==> a[i] <= b[i]
    ensures Median(a) <= Median(b)
  {
    SortCounts(a, 0.0);
    SortCounts(b, 0.0);
    if a != [] {
      SortMonotone(a, b, |a| / 2);
      SortMonotone(a, b, |a| - 1 - |a| / 2);
    }
  }

  lemma {:induction false} CountsOfPermutation(a: seq<real>, b: seq<real>, x: real)
    requires multiset(a) == multiset(b)
    ensures |a| == |b| && AtMost(a, x) == AtMost(b, x)
  {
    if a == [] {
      assert |multiset(a)| == |a| && |multiset(b)| == |b|;
    } else {
      assert a[0] in multiset(b);
      var j :| 0 <= j < |b| && b[j] == a[0];
      var rest := b[..j] + b[j + 1..];
      RemoveOne(a, 0);
      RemoveOne(b, j);
      assert a[..0] + a[1..] == a[1..];
      Multisets.EqualWithout(multiset(a[1..]), multiset(rest), a[0]);
      CountsOfPermutation(a[1..], rest, x);
      CountRemoved(b, j, x);
    }
  }

  lemma RemoveOne(s: seq<real>, j: nat)
    requires j < |s|
    ensures multiset(s) == multiset{s[j]} + multiset(s[..j] + s[j + 1..])
  {
    assert s == s[..j] + ([s[j]] + s[j + 1..]);
  }

  lemma {:induction false} CountRemoved(s: seq<real>, j: nat, x: real)
    requires j < |s|
    ensures AtMost(s, x) == (if s[j] <= x then 1 else 0) + AtMost(s[..j] + s[j + 1..], x)
  {
    var rest := s[..j] + s[j + 1..];
    if j == 0 {
      assert rest == s[1..];
    } else {
      CountRemoved(s[1..], j - 1, x);
      assert rest[1..] == s[1..][..j - 1] + s[1..][j..];
    }
  }

  /** The order in which the token counts are listed does not matter. */
  lemma MedianOrderFree(a: seq<real>, b: seq<real>)
    requires multiset(a) == multiset(b)
    ensures Median(a) == Median(b)
  {
    CountsOfPermutation(a, b, 0.0);
    SortCounts(a, 0.0);
    SortCounts(b, 0.0);
    if a != [] {
      SortedEntry(a, b, |a| / 2);
      SortedEntry(a, b, |a| - 1 - |a| / 2);
    }
  }

  lemma SortedEntry(a: seq<real>, b: seq<real>, k: nat)
    requires multiset(a) == multiset(b) && |a| == |b| && k < |a|
    ensures |Sort(a)| == |Sort(b)| == |a| && Sort(a)[k] == Sort(b)[k]
  {
    SortCounts(a, 0.0);
    SortCounts(b, 0.0);
    var x, y := Sort(a)[k], Sort(b)[k];
    SortCounts(a, x);
    SortCounts(b, x);
    SortCounts(a, y);
    SortCounts(b, y);
    CountsOfPermutation(a, b, x);
    CountsOfPermutation(a, b, y);
    OrderStatistic(Sort(a), k, x);
    OrderStatistic(Sort(b), k, x);
    OrderStatistic(Sort(a), k, y);
    OrderStatistic(Sort(b), k, y);
  }

  /** At least half of the entries, rounded up, lie on either side of the median. */
  lemma MedianSplits(tokens: seq<real>)
    requires tokens != []
    ensures 2 * AtMost(tokens, Median(tokens)) >= |tokens|
    ensures 2 * AtLeast(tokens, Median(tokens)) >= |tokens|
  {
    var m, n := Median(tokens), |tokens|;
    SortCounts(tokens, m);
    var s := Sort(tokens);
    OrderStatistic(s, n - 1 - n / 2, m);
    OrderStatistic(s, n / 2, m);
  }

  /** The k-th entry in order, without sorting: at most k entries are smaller, and more than k are not larger. */
  predicate HasRank(tokens: seq<real>, x: real, k: int) {
    x in tokens && |tokens| - AtLeast(tokens, x) <= k < AtMost(tokens, x)
  }

  /** The middle entry, or the mean of the two middle ones; zero when there are none. */
  ghost predicate IsMedian(tokens: seq<real>, m: real) {
    if tokens == [] then m == 0.0
    else exists low, high :: LowMiddle(tokens, low) && HighMiddle(tokens, high) && m == (low + high) / 2.0
  }

  predicate LowMiddle(tokens: seq<real>, x: real) {
    HasRank(tokens, x, (|tokens| - 1) / 2)
  }

  predicate HighMiddle(tokens: seq<real>, x: real) {
    HasRank(tokens, x, |tokens| / 2)
  }

  lemma {:induction false} SortKeepsEntries(s: seq<real>)
    ensures forall x :: x in Sort(s) ==> x in s
  {
    if s != [] {
      SortKeepsEntries(s[1..]);
      InsertCounts(s[0], Sort(s[1..]), 0.0);
      assert s == [s[0]] + s[1..];
    }
  }

  lemma RankIsSortedEntry(tokens: seq<real>, x: real, k: nat)
    requires k < |tokens|
    ensures |Sort(tokens)| == |tokens| && (HasRank(tokens, x, k) <==> x == Sort(tokens)[k])
  {
    SortCounts(tokens, x);
    SortKeepsEntries(tokens);
    OrderStatistic(Sort(tokens), k, x);
    RankBySorted(Sort(tokens), x, k);
    assert Sort(tokens)[k] in Sort(tokens);
  }

  lemma RankBySorted(s: seq<real>, x: real, k: nat)
    requires Sorted(s) && k < |s|
    ensures |s| - AtLeast(s, x) <= k < AtMost(s, x) <==> x == s[k]
  {
    OrderStatistic(s, k, x);
    if s[k] != x {
      AtLeastAbove(s, k, x);
    }
  }

  lemma AtLeastAbove(s: seq<real>, k: nat, x: real)
    requires Sorted(s) && k < |s|
    ensures s[k] < x ==> |s| - AtLeast(s, x) > k
    ensures s[k] > x ==> AtMost(s, x) <= k
  {
    OrderStatistic(s, k, x);
  }

  /** The median, characterised by counts alone. */
  lemma MedianExactly(tokens: seq<real>, m: real)
    ensures m == Median(tokens) <==> IsMedian(tokens, m)
  {
    SortCounts(tokens, m);
    if tokens != [] {
      var n := |tokens|;
      var sorted := Sort(tokens);
      var low, high := sorted[(n - 1) / 2], sorted[n / 2];
      assert n - 1 - n / 2 == (n - 1) / 2;
      forall x: real ensures LowMiddle(tokens, x) <==> x == low {
        RankIsSortedEntry(tokens, x, (n - 1) / 2);
      }
      forall x: real ensures HighMiddle(tokens, x) <==> x == high {
        RankIsSortedEntry(tokens, x, n / 2);
      }
      assert LowMiddle(tokens, low) && HighMiddle(tokens, high);
    }
  }

  // ----- the scorecard

  /** A number that is a safe integer, or one that is not. */
  datatype Index = Whole(n: int) | NotWhole(value: real)

  datatype Attempt = Attempt(attemptIndex: Index, harness: string, completed: bool, tokensUsed: real)

  datatype Card = Card(total: nat, completed: nat, harnesses: set<string>, medianTokens: real, passed: bool)

  predicate IsSafeInteger(x: real) {
    x == x.Floor as real && -MAX_SAFE_INTEGER <= x <= MAX_SAFE_INTEGER
  }

  predicate Canonical(a: Attempt) {
    && a.attemptIndex.Whole? && 0 <= a.attemptIndex.n < REQUIRED_ATTEMPTS
    && IsSafeInteger(a.tokensUsed) && a.tokensUsed >= 0.0
    && (a.completed ==> a.tokensUsed > 0.0)
    && a.harness in KNOWN_HARNESSES
  }

  function CompletedTokens(results: seq<Attempt>): seq<real> {
    if results == [] then []
    else (if results[0].completed then [results[0].tokensUsed] else []) + CompletedTokens(results[1..])
  }

  // ----- what the completed attempts are

  function CompletedAttempts(results: seq<Attempt>): set<int> {
    set i | 0 <= i < |results| && results[i].completed
  }

  /** The completed attempts that used x tokens. */
  function CompletedWith(results: seq<Attempt>, x: real): set<int> {
    set i | 0 <= i < |results| && results[i].completed && results[i].tokensUsed == x
  }

  function Shifted(a: set<int>): (b: set<int>)
    ensures forall j :: j in b <==> j - 1 in a
  {
    set i | i in a :: i + 1
  }

  lemma Member<T>(a: set<T>) returns (x: T)
    requires a != {}
    ensures x in a
  {
    x :| x in a;
  }

  lemma {:induction false} ShiftedSize(a: set<int>, b: set<int>)
    requires b == Shifted(a)
    ensures |a| == |b|
    decreases |a|
  {
    if a != {} {
      var i := Member(a);
      assert i + 1 in b;
      assert b - {i + 1} == Shifted(a - {i});
      ShiftedSize(a - {i}, b - {i + 1});
    } else {
      assert forall j :: j !in b;
      assert |a| == 0 && |b| == 0;
    }
  }

  lemma CompletedWithFirst(results: seq<Attempt>, x: real)
    requires results != []
    ensures |CompletedWith(results, x)| ==
            |CompletedWith(results[1..], x)| + if results[0].completed && results[0].tokensUsed == x then 1 else 0
  {
    var all, rest := CompletedWith(results, x), CompletedWith(results[1..], x);
    assert forall i :: i in all && i != 0 ==> i - 1 in rest;
    ShiftedSize(rest, all - {0});
    if 0 in all {
      assert all == (all - {0}) + {0};
    } else {
      assert all == all - {0};
    }
  }

  lemma CompletedFirst(results: seq<Attempt>)
    requires results != []
    ensures |CompletedAttempts(results)| == |CompletedAttempts(results[1..])| + if results[0].completed then 1 else 0
  {
    var all, rest := CompletedAttempts(results), CompletedAttempts(results[1..]);
    assert forall i :: i in all && i != 0 ==> i - 1 in rest;
    ShiftedSize(rest, all - {0});
    if 0 in all {
      assert all == (all - {0}) + {0};
    } else {
      assert all == all - {0};
    }
  }

  /** The token counts listed are those of the completed attempts, one for each, and no others. */
  lemma {:induction false} CompletedTokensExactly(results: seq<Attempt>, x: real)
    ensures |CompletedTokens(results)| == |CompletedAttempts(results)|
    ensures multiset(CompletedTokens(results))[x] == |CompletedWith(results, x)|
  {
    if results == [] {
      assert CompletedAttempts(results) == {} && CompletedWith(results, x) == {};
    } else {
      CompletedTokensExactly(results[1..], x);
      CompletedFirst(results);
      CompletedWithFirst(results, x);
      hide CompletedAttempts, CompletedWith;
    }
  }

  /** How many completed attempts used at most x tokens. */
  function CompletedWithin(results: seq<Attempt>, x: real): set<int> {
    set i | 0 <= i < |results| && results[i].completed && results[i].tokensUsed <= x
  }

  lemma CompletedWithinFirst(results: seq<Attempt>, x: real)
    requires results != []
    ensures |CompletedWithin(results, x)| ==
            |CompletedWithin(results[1..], x)| + if results[0].completed && results[0].tokensUsed <= x then 1 else 0
  {
    var all, rest := CompletedWithin(results, x), CompletedWithin(results[1..], x);
    assert forall i :: i in all && i != 0 ==> i - 1 in rest;
    ShiftedSize(rest, all - {0});
    if 0 in all {
      assert all == (all - {0}) + {0};
    } else {
      assert all == all - {0};
    }
  }

  lemma {:induction false} WithinCounted(results: seq<Attempt>, x: real)
    ensures AtMost(CompletedTokens(results), x) == |CompletedWithin(results, x)|
  {
    if results == [] {
      assert CompletedWithin(results, x) == {};
    } else {
      WithinCounted(results[1..], x);
      CompletedWithinFirst(results, x);
      hide CompletedWithin;
      if results[0].completed {
        assert CompletedTokens(results)[1..] == CompletedTokens(results[1..]);
      } else {
        assert CompletedTokens(results) == CompletedTokens(results[1..]);
      }
    }
  }

  function Harnesses(results: seq<Attempt>): set<string> {
    set i | 0 <= i < |results| :: results[i].harness
  }

  function Indexes(results: seq<Attempt>): set<Index> {
    set i | 0 <= i < |results| :: results[i].attemptIndex
  }

  function ScoreGauntlet(results: seq<Attempt>): Card {
    var tokens := CompletedTokens(results);
    var median := Median(tokens);
    var passed :=
      && |results| == REQUIRED_ATTEMPTS
      && (forall i :: 0 <= i < |results| ==> Canonical(results[i]))
      && |Indexes(results)| == REQUIRED_ATTEMPTS
      && |tokens| as real / |results| as real >= PASS_FRACTION
      && |Harnesses(results)| >= MIN_HARNESS_COUNT
      && median <= MAX_MEDIAN_TOKENS;
    Card(|results|, |tokens|, Harnesses(results), median, passed)
  }

  // ----- a passing card is a real run

  function UpTo(n: nat): (s: set<Index>)
    ensures |s| == n && forall x :: x in s <==> x.Whole? && 0 <= x.n < n
  {
    if n == 0 then {} else UpTo(n - 1) + {Whole(n - 1)}
  }

  lemma SubsetOfSameSize<T>(a: set<T>, b: set<T>)
    requires a <= b && |a| >= |b|
    ensures a == b
  {
    assert b == a + (b - a);
    assert |b| == |a| + |b - a|;
  }

  predicate OnlyAt(results: seq<Attempt>, k: int, i: int) {
    && 0 <= i < |results| && results[i].attemptIndex == Whole(k)
    && forall j :: 0 <= j < |results| && results[j].attemptIndex == Whole(k) ==> j == i
  }

  ghost predicate OccursOnce(results: seq<Attempt>, k: int) {
    exists i :: OnlyAt(results, k, i)
  }

  /** Every attempt index from 0 to 9 belongs to exactly one attempt. */
  ghost predicate EachIndexOnce(results: seq<Attempt>) {
    |results| == 10 && forall k :: 0 <= k < 10 ==> OccursOnce(results, k)
  }

  lemma {:induction false} IndexesSize(results: seq<Attempt>)
    ensures |Indexes(results)| <= |results|
    ensures |Indexes(results)| == |results| ==>
              forall i, j :: 0 <= i < j < |results| ==> results[i].attemptIndex != results[j].attemptIndex
  {
    if results != [] {
      var init, last := results[..|results| - 1], results[|results| - 1];
      IndexesSize(init);
      assert Indexes(results) == Indexes(init) + {last.attemptIndex};
    }
  }

  lemma IndexesWithin(results: seq<Attempt>)
    requires forall i :: 0 <= i < |results| ==> Canonical(results[i])
    ensures Indexes(results) <= UpTo(REQUIRED_ATTEMPTS)
  {
    hide UpTo;
    forall x | x in Indexes(results) ensures x in UpTo(REQUIRED_ATTEMPTS) {
      var i :| 0 <= i < |results| && results[i].attemptIndex == x;
      assert Canonical(results[i]);
    }
  }

  lemma IndexesOnce(results: seq<Attempt>)
    requires |results| == REQUIRED_ATTEMPTS == |Indexes(results)|
    requires Indexes(results) == UpTo(REQUIRED_ATTEMPTS)
    ensures EachIndexOnce(results)
  {
    hide UpTo;
    IndexesSize(results);
    forall k | 0 <= k < REQUIRED_ATTEMPTS ensures OccursOnce(results, k) {
      assert Whole(k) in Indexes(results);
      var i :| 0 <= i < |results| && results[i].attemptIndex == Whole(k);
      assert OnlyAt(results, k, i);
    }
  }

  /** Ten different indexes among ten leave none out. */
  lemma PassedIndexes(results: seq<Attempt>)
    requires ScoreGauntlet(results).passed
    ensures EachIndexOnce(results)
  {
    hide Median, CompletedTokens, Harnesses, Canonical, UpTo, Indexes, EachIndexOnce;
    IndexesWithin(results);
    SubsetOfSameSize(Indexes(results), UpTo(REQUIRED_ATTEMPTS));
    IndexesOnce(results);
  }

  lemma KnownHarnessCount()
    ensures |KNOWN_HARNESSES| == MIN_HARNESS_COUNT
  {
    assert "claude-code"[1] != "codex"[1];
    assert "gemini"[0] != "codex"[0] && "gemini"[0] != "claude-code"[0];
    assert KNOWN_HARNESSES == {"claude-code"} + {"codex"} + {"gemini"};
  }

  lemma PassedHarnesses(results: seq<Attempt>)
    requires forall i :: 0 <= i < |results| ==> Canonical(results[i])
    requires |Harnesses(results)| >= MIN_HARNESS_COUNT
    ensures Harnesses(results) == KNOWN_HARNESSES
  {
    KnownHarnessCount();
    forall h | h in Harnesses(results) ensures h in KNOWN_HARNESSES {
      var i :| 0 <= i < |results| && results[i].harness == h;
      assert Canonical(results[i]);
    }
    SubsetOfSameSize(Harnesses(results), KNOWN_HARNESSES);
  }

  lemma WithinBudget(tokens: seq<real>)
    requires tokens != [] && Median(tokens) <= MAX_MEDIAN_TOKENS
    ensures 2 * AtMost(tokens, MAX_MEDIAN_TOKENS) >= |tokens|
  {
    hide Median, AtMost;
    MedianSplits(tokens);
    AtMostGrows(tokens, Median(tokens), MAX_MEDIAN_TOKENS);
  }

  /**
   * A card passes only for ten attempts numbered 0 to 9, on exactly the three known
   * harnesses, at least eight of them completed, and at least half of those within
   * the token budget.
   */
  lemma PassedMeans(results: seq<Attempt>)
    requires ScoreGauntlet(results).passed
    ensures EachIndexOnce(results)
    ensures Harnesses(results) == {"claude-code", "codex", "gemini"}
    ensures |CompletedAttempts(results)| >= 8
    ensures 2 * |CompletedWithin(results, 25_000.0)| >= |CompletedAttempts(results)|
  {
    hide Median, CompletedTokens, CompletedAttempts, CompletedWithin, Harnesses, Indexes, Canonical, AtMost, EachIndexOnce;
    PassedIndexes(results);
    PassedHarnesses(results);
    WithinBudget(CompletedTokens(results));
    CompletedTokensExactly(results, 0.0);
    WithinCounted(results, MAX_MEDIAN_TOKENS);
  }

  /** The other fields of a card: how many attempts, how many completed, which harnesses, the completed ones' median. */
  lemma CardMeans(results: seq<Attempt>, h: string)
    ensures var card := ScoreGauntlet(results);
            && card.total == |results| && card.completed == |CompletedAttempts(results)|
            && (h in card.harnesses <==> exists i :: 0 <= i < |results| && results[i].harness == h)
            && IsMedian(CompletedTokens(results), card.medianTokens)
  {
    hide Median, CompletedTokens, CompletedAttempts, Canonical, Indexes, IsMedian;
    CompletedTokensExactly(results, 0.0);
    MedianExactly(CompletedTokens(results), Median(CompletedTokens(results)));
    if h in Harnesses(results) {
      var i :| 0 <= i < |results| && results[i].harness == h;
    }
  }

  predicate Is(x: real, n: int) {
    x == n as real
  }

  /** A whole number of tokens below two to the 53rd, and not zero for a completed attempt. */
  ghost predicate CountsTokens(a: Attempt) {
    exists n: int :: Is(a.tokensUsed, n) && 0 <= n < 9_007_199_254_740_992 && (a.completed ==> n != 0)
  }

  lemma OnceIsEverything(results: seq<Attempt>)
    requires EachIndexOnce(results)
    ensures Indexes(results) == UpTo(REQUIRED_ATTEMPTS)
  {
    hide UpTo;
    IndexesSize(results);
    forall x | x in UpTo(REQUIRED_ATTEMPTS) ensures x in Indexes(results) {
      assert OccursOnce(results, x.n);
      var i :| OnlyAt(results, x.n, i);
      assert results[i].attemptIndex == x;
    }
    SubsetOfSameSize(UpTo(REQUIRED_ATTEMPTS), Indexes(results));
  }

  lemma IndexAndHarnessOk(results: seq<Attempt>, i: nat)
    requires i < |results| && Indexes(results) == UpTo(REQUIRED_ATTEMPTS) && Harnesses(results) == KNOWN_HARNESSES
    requires CountsTokens(results[i])
    ensures Canonical(results[i])
  {
    hide UpTo;
    assert results[i].attemptIndex in Indexes(results) && results[i].harness in Harnesses(results);
  }

  /** And those are all the conditions, with the token counts in shape and the median itself. */
  lemma PassedExactly(results: seq<Attempt>)
    ensures ScoreGauntlet(results).passed <==>
            && EachIndexOnce(results) && Harnesses(results) == {"claude-code", "codex", "gemini"}
            && (forall i :: 0 <= i < |results| ==> CountsTokens(results[i]))
            && |CompletedAttempts(results)| >= 8
            && Median(CompletedTokens(results)) <= 25_000.0
  {
    hide Median, CompletedTokens, CompletedAttempts, Harnesses, Indexes, EachIndexOnce, AtMost, UpTo;
    KnownHarnessCount();
    CompletedTokensExactly(results, 0.0);
    if ScoreGauntlet(results).passed {
      PassedMeans(results);
      forall i | 0 <= i < |results| ensures CountsTokens(results[i]) {
        assert Canonical(results[i]);
        assert Is(results[i].tokensUsed, results[i].tokensUsed.Floor);
      }
    }
    if EachIndexOnce(results) && Harnesses(results) == KNOWN_HARNESSES
       && (forall i :: 0 <= i < |results| ==> CountsTokens(results[i])) {
      OnceIsEverything(results);
      forall i | 0 <= i < |results| ensures Canonical(results[i]) {
        IndexAndHarnessOk(results, i);
      }
      TenAttempts(results);
    }
  }

  lemma TenAttempts(results: seq<Attempt>)
    requires EachIndexOnce(results)
    ensures |results| == REQUIRED_ATTEMPTS
  {
  }

  lemma {:induction false} AtMostGrows(s: seq<real>, x: real, y: real)
    requires x <= y
    ensures AtMost(s, x) <= AtMost(s, y)
  {
    if s != [] {
      AtMostGrows(s[1..], x, y);
    }
  }

  // ----- cheaper runs

  /** The same attempts, with completed ones using no more tokens but still at least one. */
  predicate Cheaper(a: Attempt, b: Attempt) {
    && a.attemptIndex == b.attemptIndex && a.harness == b.harness && a.completed == b.completed
    && (if b.completed then IsSafeInteger(a.tokensUsed) && 1.0 <= a.tokensUsed <= b.tokensUsed
        else a.tokensUsed == b.tokensUsed)
  }

  lemma {:induction false} CheaperTokens(a: seq<Attempt>, b: seq<Attempt>)
    requires |a| == |b| && forall i :: 0 <= i < |a| ==> Cheaper(a[i], b[i])
    ensures |CompletedTokens(a)| == |CompletedTokens(b)|
    ensures forall i :: 0 <= i < |CompletedTokens(a)| ==> CompletedTokens(a)[i] <= CompletedTokens(b)[i]
  {
    if a != [] {
      CheaperTokens(a[1..], b[1..]);
      assert Cheaper(a[0], b[0]);
    }
  }

  /** Spending less on completed attempts never turns a pass into a failure. */
  lemma CheaperStillPasses(a: seq<Attempt>, b: seq<Attempt>)
    requires |a| == |b| && forall i :: 0 <= i < |a| ==> Cheaper(a[i], b[i])
    requires ScoreGauntlet(b).passed
    ensures ScoreGauntlet(a).passed
  {
    CheaperTokens(a, b);
    MedianMonotone(CompletedTokens(a), CompletedTokens(b));
    assert Indexes(a) == Indexes(b) && Harnesses(a) == Harnesses(b) by { SameLabels(a, b); }
    forall i | 0 <= i < |a| ensures Canonical(a[i]) {
      assert Cheaper(a[i], b[i]) && Canonical(b[i]);
    }
  }

  lemma SameLabels(a: seq<Attempt>, b: seq<Attempt>)
    requires |a| == |b| && forall i :: 0 <= i < |a| ==> Cheaper(a[i], b[i])
    ensures Indexes(a) == Indexes(b) && Harnesses(a) == Harnesses(b)
  {
    forall i | 0 <= i < |a| ensures a[i].attemptIndex == b[i].attemptIndex && a[i].harness == b[i].harness {
      assert Cheaper(a[i], b[i]);
    }
    assert forall x :: x in Indexes(a) <==> x in Indexes(b);
    assert forall h :: h in Harnesses(a) <==> h in Harnesses(b);
  }
}
