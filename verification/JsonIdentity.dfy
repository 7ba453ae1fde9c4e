/**
 * Canonical text identifies values: two values have the same text exactly when
 * they are the same JSON value, whatever the order of members and the sign of zero.
 */
module JsonIdentity {
  import opened Wrappers
  import opened KeyOrder
  import opened CanonicalJson
  import opened JsonReader
  import Multisets
  import NumberText

  predicate Distinct(keys: seq<string>) {
    forall i, j :: 0 <= i < j < |keys| ==> keys[i] != keys[j]
  }

  /** Objects are maps: no key occurs twice. */
  predicate WellFormed(v: Json)
    decreases v
  {
    match v
    case Arr(items) => forall i :: 0 <= i < |items| ==> WellFormed(items[i])
    case Obj(members) =>
      Distinct(Keys(members)) && forall i :: 0 <= i < |members| ==> WellFormed(members[i].value)
    case _ => true
  }

  predicate Finite(x: Double) {
    x.Zero? || x.Nonzero?
  }

  /** The same JSON value, said without any notion of text or order of members. */
  ghost predicate Same(v: Json, w: Json)
    decreases v
  {
    match (v, w)
    case (Num(x), Num(y)) =>
      x == y || (Finite(x) && Finite(y) && NumberText.Denotes(x) == NumberText.Denotes(y))
    case (Arr(a), Arr(b)) => |a| == |b| && forall i :: 0 <= i < |a| ==> Same(a[i], b[i])
    case (Obj(a), Obj(b)) =>
      && (forall k :: k in Keys(a) <==> k in Keys(b))
      && forall k :: k in Keys(a) ==> Same(Lookup(a, k), Lookup(b, k))
    case _ => v == w
  }

  // ----- two values have one normal form exactly when they are the same

  lemma {:induction false} DistinctSameKeys(a: seq<string>, b: seq<string>)
    requires Distinct(a) && Distinct(b)
    requires forall k :: k in a <==> k in b
    ensures multiset(a) == multiset(b)
  {
    forall k ensures multiset(a)[k] == multiset(b)[k] {
      OccursOnce(a, k);
      OccursOnce(b, k);
    }
  }

  lemma {:induction false} OccursOnce(keys: seq<string>, k: string)
    requires Distinct(keys)
    ensures multiset(keys)[k] == if k in keys then 1 else 0
  {
    if keys != [] {
      assert keys == [keys[0]] + keys[1..];
      OccursOnce(keys[1..], k);
    }
  }

  lemma SameKeysSortAlike(a: seq<Member>, b: seq<Member>)
    requires multiset(Keys(a)) == multiset(Keys(b))
    ensures SortedKeys(a) == SortedKeys(b)
  {
    SortKeysSorted(Keys(a));
    SortKeysSorted(Keys(b));
    SortedPermutationUnique(SortKeys(Keys(a)), SortKeys(Keys(b)));
  }

  lemma SortedKeysComplete(members: seq<Member>, k: string)
    ensures k in SortedKeys(members) <==> k in Keys(members)
  {
    assert k in multiset(SortKeys(Keys(members))) <==> k in multiset(Keys(members));
  }

  lemma {:induction false} NormalEntriesKeys(members: seq<Member>, keys: seq<string>)
    requires forall i :: 0 <= i < |keys| ==> keys[i] in Keys(members)
    ensures |NormalEntries(members, keys)| == |keys|
    ensures forall i :: 0 <= i < |keys| ==>
              NormalEntries(members, keys)[i] == Member(keys[i], Normal(Lookup(members, keys[i])))
    ensures Keys(NormalEntries(members, keys)) == keys
  {
    hide Normal, Lookup;
    if keys != [] {
      NormalEntriesKeys(members, keys[1..]);
      var r := NormalEntries(members, keys);
      assert r[1..] == NormalEntries(members, keys[1..]);
    }
  }

  lemma {:induction false} NormalItemsAt(items: seq<Json>)
    ensures |NormalItems(items)| == |items|
    ensures forall i :: 0 <= i < |items| ==> NormalItems(items)[i] == Normal(items[i])
  {
    hide Normal;
    if items != [] {
      NormalItemsAt(items[1..]);
    }
  }

  lemma NumbersNormalAlike(x: Double, y: Double)
    ensures NumberText.Normal(x) == NumberText.Normal(y) <==> Same(Num(x), Num(y))
  {
    if Finite(x) && Finite(y) {
      NumberText.NumberTextByValue(x, y);
      NumberText.NumberTextInjective(x, y);
    }
  }

  lemma WellFormedLookup(members: seq<Member>, k: string)
    requires k in Keys(members) && WellFormed(Obj(members))
    ensures WellFormed(Lookup(members, k))
  {
  }

  lemma {:induction false} SameNormalAlike(v: Json, w: Json)
    requires WellFormed(v) && WellFormed(w)
    ensures Normal(v) == Normal(w) <==> Same(v, w)
    decreases v
  {
    match (v, w)
    case (Num(x), Num(y)) => NumbersNormalAlike(x, y);
    case (Arr(a), Arr(b)) => ItemsNormalAlike(a, b);
    case (Obj(a), Obj(b)) => MembersNormalAlike(a, b);
    case _ =>
  }

  lemma {:induction false} ItemsNormalAlike(a: seq<Json>, b: seq<Json>)
    requires WellFormed(Arr(a)) && WellFormed(Arr(b))
    ensures NormalItems(a) == NormalItems(b) <==> Same(Arr(a), Arr(b))
    decreases a
  {
    hide Normal, NormalItems;
    NormalItemsAt(a);
    NormalItemsAt(b);
    if |a| == |b| {
      forall i | 0 <= i < |a| ensures Normal(a[i]) == Normal(b[i]) <==> Same(a[i], b[i]) {
        SameNormalAlike(a[i], b[i]);
      }
      if NormalItems(a) == NormalItems(b) {
        assert forall i :: 0 <= i < |a| ==> NormalItems(a)[i] == NormalItems(b)[i];
      }
    }
  }

  lemma {:induction false} MembersNormalAlike(a: seq<Member>, b: seq<Member>)
    requires WellFormed(Obj(a)) && WellFormed(Obj(b))
    ensures Normal(Obj(a)) == Normal(Obj(b)) <==> Same(Obj(a), Obj(b))
    decreases a
  {
    hide NormalEntries, SortedKeys, Keys, Lookup;
    NormalEntriesKeys(a, SortedKeys(a));
    NormalEntriesKeys(b, SortedKeys(b));
    forall k | k in Keys(a) && k in Keys(b)
      ensures Normal(Lookup(a, k)) == Normal(Lookup(b, k)) <==> Same(Lookup(a, k), Lookup(b, k))
    {
      WellFormedLookup(a, k);
      WellFormedLookup(b, k);
      SameNormalAlike(Lookup(a, k), Lookup(b, k));
    }
    forall k ensures k in SortedKeys(a) <==> k in Keys(a) {
      SortedKeysComplete(a, k);
    }
    forall k ensures k in SortedKeys(b) <==> k in Keys(b) {
      SortedKeysComplete(b, k);
    }
    var na, nb := NormalEntries(a, SortedKeys(a)), NormalEntries(b, SortedKeys(b));
    if Normal(Obj(a)) == Normal(Obj(b)) {
      assert na == nb;
      assert SortedKeys(a) == SortedKeys(b);
      forall k | k in Keys(a) ensures Same(Lookup(a, k), Lookup(b, k)) {
        var i :| 0 <= i < |SortedKeys(a)| && SortedKeys(a)[i] == k;
        assert na[i] == nb[i];
      }
    }
    if Same(Obj(a), Obj(b)) {
      DistinctSameKeys(Keys(a), Keys(b));
      SameKeysSortAlike(a, b);
      assert na == nb;
    }
  }

  // ----- the normal form prints as the value itself

  lemma {:induction false} NormalPrintsAlike(v: Json)
    ensures ValueText(Normal(v)) == ValueText(v)
    decreases v, 2
  {
    match v
    case Arr(items) => NormalItemsPrintAlike(items, true);
    case Obj(members) =>
      hide SortedKeys, EntriesText;
      var keys := SortedKeys(members);
      var normal := NormalEntries(members, keys);
      NormalEntriesKeys(members, keys);
      assert SortedKeys(normal) == keys by { SortedKeysStable(members, normal); }
      NormalEntriesPrintAlike(members, keys, normal, true);
    case _ =>
  }

  /** Keys already in order are left as they are. */
  lemma SortedKeysStable(members: seq<Member>, normal: seq<Member>)
    requires Keys(normal) == SortedKeys(members)
    ensures SortedKeys(normal) == SortedKeys(members)
  {
    SameKeysSortAlike(members, normal);
  }

  lemma {:induction false} NormalItemsPrintAlike(items: seq<Json>, first: bool)
    ensures ItemsText(NormalItems(items), first) == ItemsText(items, first)
    decreases items, 1
  {
    hide Normal, ValueText;
    if items != [] {
      NormalPrintsAlike(items[0]);
      NormalItemsPrintAlike(items[1..], false);
      assert NormalItems(items)[0] == Normal(items[0]) && NormalItems(items)[1..] == NormalItems(items[1..]);
    }
  }

  lemma LookupNormal(members: seq<Member>, keys: seq<string>, k: string)
    requires forall i :: 0 <= i < |keys| ==> keys[i] in Keys(members)
    requires k in keys
    ensures Keys(NormalEntries(members, keys)) == keys
    ensures Lookup(NormalEntries(members, keys), k) == Normal(Lookup(members, k))
  {
    hide Normal, Lookup, Keys, NormalEntries;
    NormalEntriesKeys(members, keys);
    var found := Lookup(NormalEntries(members, keys), k);
  }

  lemma {:induction false} NormalEntriesPrintAlike(
    members: seq<Member>, keys: seq<string>, normal: seq<Member>, first: bool)
    requires forall i :: 0 <= i < |keys| ==> keys[i] in Keys(members) && keys[i] in SortedKeys(members)
    requires normal == NormalEntries(members, SortedKeys(members))
    ensures forall i :: 0 <= i < |keys| ==> keys[i] in Keys(normal)
    ensures EntriesText(normal, keys, first) == EntriesText(members, keys, first)
    decreases members, 1, |keys|
  {
    hide Normal, ValueText, SortedKeys, Keys, Lookup, NormalEntries;
    if keys != [] {
      LookupNormal(members, SortedKeys(members), keys[0]);
      NormalPrintsAlike(Lookup(members, keys[0]));
      NormalEntriesPrintAlike(members, keys[1..], normal, false);
    }
  }

  // ----- the main theorems

  /** Reading the canonical text of a value, and printing what was read, gives the text again. */
  lemma CanonicalTextStable(v: Json)
    requires ValueText(v).Ok?
    ensures ReadValue(ValueText(v).value) == Some((Normal(v), ""))
    ensures ValueText(Normal(v)) == ValueText(v)
  {
    ValueReads(v, "");
    assert ValueText(v).value + "" == ValueText(v).value;
    NormalPrintsAlike(v);
  }

  /** The same value has the same text, or fails with the same error. */
  lemma SameTextIfSame(v: Json, w: Json)
    requires WellFormed(v) && WellFormed(w) && Same(v, w)
    ensures ValueText(v) == ValueText(w)
  {
    SameNormalAlike(v, w);
    NormalPrintsAlike(v);
    NormalPrintsAlike(w);
  }

  /** Canonical text identifies the value. */
  lemma SameTextExactlyIfSame(v: Json, w: Json)
    requires WellFormed(v) && WellFormed(w) && ValueText(v).Ok?
    ensures ValueText(v) == ValueText(w) <==> Same(v, w)
  {
    if ValueText(v) == ValueText(w) {
      CanonicalTextStable(v);
      CanonicalTextStable(w);
      SameNormalAlike(v, w);
    }
    if Same(v, w) {
      SameTextIfSame(v, w);
    }
  }

  lemma {:induction false} SameReflexive(v: Json)
    ensures Same(v, v)
    decreases v
  {
    match v
    case Arr(items) =>
      forall i | 0 <= i < |items| ensures Same(items[i], items[i]) {
        SameReflexive(items[i]);
      }
    case Obj(members) =>
      forall k | k in Keys(members) ensures Same(Lookup(members, k), Lookup(members, k)) {
        SameReflexive(Lookup(members, k));
      }
    case _ =>
  }

  lemma PermutedLookup(a: seq<Member>, b: seq<Member>, k: string)
    requires Distinct(Keys(a)) && multiset(a) == multiset(b)
    requires k in Keys(a) && k in Keys(b)
    ensures Lookup(a, k) == Lookup(b, k)
  {
    hide Keys, Lookup;
    var x, y := Lookup(a, k), Lookup(b, k);
    assert Member(k, x) in a && Member(k, y) in b;
    assert Member(k, y) in multiset(a);
    DistinctMember(a, Member(k, x), Member(k, y));
  }

  /** The iteration order of a map does not show in the text, nor in the error. */
  lemma IterationOrderIrrelevant(a: seq<Member>, b: seq<Member>)
    requires Distinct(Keys(a)) && multiset(a) == multiset(b)
    ensures ValueText(Obj(a)) == ValueText(Obj(b))
  {
    hide Keys, Lookup, Distinct, SortedKeys, EntriesText;
    PermutedKeys(a, b);
    SameKeysSortAlike(a, b);
    var keys := SortedKeys(a);
    forall i | 0 <= i < |keys| ensures keys[i] in Keys(b) && Lookup(a, keys[i]) == Lookup(b, keys[i]) {
      assert keys[i] in multiset(Keys(b));
      PermutedLookup(a, b, keys[i]);
    }
    EntriesTextByLookup(a, b, keys, true);
  }

  lemma DistinctMember(members: seq<Member>, m: Member, n: Member)
    requires Distinct(Keys(members)) && m in members && n in members && m.key == n.key
    ensures m == n
  {
    hide Keys;
    var keys := Keys(members);
    var i :| 0 <= i < |members| && members[i] == m;
    var j :| 0 <= j < |members| && members[j] == n;
    assert keys[i] == keys[j];
  }

  lemma RemoveAt<T>(s: seq<T>, j: nat)
    requires j < |s|
    ensures |Without(s, j)| == |s| - 1
    ensures multiset(s) == multiset{s[j]} + multiset(Without(s, j))
  {
    assert s == s[..j] + ([s[j]] + s[j + 1..]);
  }

  function Without<T>(s: seq<T>, j: nat): seq<T>
    requires j < |s|
  {
    s[..j] + s[j + 1..]
  }

  lemma KeysOfWithout(members: seq<Member>, j: nat)
    requires j < |members|
    ensures Keys(Without(members, j)) == Without(Keys(members), j)
  {
    hide Keys;
    var l, r := Keys(Without(members, j)), Without(Keys(members), j);
    forall i | 0 <= i < |r| ensures l[i] == r[i] {
      assert l[i] == Without(members, j)[i].key;
      assert Without(members, j)[i] == members[if i < j then i else i + 1];
    }
  }

  lemma KeysRemoveAt(members: seq<Member>, j: nat)
    requires j < |members|
    ensures multiset(Keys(members)) == multiset{members[j].key} + multiset(Keys(Without(members, j)))
  {
    KeysOfWithout(members, j);
    hide Keys;
    RemoveAt(Keys(members), j);
  }

  lemma {:induction false} PermutedKeys(a: seq<Member>, b: seq<Member>)
    requires multiset(a) == multiset(b)
    ensures multiset(Keys(a)) == multiset(Keys(b))
    decreases |a|
  {
    hide Keys;
    if a == [] {
      assert |multiset(a)| == |a| && |multiset(b)| == |b|;
    } else {
      assert a[0] in multiset(b);
      var j :| 0 <= j < |b| && b[j] == a[0];
      RemoveAt(a, 0);
      RemoveAt(b, j);
      KeysRemoveAt(a, 0);
      KeysRemoveAt(b, j);
      hide Without;
      Multisets.EqualWithout(multiset(Without(a, 0)), multiset(Without(b, j)), a[0]);
      PermutedKeys(Without(a, 0), Without(b, j));
    }
  }

  lemma {:induction false} EntriesTextByLookup(a: seq<Member>, b: seq<Member>, keys: seq<string>, first: bool)
    requires forall i :: 0 <= i < |keys| ==> keys[i] in Keys(a) && keys[i] in Keys(b)
    requires forall i :: 0 <= i < |keys| ==> Lookup(a, keys[i]) == Lookup(b, keys[i])
    ensures EntriesText(a, keys, first) == EntriesText(b, keys, first)
  {
    hide Lookup, Keys, ValueText;
    if keys != [] {
      EntriesTextByLookup(a, b, keys[1..], false);
    }
  }
}
