/**
 * The order of object keys: lexicographic by UTF-16 code unit. A Dafny `char`
 * is a Unicode scalar value, exactly like a Rust `char`.
 */
module KeyOrder {
  type Unit = u: int | 0 <= u < 0x1_0000

  /** One scalar value as one unit, or as a surrogate pair. */
  function EncodeChar(c: char): (units: seq<Unit>)
  {
    var p := c as int;
    if p < 0x1_0000 then [p]
    else [0xD800 + (p - 0x1_0000) / 0x400, 0xDC00 + (p - 0x1_0000) % 0x400]
  }

  function Encode(s: string): (units: seq<Unit>) {
    if s == [] then [] else EncodeChar(s[0]) + Encode(s[1..])
  }

  /** How iterators over code units compare: strictly before, lexicographically. */
  predicate UnitsLess(a: seq<Unit>, b: seq<Unit>) {
    b != [] && (a == [] || a[0] < b[0] || (a[0] == b[0] && UnitsLess(a[1..], b[1..])))
  }

  predicate KeyLess(a: string, b: string) {
    UnitsLess(Encode(a), Encode(b))
  }

  predicate KeyAtMost(a: string, b: string) {
    a == b || KeyLess(a, b)
  }

  // ----- UTF-16 is injective, so the order on keys is total

  /** No scalar value's encoding is a prefix of another's. */
  lemma CharEncodingPrefixFree(c: char, d: char, x: seq<Unit>, y: seq<Unit>)
    requires EncodeChar(c) + x == EncodeChar(d) + y
    ensures c == d && x == y
  {
    var l, r := EncodeChar(c) + x, EncodeChar(d) + y;
    assert l[0] == EncodeChar(c)[0] && r[0] == EncodeChar(d)[0];
    assert |EncodeChar(c)| == |EncodeChar(d)|;
    if |EncodeChar(c)| == 2 {
      assert l[1] == EncodeChar(c)[1] && r[1] == EncodeChar(d)[1];
    }
    assert c as int == d as int;
    assert x == l[|EncodeChar(c)|..] && y == r[|EncodeChar(d)|..];
  }

  lemma {:induction false} EncodeInjective(a: string, b: string)
    requires Encode(a) == Encode(b)
    ensures a == b
  {
    if a != [] && b != [] {
      CharEncodingPrefixFree(a[0], b[0], Encode(a[1..]), Encode(b[1..]));
      EncodeInjective(a[1..], b[1..]);
      assert a == [a[0]] + a[1..] && b == [b[0]] + b[1..];
    }
  }

  lemma {:induction false} UnitsLessTotal(a: seq<Unit>, b: seq<Unit>)
    ensures !(UnitsLess(a, b) && UnitsLess(b, a))
    ensures a == b <==> !UnitsLess(a, b) && !UnitsLess(b, a)
  {
    if a != [] && b != [] {
      UnitsLessTotal(a[1..], b[1..]);
      assert a == [a[0]] + a[1..] && b == [b[0]] + b[1..];
    }
  }

  lemma {:induction false} UnitsLessTransitive(a: seq<Unit>, b: seq<Unit>, c: seq<Unit>)
    requires UnitsLess(a, b) && UnitsLess(b, c)
    ensures UnitsLess(a, c)
  {
    if a != [] && a[0] == b[0] == c[0] {
      UnitsLessTransitive(a[1..], b[1..], c[1..]);
    }
  }

  /** Keys are strictly and totally ordered: exactly one of <, ==, > holds. */
  lemma KeyOrderTotal(a: string, b: string)
    ensures !(KeyLess(a, b) && KeyLess(b, a))
    ensures a == b <==> !KeyLess(a, b) && !KeyLess(b, a)
  {
    UnitsLessTotal(Encode(a), Encode(b));
    if Encode(a) == Encode(b) {
      EncodeInjective(a, b);
    }
  }

  lemma KeyAtMostTransitive(a: string, b: string, c: string)
    requires KeyAtMost(a, b) && KeyAtMost(b, c)
    ensures KeyAtMost(a, c)
  {
    if a != b && b != c {
      UnitsLessTransitive(Encode(a), Encode(b), Encode(c));
    }
  }

  // ----- where the order departs from code point order

  predicate CodePointLess(a: string, b: string) {
    b != [] && (a == [] || a[0] < b[0] || (a[0] == b[0] && CodePointLess(a[1..], b[1..])))
  }

  predicate AboveSurrogates(c: char) {
    0xE000 <= c as int < 0x1_0000
  }

  predicate Supplementary(c: char) {
    0x1_0000 <= c as int
  }

  /** At the first difference, one side is in U+E000..U+FFFF and the other supplementary. */
  predicate Straddles(a: string, b: string) {
    a != [] && b != [] &&
    if a[0] == b[0] then Straddles(a[1..], b[1..])
    else (AboveSurrogates(a[0]) && Supplementary(b[0])) || (Supplementary(a[0]) && AboveSurrogates(b[0]))
  }

  lemma {:induction false} UnitsLessCommonPrefix(p: seq<Unit>, a: seq<Unit>, b: seq<Unit>)
    ensures UnitsLess(p + a, p + b) <==> UnitsLess(a, b)
  {
    if p == [] {
      assert p + a == a && p + b == b;
    } else {
      assert (p + a)[1..] == p[1..] + a && (p + b)[1..] == p[1..] + b;
      UnitsLessCommonPrefix(p[1..], a, b);
    }
  }

  lemma CharsCompareByUnit(c: char, d: char, x: seq<Unit>, y: seq<Unit>)
    requires c != d
    ensures UnitsLess(EncodeChar(c) + x, EncodeChar(d) + y) <==>
            if AboveSurrogates(c) && Supplementary(d) then false
            else if Supplementary(c) && AboveSurrogates(d) then true
            else c < d
  {
    var l, r := EncodeChar(c) + x, EncodeChar(d) + y;
    assert l[0] == EncodeChar(c)[0] && r[0] == EncodeChar(d)[0];
    if Supplementary(c) && Supplementary(d) {
      assert l[1..][0] == EncodeChar(c)[1] && r[1..][0] == EncodeChar(d)[1];
    }
  }

  /** The two orders agree on a pair of keys exactly when the pair does not straddle. */
  lemma {:induction false} OrdersAgreeUnlessStraddling(a: string, b: string)
    ensures (KeyLess(a, b) <==> CodePointLess(a, b)) <==> !Straddles(a, b)
  {
    if a != [] && b != [] {
      if a[0] == b[0] {
        UnitsLessCommonPrefix(EncodeChar(a[0]), Encode(a[1..]), Encode(b[1..]));
        OrdersAgreeUnlessStraddling(a[1..], b[1..]);
      } else {
        CharsCompareByUnit(a[0], b[0], Encode(a[1..]), Encode(b[1..]));
      }
    } else if b != [] {
      assert |EncodeChar(b[0])| > 0;
    } else if a != [] {
      assert |EncodeChar(a[0])| > 0;
    }
  }

  // ----- sorting keys

  predicate Sorted(keys: seq<string>) {
    forall i, j :: 0 <= i < j < |keys| ==> KeyAtMost(keys[i], keys[j])
  }

  function Insert(key: string, keys: seq<string>): (r: seq<string>)
    ensures multiset(r) == multiset{key} + multiset(keys)
  {
    if keys == [] || KeyAtMost(key, keys[0]) then [key] + keys
    else
      assert keys == [keys[0]] + keys[1..];
      [keys[0]] + Insert(key, keys[1..])
  }

  /** Stands for the library sort; SortedPermutationUnique says no other sort can differ. */
  function SortKeys(keys: seq<string>): (r: seq<string>)
    ensures multiset(r) == multiset(keys)
  {
    if keys == [] then []
    else
      assert keys == [keys[0]] + keys[1..];
      Insert(keys[0], SortKeys(keys[1..]))
  }

  lemma {:induction false} InsertSorted(key: string, keys: seq<string>)
    requires Sorted(keys)
    ensures Sorted(Insert(key, keys))
  {
    if keys == [] {
    } else if KeyAtMost(key, keys[0]) {
      forall j | 0 <= j < |keys| ensures KeyAtMost(key, keys[j]) {
        KeyAtMostTransitive(key, keys[0], keys[j]);
      }
    } else {
      KeyOrderTotal(key, keys[0]);
      InsertSorted(key, keys[1..]);
      var rest := Insert(key, keys[1..]);
      forall j | 0 <= j < |rest| ensures KeyAtMost(keys[0], rest[j]) {
        assert rest[j] in multiset(rest);
        assert rest[j] == key || rest[j] in keys[1..];
      }
    }
  }

  lemma {:induction false} SortKeysSorted(keys: seq<string>)
    ensures Sorted(SortKeys(keys))
  {
    if keys != [] {
      SortKeysSorted(keys[1..]);
      InsertSorted(keys[0], SortKeys(keys[1..]));
    }
  }

  lemma HeadAndTail<T>(s: seq<T>)
    requires s != []
    ensures multiset(s) == multiset{s[0]} + multiset(s[1..])
    ensures multiset(s[1..]) == multiset(s) - multiset{s[0]}
  {
    assert s == [s[0]] + s[1..];
  }

  lemma SameHead(a: seq<string>, b: seq<string>)
    requires a != [] && b != [] && Sorted(a) && Sorted(b) && multiset(a) == multiset(b)
    ensures a[0] == b[0]
  {
    hide KeyLess;
    assert a[0] in multiset(b) && b[0] in multiset(a);
    assert KeyAtMost(a[0], b[0]) && KeyAtMost(b[0], a[0]);
    KeyOrderTotal(a[0], b[0]);
  }

  lemma SortedTail(a: seq<string>)
    requires a != [] && Sorted(a)
    ensures Sorted(a[1..])
  {
    hide KeyAtMost;
  }

  /** There is only one sorted arrangement of a collection of keys. */
  lemma {:induction false} SortedPermutationUnique(a: seq<string>, b: seq<string>)
    requires Sorted(a) && Sorted(b) && multiset(a) == multiset(b)
    ensures a == b
  {
    hide Sorted;
    if a == [] || b == [] {
      assert |multiset(a)| == |a| && |multiset(b)| == |b|;
    } else {
      SameHead(a, b);
      HeadAndTail(a);
      HeadAndTail(b);
      SortedTail(a);
      SortedTail(b);
      SortedPermutationUnique(a[1..], b[1..]);
      assert a == [a[0]] + a[1..] && b == [b[0]] + b[1..];
    }
  }
}
