/**
 * Which of the texts that read back as a value the canonical printer writes: the shortest
 * spelling of every string, with lower-case hexadecimal digits, and the members of every
 * object in strictly increasing key order.
 */
module CanonicalSpelling {
  import opened Wrappers
  import opened KeyOrder
  import opened CanonicalJson
  import opened JsonReader
  import opened JsonIdentity
  import NumberText

  // ----- one character

  /** A character that stands for itself, or an escape sequence without 'A' to 'F'. */
  predicate LowerPiece(e: string) {
    e != [] && e[0] == '\\' ==> forall i :: 0 <= i < |e| ==> !('A' <= e[i] <= 'F')
  }

  lemma PieceReads(c: char)
    ensures ReadChar(EscapedChar(c)) == Some((c, "")) && LowerPiece(EscapedChar(c))
  {
    EscapedCharReads(c, "");
    assert EscapedChar(c) + "" == EscapedChar(c);
    hide ReadChar;
  }

  /** No escape sequence or character that reads as c is shorter than the printed one. */
  lemma ShortestChar(c: char, e: string)
    requires ReadChar(e) == Some((c, ""))
    ensures |EscapedChar(c)| <= |e|
  {
    hide HexValue, HexDigit;
  }

  lemma HexValueLower(a: char, b: char)
    requires HexValue(a).Some? && HexValue(a) == HexValue(b)
    requires !('A' <= a <= 'F') && !('A' <= b <= 'F')
    ensures a == b
  {
  }

  lemma Hex4Value(e: string)
    requires |e| == 4 && ReadHex4(e).Some?
    ensures forall i :: 0 <= i < 4 ==> HexValue(e[i]).Some? && 0 <= HexValue(e[i]).value < 16
    ensures ReadHex4(e).value as int ==
            0x1000 * HexValue(e[0]).value + 0x100 * HexValue(e[1]).value + 0x10 * HexValue(e[2]).value + HexValue(e[3]).value
  {
    assert forall i :: 0 <= i < 4 ==> (HexValue(e[i]).Some? ==> 0 <= HexValue(e[i]).value < 16);
    hide HexValue;
  }

  lemma FirstOfFour(a: int, b: int, low: int, other: int)
    requires 0 <= low < 0x1000 && 0 <= other < 0x1000 && 0x1000 * a + low == 0x1000 * b + other
    ensures a == b
  {
  }

  lemma FirstOfThree(a: int, b: int, low: int, other: int)
    requires 0 <= low < 0x100 && 0 <= other < 0x100 && 0x100 * a + low == 0x100 * b + other
    ensures a == b
  {
  }

  /** Four lower-case hexadecimal digits are determined by the character that they name. */
  lemma Hex4Unique(e: string, f: string)
    requires |e| == |f| == 4 && ReadHex4(e).Some? && ReadHex4(e) == ReadHex4(f)
    requires forall i :: 0 <= i < 4 ==> !('A' <= e[i] <= 'F') && !('A' <= f[i] <= 'F')
    ensures e == f
  {
    Hex4Value(e);
    Hex4Value(f);
    hide HexValue, ReadHex4;
    FirstOfFour(HexValue(e[0]).value, HexValue(f[0]).value,
              0x100 * HexValue(e[1]).value + 0x10 * HexValue(e[2]).value + HexValue(e[3]).value,
              0x100 * HexValue(f[1]).value + 0x10 * HexValue(f[2]).value + HexValue(f[3]).value);
    FirstOfThree(HexValue(e[1]).value, HexValue(f[1]).value,
              0x10 * HexValue(e[2]).value + HexValue(e[3]).value,
              0x10 * HexValue(f[2]).value + HexValue(f[3]).value);
    HexValueLower(e[0], f[0]);
    HexValueLower(e[1], f[1]);
    HexValueLower(e[2], f[2]);
    HexValueLower(e[3], f[3]);
  }

  /** The printed character is the only spelling of its length without upper-case hexadecimal digits. */
  lemma CharUnique(c: char, e: string)
    requires ReadChar(e) == Some((c, "")) && LowerPiece(e) && |e| == |EscapedChar(c)|
    ensures e == EscapedChar(c)
  {
    PieceReads(c);
    var f := EscapedChar(c);
    if |e| == 6 {
      LongPiece(e, c);
      LongPiece(f, c);
      Hex4Unique(e[2..], f[2..]);
      assert e == e[..2] + e[2..] && f == f[..2] + f[2..];
    }
    hide ReadHex4;
  }

  lemma LongPiece(e: string, c: char)
    requires ReadChar(e) == Some((c, "")) && |e| == 6
    ensures e[..2] == "\\u" && ReadHex4(e[2..]) == Some(c)
  {
    hide ReadHex4;
    assert forall i :: 2 <= i < 6 ==> e[2..][i - 2] == e[i];
  }

  /** Reading one character looks at nothing behind it. */
  lemma ReadCharLocal(x: string, y: string)
    requires ReadChar(x).Some?
    ensures var k := |x| - |ReadChar(x).value.1|;
            && 0 < k <= |x| && ReadChar(x).value.1 == x[k..]
            && ReadChar(x[..k] + y) == Some((ReadChar(x).value.0, y))
  {
    var k := |x| - |ReadChar(x).value.1|;
    var z := x[..k] + y;
    assert z[k..] == y;
    hide HexValue;
    if k == 6 {
      assert z[2..][..4] == x[2..][..4];
      Hex4Local(z[2..], x[2..]);
    }
    hide ReadHex4;
  }

  lemma Hex4Local(a: string, b: string)
    requires |a| >= 4 && |b| >= 4 && a[..4] == b[..4]
    ensures ReadHex4(a) == ReadHex4(b)
  {
    assert forall i :: 0 <= i < 4 ==> a[i] == a[..4][i] && b[i] == b[..4][i];
  }

  // ----- whole strings

  /** Text that reads as s between quotes. */
  predicate Spells(t: string, s: string) {
    ReadChars(t + "\"") == Some((s, ""))
  }

  /** No escape sequence of the text has an upper-case hexadecimal digit. */
  predicate LowerHex(t: string)
    decreases |t|
  {
    t == [] ||
    match ReadChar(t)
    case Some((_, rest)) => LowerPiece(t[..|t| - |rest|]) && LowerHex(rest)
    case None => false
  }

  lemma NothingSpelled(t: string)
    requires Spells(t, "")
    ensures t == ""
  {
    hide ReadChar;
  }

  /** A spelling is a spelling of the first character and one of the others. */
  lemma SpellingSplits(t: string, s: string) returns (e: string, u: string)
    requires Spells(t, s) && s != []
    ensures t == e + u && ReadChar(e) == Some((s[0], "")) && ReadChar(t) == Some((s[0], u)) && Spells(u, s[1..])
  {
    hide ReadChar;
    var full := t + "\"";
    var r := ReadChar(full).value.1;
    ReadCharLocal(full, "");
    var k := |full| - |r|;
    e, u := t[..k], t[k..];
    assert r == u + "\"" && full[..k] == e && e + "" == e && e + u == t;
    ReadCharLocal(full, u);
  }

  lemma {:induction false} EscapedSpells(s: string)
    ensures Spells(Escaped(s), s) && LowerHex(Escaped(s))
  {
    EscapedReads(s, "");
    assert "\"" + "" == "\"";
    if s != [] {
      EscapedSpells(s[1..]);
      EscapedCharReads(s[0], Escaped(s[1..]));
      PieceReads(s[0]);
      hide ReadChar, EscapedChar, ReadChars;
      assert Escaped(s)[..|EscapedChar(s[0])|] == EscapedChar(s[0]);
    }
  }

  /** No text that reads as s is shorter than the printed one. */
  lemma {:induction false} EscapedShortest(t: string, s: string)
    requires Spells(t, s)
    ensures |Escaped(s)| <= |t|
  {
    if s != [] {
      var e, u := SpellingSplits(t, s);
      ShortestChar(s[0], e);
      EscapedShortest(u, s[1..]);
    }
  }

  lemma {:induction false} EscapedUnique(t: string, s: string)
    requires Spells(t, s) && LowerHex(t) && |t| == |Escaped(s)|
    ensures t == Escaped(s)
  {
    if s == [] {
      NothingSpelled(t);
    } else {
      var e, u := SpellingSplits(t, s);
      ShortestChar(s[0], e);
      EscapedShortest(u, s[1..]);
      assert t[..|t| - |u|] == e;
      hide ReadChar, EscapedChar, Spells;
      CharUnique(s[0], e);
      EscapedUnique(u, s[1..]);
    }
  }

  /** The printed text between the quotes is the one shortest spelling without upper-case hexadecimal digits. */
  lemma EscapedExactly(t: string, s: string)
    ensures t == Escaped(s) <==> Spells(t, s) && LowerHex(t) && forall u :: Spells(u, s) ==> |t| <= |u|
  {
    EscapedSpells(s);
    hide Spells, LowerHex, Escaped;
    forall u | Spells(u, s) ensures |Escaped(s)| <= |u| {
      EscapedShortest(u, s);
    }
    if Spells(t, s) && LowerHex(t) && forall u :: Spells(u, s) ==> |t| <= |u| {
      EscapedShortest(t, s);
      EscapedUnique(t, s);
    }
  }

  // ----- what is read back

  /** The members of every object stand in strictly increasing key order. */
  predicate Ordered(v: Json)
    decreases v
  {
    match v
    case Arr(items) => forall i :: 0 <= i < |items| ==> Ordered(items[i])
    case Obj(members) =>
      && (forall i, j :: 0 <= i < j < |members| ==> KeyLess(members[i].key, members[j].key))
      && forall i :: 0 <= i < |members| ==> Ordered(members[i].value)
    case _ => true
  }

  lemma {:induction false} NormalOrdered(v: Json)
    requires WellFormed(v)
    ensures Ordered(Normal(v)) && WellFormed(Normal(v))
    decreases v
  {
    match v
    case Arr(items) =>
      hide NormalItems;
      NormalItemsAt(items);
      forall i | 0 <= i < |items| ensures Ordered(Normal(items[i])) && WellFormed(Normal(items[i])) {
        NormalOrdered(items[i]);
      }
    case Obj(members) => MembersOrdered(members);
    case _ =>
  }

  lemma {:induction false} MembersOrdered(members: seq<Member>)
    requires WellFormed(Obj(members))
    ensures Ordered(Normal(Obj(members))) && WellFormed(Normal(Obj(members)))
    decreases members
  {
    hide NormalEntries, SortedKeys, Keys, Lookup, KeyLess, Distinct;
    var keys := SortedKeys(members);
    var normal := NormalEntries(members, keys);
    NormalEntriesKeys(members, keys);
    SortedStrictly(members);
    forall i | 0 <= i < |normal| ensures Ordered(normal[i].value) && WellFormed(normal[i].value) {
      WellFormedLookup(members, keys[i]);
      NormalOrdered(Lookup(members, keys[i]));
    }
    assert Distinct(keys) by { StrictlyIsDistinct(keys); }
  }

  lemma StrictlyIsDistinct(keys: seq<string>)
    requires forall i, j :: 0 <= i < j < |keys| ==> KeyLess(keys[i], keys[j])
    ensures Distinct(keys)
  {
    hide KeyLess;
    forall i, j | 0 <= i < j < |keys| ensures keys[i] != keys[j] {
      KeyOrderTotal(keys[i], keys[j]);
    }
  }

  lemma {:induction false} SortedStrictly(members: seq<Member>)
    requires Distinct(Keys(members))
    ensures var keys := SortedKeys(members); forall i, j :: 0 <= i < j < |keys| ==> KeyLess(keys[i], keys[j])
  {
    hide KeyLess, Keys;
    var keys := SortedKeys(members);
    SortKeysSorted(Keys(members));
    forall i, j | 0 <= i < j < |keys| ensures KeyLess(keys[i], keys[j]) {
      assert KeyAtMost(keys[i], keys[j]);
      if keys[i] == keys[j] {
        OccursOnce(Keys(members), keys[i]);
        OccursTwice(keys, i, j);
      }
    }
  }

  lemma OccursTwice(keys: seq<string>, i: nat, j: nat)
    requires i < j < |keys| && keys[i] == keys[j]
    ensures multiset(keys)[keys[i]] >= 2
  {
    assert keys == keys[..j] + ([keys[j]] + keys[j + 1..]);
    assert keys[..j][i] == keys[i];
    assert keys[i] in multiset(keys[..j]);
  }

  /** Canonical text reads as a value that is the same as the printed one, with its members in order. */
  lemma CanonicalTextMeans(v: Json)
    requires WellFormed(v) && ValueText(v).Ok?
    ensures ReadValue(ValueText(v).value) == Some((Normal(v), ""))
    ensures Same(Normal(v), v) && Ordered(Normal(v))
  {
    CanonicalTextStable(v);
    NormalOrdered(v);
    hide ValueText, ReadValue, Same, Ordered, Normal;
    CanonicalTextStable(Normal(v));
    SameNormalAlike(Normal(v), v);
  }

  // ----- what cannot be printed

  /** The numbers of a value, in the order in which they are printed. */
  function Numbers(v: Json): seq<Double>
    decreases v, 2
  {
    match v
    case Num(x) => [x]
    case Arr(items) => ItemNumbers(items)
    case Obj(members) => EntryNumbers(members, SortedKeys(members))
    case _ => []
  }

  function ItemNumbers(items: seq<Json>): seq<Double>
    decreases items, 1
  {
    if items == [] then [] else Numbers(items[0]) + ItemNumbers(items[1..])
  }

  function EntryNumbers(members: seq<Member>, keys: seq<string>): seq<Double>
    requires forall i :: 0 <= i < |keys| ==> keys[i] in Keys(members)
    decreases members, 1, |keys|
  {
    if keys == [] then [] else Numbers(Lookup(members, keys[0])) + EntryNumbers(members, keys[1..])
  }

  /** The i-th number is the first that cannot be printed. */
  predicate FirstUnprintable(numbers: seq<Double>, i: nat) {
    i < |numbers| && !Finite(numbers[i]) && forall j :: 0 <= j < i ==> Finite(numbers[j])
  }

  /** Text exactly when every number is finite; otherwise the error of the first that is not. */
  ghost predicate Fails(numbers: seq<Double>, r: Result<string, Error>) {
    if forall i :: 0 <= i < |numbers| ==> Finite(numbers[i]) then r.Ok?
    else
      exists i: nat :: FirstUnprintable(numbers, i) &&
        r == Err(if numbers[i].NotFinite? then NumberText.NotFiniteNumber else NumberText.NotRepresentableNumber)
  }

  lemma FailsJoined(a: seq<Double>, b: seq<Double>, r: Result<string, Error>, s: Result<string, Error>)
    requires Fails(a, r)
    ensures r.Err? ==> Fails(a + b, r)
    ensures r.Ok? && Fails(b, s) ==> Fails(a + b, s)
  {
    var all := a + b;
    if r.Err? {
      var i: nat :| FirstUnprintable(a, i) && r == Err(if a[i].NotFinite? then NumberText.NotFiniteNumber else NumberText.NotRepresentableNumber);
      assert all[i] == a[i] && FirstUnprintable(all, i);
    } else if Fails(b, s) {
      assert forall i :: 0 <= i < |b| ==> all[|a| + i] == b[i];
      if s.Err? {
        var i: nat :| FirstUnprintable(b, i) && s == Err(if b[i].NotFinite? then NumberText.NotFiniteNumber else NumberText.NotRepresentableNumber);
        assert FirstUnprintable(all, |a| + i);
      }
    }
  }

  lemma FailsAlike(numbers: seq<Double>, r: Result<string, Error>, s: Result<string, Error>)
    requires Fails(numbers, r) && (if r.Ok? then s.Ok? else s == r)
    ensures Fails(numbers, s)
  {
  }

  /** The printer fails exactly on numbers that no JSON text can hold, and names the first one it meets. */
  lemma {:induction false} FailsExactly(v: Json)
    ensures Fails(Numbers(v), ValueText(v))
    decreases v, 2
  {
    match v
    case Num(x) =>
      if !Finite(x) {
        assert FirstUnprintable([x], 0);
      }
    case Arr(items) =>
      ItemsFail(items, true);
      hide Fails, ItemsText, ItemNumbers;
      FailsAlike(ItemNumbers(items), ItemsText(items, true), ValueText(v));
    case Obj(members) =>
      EntriesFail(members, SortedKeys(members), true);
      hide Fails, EntriesText, EntryNumbers, SortedKeys;
      FailsAlike(EntryNumbers(members, SortedKeys(members)), EntriesText(members, SortedKeys(members), true), ValueText(v));
    case _ =>
  }

  lemma {:induction false} ItemsFail(items: seq<Json>, first: bool)
    ensures Fails(ItemNumbers(items), ItemsText(items, first))
    decreases items, 1
  {
    if items != [] {
      FailsExactly(items[0]);
      ItemsFail(items[1..], false);
      hide Fails, ValueText, Numbers;
      FailsJoined(Numbers(items[0]), ItemNumbers(items[1..]), ValueText(items[0]), ItemsText(items[1..], false));
      if ValueText(items[0]).Ok? {
        FailsAlike(ItemNumbers(items), ItemsText(items[1..], false), ItemsText(items, first));
      }
    }
  }

  lemma {:induction false} EntriesFail(members: seq<Member>, keys: seq<string>, first: bool)
    requires forall i :: 0 <= i < |keys| ==> keys[i] in Keys(members)
    ensures Fails(EntryNumbers(members, keys), EntriesText(members, keys, first))
    decreases members, 1, |keys|
  {
    if keys != [] {
      var value := Lookup(members, keys[0]);
      FailsExactly(value);
      EntriesFail(members, keys[1..], false);
      hide Fails, ValueText, Numbers, Lookup, Keys;
      FailsJoined(Numbers(value), EntryNumbers(members, keys[1..]), ValueText(value), EntriesText(members, keys[1..], false));
      assert EntryText(members, keys[0]).Ok? == ValueText(value).Ok?;
      if ValueText(value).Ok? {
        FailsAlike(EntryNumbers(members, keys), EntriesText(members, keys[1..], false), EntriesText(members, keys, first));
      }
    }
  }
}
