/**
 * A reader for JSON text without whitespace (RFC 8259), and the round trip: the
 * canonical text of a value, followed by anything that cannot extend a number
 * token, reads back as exactly that value in normal form.
 */
module JsonReader {
  import opened Wrappers
  import opened CanonicalJson
  import NumberText

  /** What was read, and the text after it. */
  type Reading<T> = Option<(T, string)>

  // ----- strings

  function HexValue(c: char): Option<int> {
    if '0' <= c <= '9' then Some(c as int - 48)
    else if 'a' <= c <= 'f' then Some(c as int - 87)
    else if 'A' <= c <= 'F' then Some(c as int - 55)
    else None
  }

  /** Four hexadecimal digits naming a scalar value. */
  function ReadHex4(s: string): Option<char> {
    if |s| < 4 then None
    else
      var a :- HexValue(s[0]);
      var b :- HexValue(s[1]);
      var c :- HexValue(s[2]);
      var d :- HexValue(s[3]);
      var unit := 0x1000 * a + 0x100 * b + 0x10 * c + d;
      if 0 <= unit < 0xD800 || 0xE000 <= unit < 0x1_0000 then Some(unit as char) else None
  }

  /** One escape sequence or plain character of a string. */
  function ReadChar(s: string): (r: Reading<char>)
    ensures r.Some? ==> |r.value.1| < |s|
  {
    if s == [] || s[0] < ' ' || s[0] == '\"' then None
    else if s[0] != '\\' then Some((s[0], s[1..]))
    else if |s| < 2 then None
    else
      match s[1]
      case '\"' => Some(('\"', s[2..]))
      case '\\' => Some(('\\', s[2..]))
      case '/' => Some(('/', s[2..]))
      case 'b' => Some((8 as char, s[2..]))
      case 'f' => Some((12 as char, s[2..]))
      case 'n' => Some(('\n', s[2..]))
      case 'r' => Some(('\r', s[2..]))
      case 't' => Some(('\t', s[2..]))
      case 'u' =>
        var c :- ReadHex4(s[2..]);
        Some((c, s[6..]))
      case _ => None
  }

  /** The characters up to the closing quote. */
  function ReadChars(s: string): (r: Reading<string>)
    ensures r.Some? ==> |r.value.1| < |s|
    decreases |s|
  {
    if s != [] && s[0] == '\"' then Some(([], s[1..]))
    else
      var c :- ReadChar(s);
      var more :- ReadChars(c.1);
      Some(([c.0] + more.0, more.1))
  }

  // ----- values

  function NumberRun(s: string): (n: nat)
    ensures n <= |s|
  {
    if s == [] || !NumberText.NumberChar(s[0]) then 0 else 1 + NumberRun(s[1..])
  }

  function ReadLiteral(s: string, word: string, v: Json): (r: Reading<Json>)
    requires word != []
    ensures r.Some? ==> |r.value.1| < |s|
  {
    if word <= s then Some((v, s[|word|..])) else None
  }

  function ReadNumber(s: string): (r: Reading<Json>)
    ensures r.Some? ==> |r.value.1| < |s|
  {
    var n := NumberRun(s);
    if n == 0 then None
    else
      var x :- NumberText.ReadToken(s[..n]);
      Some((Num(x), s[n..]))
  }

  function ReadValue(s: string): (r: Reading<Json>)
    ensures r.Some? ==> |r.value.1| < |s|
    decreases |s|, 1
  {
    if s == [] then None
    else
      match s[0]
      case 'n' => ReadLiteral(s, "null", Null)
      case 't' => ReadLiteral(s, "true", Bool(true))
      case 'f' => ReadLiteral(s, "false", Bool(false))
      case '\"' =>
        var text :- ReadChars(s[1..]);
        Some((Str(text.0), text.1))
      case '[' =>
        var items :- ReadItems(s[1..], true);
        Some((Arr(items.0), items.1))
      case '{' =>
        var members :- ReadEntries(s[1..], true);
        Some((Obj(members.0), members.1))
      case _ => ReadNumber(s)
  }

  /** Items up to the closing bracket, each but the first after a comma. */
  function ReadItems(s: string, first: bool): (r: Reading<seq<Json>>)
    ensures r.Some? ==> |r.value.1| < |s|
    decreases |s|, 2
  {
    if s != [] && s[0] == ']' then Some(([], s[1..]))
    else if !first && (s == [] || s[0] != ',') then None
    else
      var item :- ReadValue(if first then s else s[1..]);
      var more :- ReadItems(item.1, false);
      Some(([item.0] + more.0, more.1))
  }

  function ReadEntry(s: string): (r: Reading<Member>)
    ensures r.Some? ==> |r.value.1| < |s|
    decreases |s|, 2
  {
    if s == [] || s[0] != '\"' then None
    else
      var key :- ReadChars(s[1..]);
      if key.1 == [] || key.1[0] != ':' then None
      else
        var value :- ReadValue(key.1[1..]);
        Some((Member(key.0, value.0), value.1))
  }

  function ReadEntries(s: string, first: bool): (r: Reading<seq<Member>>)
    ensures r.Some? ==> |r.value.1| < |s|
    decreases |s|, 3
  {
    if s != [] && s[0] == '}' then Some(([], s[1..]))
    else if !first && (s == [] || s[0] != ',') then None
    else
      var entry :- ReadEntry(if first then s else s[1..]);
      var more :- ReadEntries(entry.1, false);
      Some(([entry.0] + more.0, more.1))
  }

  // ----- the normal form: -0 is 0, and members stand in key order

  function Normal(v: Json): Json
    decreases v, 2
  {
    match v
    case Num(x) => Num(NumberText.Normal(x))
    case Arr(items) => Arr(NormalItems(items))
    case Obj(members) => Obj(NormalEntries(members, SortedKeys(members)))
    case _ => v
  }

  function NormalItems(items: seq<Json>): seq<Json>
    decreases items, 1
  {
    if items == [] then [] else [Normal(items[0])] + NormalItems(items[1..])
  }

  function NormalEntries(members: seq<Member>, keys: seq<string>): seq<Member>
    requires forall i :: 0 <= i < |keys| ==> keys[i] in Keys(members)
    decreases members, 1, |keys|
  {
    if keys == [] then []
    else [Member(keys[0], Normal(Lookup(members, keys[0])))] + NormalEntries(members, keys[1..])
  }

  // ----- round trip of strings

  lemma EscapedCharReads(c: char, rest: string)
    ensures ReadChar(EscapedChar(c) + rest) == Some((c, rest))
    ensures EscapedChar(c) != [] && EscapedChar(c)[0] != '\"'
  {
    var s := EscapedChar(c) + rest;
    if c < ' ' {
      if c in [8 as char, 9 as char, 10 as char, 12 as char, 13 as char] {
        assert s[2..] == rest;
      } else {
        assert s[2..][..4] == EscapedChar(c)[2..];
        assert s[6..] == rest;
      }
    } else if c == '\"' || c == '\\' {
      assert s[2..] == rest;
    } else {
      assert s[1..] == rest;
    }
  }

  lemma {:induction false} EscapedReads(text: string, rest: string)
    ensures ReadChars(Escaped(text) + ("\"" + rest)) == Some((text, rest))
  {
    hide ReadChar, EscapedChar;
    var tail := "\"" + rest;
    if text == [] {
      assert Escaped(text) + tail == tail;
      assert tail[1..] == rest;
    } else {
      var more := Escaped(text[1..]) + tail;
      assert Escaped(text) + tail == EscapedChar(text[0]) + more;
      EscapedCharReads(text[0], more);
      EscapedReads(text[1..], rest);
      assert text == [text[0]] + text[1..];
    }
  }

  // ----- round trip of values

  /** Text that cannot extend a number token standing before it. */
  predicate Terminated(rest: string) {
    rest == [] || !NumberText.NumberChar(rest[0])
  }

  lemma {:induction false} NumberRunStops(token: string, rest: string)
    requires NumberText.NumberChars(token) && Terminated(rest)
    ensures NumberRun(token + rest) == |token|
  {
    if token == [] {
      assert token + rest == rest;
    } else {
      assert (token + rest)[1..] == token[1..] + rest;
      NumberRunStops(token[1..], rest);
    }
  }

  lemma NumberReads(x: Double, rest: string)
    requires NumberText.Text(x).Ok? && Terminated(rest)
    ensures ReadValue(NumberText.Text(x).value + rest) == Some((Num(NumberText.Normal(x)), rest))
  {
    hide NumberText.Text, NumberText.ReadToken, NumberRun;
    var token := NumberText.Text(x).value;
    NumberText.NumberReadsBack(x);
    NumberRunStops(token, rest);
    var s := token + rest;
    assert s[..|token|] == token && s[|token|..] == rest;
    assert s[0] == token[0];
    assert ReadValue(s) == ReadNumber(s);
  }

  lemma LiteralReads(word: string, v: Json, rest: string)
    requires word != []
    ensures ReadLiteral(word + rest, word, v) == Some((v, rest))
  {
    assert (word + rest)[..|word|] == word && (word + rest)[|word|..] == rest;
  }

  /** No value's text starts like the end of an array or object. */
  lemma ListStarts(v: Json)
    requires (v.Arr? || v.Obj?) && ValueText(v).Ok?
    ensures ValueText(v).value != [] && ValueText(v).value[0] == if v.Arr? then '[' else '{'
  {
    hide ItemsText, EntriesText, SortedKeys;
  }

  lemma NumberStarts(v: Json)
    requires v.Num? && ValueText(v).Ok?
    ensures ValueText(v).value != [] && ValueText(v).value[0] != ']' && ValueText(v).value[0] != '}'
  {
    hide NumberText.Text, ItemsText, EntriesText, SortedKeys;
    NumberText.NumberReadsBack(v.number);
  }

  lemma ValueStarts(v: Json)
    requires ValueText(v).Ok?
    ensures ValueText(v).value != []
    ensures ValueText(v).value[0] != ']' && ValueText(v).value[0] != '}'
  {
    match v
    case Null =>
    case Bool(_) =>
    case Str(_) =>
    case Num(_) =>
      hide ValueText;
      NumberStarts(v);
    case _ =>
      hide ValueText;
      ListStarts(v);
  }

  lemma TextReads(text: string, rest: string)
    ensures ReadValue(Quoted(text) + rest) == Some((Str(text), rest))
  {
    hide ReadChars, Escaped;
    EscapedReads(text, rest);
    assert (Quoted(text) + rest)[1..] == Escaped(text) + ("\"" + rest);
  }

  lemma BracketReads(body: string, items: seq<Json>, rest: string)
    requires ReadItems(body + rest, true) == Some((items, rest))
    ensures ReadValue("[" + body + rest) == Some((Arr(items), rest))
  {
    hide ReadItems;
    assert ("[" + body + rest)[1..] == body + rest;
  }

  lemma BraceReads(body: string, members: seq<Member>, rest: string)
    requires ReadEntries(body + rest, true) == Some((members, rest))
    ensures ReadValue("{" + body + rest) == Some((Obj(members), rest))
  {
    hide ReadEntries;
    assert ("{" + body + rest)[1..] == body + rest;
  }

  lemma WordReads(v: Json, rest: string)
    requires v.Null? || v.Bool?
    ensures ReadValue(ValueText(v).value + rest) == Some((v, rest))
  {
    match v
    case Null => LiteralReads("null", v, rest);
    case Bool(b) => LiteralReads(if b then "true" else "false", v, rest);
  }

  lemma {:induction false} ValueReads(v: Json, rest: string)
    requires ValueText(v).Ok? && Terminated(rest)
    ensures ReadValue(ValueText(v).value + rest) == Some((Normal(v), rest))
    decreases v, 2
  {
    hide NumberText.Text, ReadValue, ReadItems, ReadEntries, ItemsText, EntriesText, SortedKeys, Quoted;
    match v
    case Num(x) => NumberReads(x, rest);
    case Str(text) => TextReads(text, rest);
    case Arr(items) =>
      ItemsRead(items, true, rest);
      BracketReads(ItemsText(items, true).value, NormalItems(items), rest);
    case Obj(members) =>
      var keys := SortedKeys(members);
      EntriesRead(members, keys, true, rest);
      BraceReads(EntriesText(members, keys, true).value, NormalEntries(members, keys), rest);
    case _ => WordReads(v, rest);
  }

  lemma {:induction false} ItemsRead(items: seq<Json>, first: bool, rest: string)
    requires ItemsText(items, first).Ok?
    ensures ReadItems(ItemsText(items, first).value + rest, first) == Some((NormalItems(items), rest))
    decreases items, 1
  {
    hide ReadValue, ValueText, Normal;
    var s := ItemsText(items, first).value + rest;
    if items == [] {
      assert s[1..] == rest;
    } else {
      var item := ValueText(items[0]).value;
      var after := ItemsText(items[1..], false).value + rest;
      ItemsTextStarts(items[1..], false);
      assert Terminated(after);
      ValueStarts(items[0]);
      ValueReads(items[0], after);
      ItemsRead(items[1..], false, rest);
      if first {
        assert s == item + after;
      } else {
        assert s == "," + (item + after);
        assert s[1..] == item + after;
      }
    }
  }

  lemma ItemsTextStarts(items: seq<Json>, first: bool)
    requires ItemsText(items, first).Ok? && !first
    ensures ItemsText(items, first).value != [] && ItemsText(items, first).value[0] in ",]"
  {
    hide ValueText;
  }

  lemma EntriesTextStarts(members: seq<Member>, keys: seq<string>, first: bool)
    requires forall i :: 0 <= i < |keys| ==> keys[i] in Keys(members)
    requires EntriesText(members, keys, first).Ok? && !first
    ensures EntriesText(members, keys, first).value != []
    ensures EntriesText(members, keys, first).value[0] in ",}"
  {
    hide EntryText;
  }

  lemma {:induction false} EntryReads(members: seq<Member>, key: string, rest: string)
    requires key in Keys(members) && EntryText(members, key).Ok? && Terminated(rest)
    ensures EntryText(members, key).value != [] && EntryText(members, key).value[0] == '\"'
    ensures ReadEntry(EntryText(members, key).value + rest) == Some((Member(key, Normal(Lookup(members, key))), rest))
    decreases members, 0
  {
    hide ReadValue, ReadChars, ValueText, Normal, Escaped, Keys;
    var value := ValueText(Lookup(members, key)).value;
    var s := EntryText(members, key).value + rest;
    var after := ":" + (value + rest);
    EscapedReads(key, after);
    assert s[1..] == Escaped(key) + ("\"" + after);
    assert after[1..] == value + rest;
    ValueReads(Lookup(members, key), rest);
  }

  lemma {:induction false} EntriesRead(members: seq<Member>, keys: seq<string>, first: bool, rest: string)
    requires forall i :: 0 <= i < |keys| ==> keys[i] in Keys(members)
    requires EntriesText(members, keys, first).Ok?
    ensures ReadEntries(EntriesText(members, keys, first).value + rest, first) ==
            Some((NormalEntries(members, keys), rest))
    decreases members, 1, |keys|
  {
    hide ReadEntry, EntryText, Normal, Keys;
    var s := EntriesText(members, keys, first).value + rest;
    if keys == [] {
      assert s[1..] == rest;
    } else {
      var entry := EntryText(members, keys[0]).value;
      var after := EntriesText(members, keys[1..], false).value + rest;
      EntriesTextStarts(members, keys[1..], false);
      assert Terminated(after);
      EntryReads(members, keys[0], after);
      EntriesRead(members, keys[1..], false, rest);
      if first {
        assert s == entry + after;
      } else {
        assert s == "," + (entry + after);
        assert s[1..] == entry + after;
      }
    }
  }
}
