/**
 * The canonical JSON printer (cli/src/canonical_json.rs), following sections
 * 3.2.2 and 3.2.3 of RFC 8785: keys sorted by UTF-16 code unit, ECMAScript
 * string escapes and number layout, no whitespace.
 */
module CanonicalJson {
  import opened Wrappers
  import opened KeyOrder
  import NumberText

  type Double = x: NumberText.Number | NumberText.WellFormed(x) witness NumberText.NotFinite
  type Error = NumberText.Error

  /** A parsed JSON value; the members of an object stand in map iteration order. */
  datatype Json =
    | Null
    | Bool(b: bool)
    | Num(number: Double)
    | Str(text: string)
    | Arr(items: seq<Json>)
    | Obj(members: seq<Member>)

  datatype Member = Member(key: string, value: Json)

  function Keys(members: seq<Member>): (keys: seq<string>)
    ensures |keys| == |members|
    ensures forall i :: 0 <= i < |members| ==> keys[i] == members[i].key
  {
    if members == [] then [] else [members[0].key] + Keys(members[1..])
  }

  /** The value stored under a key. */
  function Lookup(members: seq<Member>, key: string): (value: Json)
    requires key in Keys(members)
    ensures exists i :: 0 <= i < |members| && members[i] == Member(key, value)
  {
    if members[0].key == key then
      assert members[0] == Member(key, members[0].value);
      members[0].value
    else
      var value := Lookup(members[1..], key);
      var i :| 0 <= i < |members[1..]| && members[1..][i] == Member(key, value);
      assert members[i + 1] == Member(key, value);
      value
  }

  function SortedKeys(members: seq<Member>): (keys: seq<string>)
    ensures forall i :: 0 <= i < |keys| ==> keys[i] in Keys(members)
  {
    var keys := SortKeys(Keys(members));
    assert forall i :: 0 <= i < |keys| ==> keys[i] in multiset(keys);
    keys
  }

  // ----- text

  function HexDigit(d: int): char
    requires 0 <= d < 16
  {
    if d < 10 then (48 + d) as char else (87 + d) as char
  }

  function EscapedChar(c: char): string {
    if c == '\"' then "\\\""
    else if c == '\\' then "\\\\"
    else if c == 8 as char then "\\b"
    else if c == 12 as char then "\\f"
    else if c == '\n' then "\\n"
    else if c == '\r' then "\\r"
    else if c == '\t' then "\\t"
    else if c < ' ' then "\\u00" + [HexDigit(c as int / 16), HexDigit(c as int % 16)]
    else [c]
  }

  function Escaped(s: string): string {
    if s == [] then [] else EscapedChar(s[0]) + Escaped(s[1..])
  }

  function Quoted(s: string): string {
    "\"" + Escaped(s) + "\""
  }

  function ValueText(v: Json): Result<string, Error>
    decreases v, 2
  {
    match v
    case Null => Ok("null")
    case Bool(b) => Ok(if b then "true" else "false")
    case Num(number) => NumberText.Text(number)
    case Str(text) => Ok(Quoted(text))
    case Arr(items) =>
      var body :- ItemsText(items, true);
      Ok("[" + body)
    case Obj(members) =>
      var body :- EntriesText(members, SortedKeys(members), true);
      Ok("{" + body)
  }

  /** The rest of an array's text, up to and including the closing bracket. */
  function ItemsText(items: seq<Json>, first: bool): Result<string, Error>
    decreases items, 1
  {
    if items == [] then Ok("]")
    else
      var item :- ValueText(items[0]);
      var rest :- ItemsText(items[1..], false);
      Ok((if first then "" else ",") + item + rest)
  }

  /** The rest of an object's text: the entries of the given keys, and the closing brace. */
  function EntriesText(members: seq<Member>, keys: seq<string>, first: bool): Result<string, Error>
    requires forall i :: 0 <= i < |keys| ==> keys[i] in Keys(members)
    decreases members, 1, |keys|
  {
    if keys == [] then Ok("}")
    else
      var entry :- EntryText(members, keys[0]);
      var rest :- EntriesText(members, keys[1..], false);
      Ok((if first then "" else ",") + entry + rest)
  }

  function EntryText(members: seq<Member>, key: string): Result<string, Error>
    requires key in Keys(members)
    decreases members, 0
  {
    var value :- ValueText(Lookup(members, key));
    Ok(Quoted(key) + ":" + value)
  }

  // ----- the writer appends that text to a buffer

  class TextBuffer {
    var text: string

    constructor ()
      ensures text == ""
    {
      text := "";
    }

    method Push(s: string)
      modifies this
      ensures text == old(text) + s
    {
      text := text + s;
    }
  }

  /** What a writer does to a buffer: append the text, or report the same error. */
  predicate Wrote(before: string, after: string, text: Result<string, Error>, r: Result<(), Error>) {
    match text
    case Ok(t) => r == Ok(()) && after == before + t
    case Err(e) => r == Err(e)
  }

  /** `text`, once `done` has been written and `rest` is still to come. */
  predicate Remaining(text: Result<string, Error>, done: string, rest: Result<string, Error>) {
    text == if rest.Ok? then Ok(done + rest.value) else rest
  }

  lemma ConcatAssociative(a: string, b: string, c: string)
    ensures (a + b) + c == a + (b + c)
  {
  }

  /** Writing one piece of what remains. */
  lemma RemainingStep(text: Result<string, Error>, done: string, piece: string, rest: Result<string, Error>)
    requires Remaining(text, done, if rest.Ok? then Ok(piece + rest.value) else rest)
    ensures Remaining(text, done + piece, rest)
  {
    if rest.Ok? {
      ConcatAssociative(done, piece, rest.value);
    }
  }

  lemma RemainingAll(text: Result<string, Error>)
    ensures Remaining(text, "", text)
  {
    if text.Ok? {
      assert "" + text.value == text.value;
    }
  }

  lemma RemainingError(text: Result<string, Error>, done: string, rest: Result<string, Error>)
    requires Remaining(text, done, rest) && rest.Err?
    ensures text == rest
  {
  }

  lemma NoItemsText(first: bool)
    ensures ItemsText([], first) == Ok("]")
  {
  }

  lemma NoEntriesText(members: seq<Member>, first: bool)
    ensures EntriesText(members, [], first) == Ok("}")
  {
  }

  function Comma(i: nat): string {
    if i == 0 then "" else ","
  }

  /** Once item i is written, the rest of the array remains; if it fails, so does the array. */
  lemma ItemWritten(items: seq<Json>, i: nat, done: string)
    requires i < |items|
    requires Remaining(ItemsText(items, true), done, ItemsText(items[i..], i == 0))
    ensures match ValueText(items[i])
            case Ok(t) => Remaining(ItemsText(items, true), done + Comma(i) + t, ItemsText(items[i + 1..], false))
            case Err(e) => ItemsText(items, true) == Err(e)
  {
    assert items[i..][0] == items[i] && items[i..][1..] == items[i + 1..];
    var all, item, rest := ItemsText(items, true), ValueText(items[i]), ItemsText(items[i + 1..], false);
    hide ItemsText, ValueText, Remaining;
    if item.Ok? {
      RemainingStep(all, done, Comma(i) + item.value, rest);
      ConcatAssociative(done, Comma(i), item.value);
    } else {
      RemainingError(all, done, item);
    }
  }

  /** The same for the entries of an object. */
  lemma EntryWritten(members: seq<Member>, keys: seq<string>, i: nat, done: string)
    requires i < |keys|
    requires forall j :: 0 <= j < |keys| ==> keys[j] in Keys(members)
    requires Remaining(EntriesText(members, keys, true), done, EntriesText(members, keys[i..], i == 0))
    ensures match EntryText(members, keys[i])
            case Ok(t) => Remaining(EntriesText(members, keys, true), done + Comma(i) + t, EntriesText(members, keys[i + 1..], false))
            case Err(e) => EntriesText(members, keys, true) == Err(e)
  {
    hide EntryText;
    assert keys[i..][0] == keys[i] && keys[i..][1..] == keys[i + 1..];
    var all, entry, rest :=
      EntriesText(members, keys, true), EntryText(members, keys[i]), EntriesText(members, keys[i + 1..], false);
    hide EntriesText, Remaining;
    if entry.Ok? {
      RemainingStep(all, done, Comma(i) + entry.value, rest);
      ConcatAssociative(done, Comma(i), entry.value);
    } else {
      RemainingError(all, done, entry);
    }
  }

  method WriteString(s: string, out: TextBuffer)
    modifies out
    ensures out.text == old(out.text) + Quoted(s)
  {
    hide EscapedChar;
    out.Push("\"");
    ghost var done := "\"";
    for i := 0 to |s|
      invariant out.text == old(out.text) + done
      invariant done + Escaped(s[i..]) == "\"" + Escaped(s)
    {
      out.Push(EscapedChar(s[i]));
      assert s[i..][0] == s[i] && s[i..][1..] == s[i + 1..];
      assert done + EscapedChar(s[i]) + Escaped(s[i + 1..]) == done + (EscapedChar(s[i]) + Escaped(s[i + 1..]));
      done := done + EscapedChar(s[i]);
    }
    out.Push("\"");
    assert done + [] == done;
  }

  method WriteItems(items: seq<Json>, out: TextBuffer) returns (r: Result<(), Error>)
    modifies out
    ensures Wrote(old(out.text), out.text, ItemsText(items, true), r)
    decreases items, 1
  {
    hide ItemsText, ValueText;
    ghost var done := "";
    assert items[0..] == items;
    RemainingAll(ItemsText(items, true));
    for i := 0 to |items|
      invariant out.text == old(out.text) + done
      invariant Remaining(ItemsText(items, true), done, ItemsText(items[i..], i == 0))
    {
      if i > 0 {
        out.Push(",");
      }
      assert out.text == old(out.text) + (done + Comma(i));
      var written := WriteValue(items[i], out);
      ItemWritten(items, i, done);
      if written.Err? {
        return written;
      }
      done := done + Comma(i) + ValueText(items[i]).value;
    }
    assert items[|items|..] == [];
    NoItemsText(|items| == 0);
    out.Push("]");
    r := Ok(());
  }

  method WriteEntry(members: seq<Member>, key: string, out: TextBuffer) returns (r: Result<(), Error>)
    requires key in Keys(members)
    modifies out
    ensures Wrote(old(out.text), out.text, EntryText(members, key), r)
    decreases members, 0
  {
    hide Quoted;
    WriteString(key, out);
    out.Push(":");
    r := WriteValue(Lookup(members, key), out);
  }

  method WriteEntries(members: seq<Member>, out: TextBuffer) returns (r: Result<(), Error>)
    modifies out
    ensures Wrote(old(out.text), out.text, EntriesText(members, SortedKeys(members), true), r)
    decreases members, 1
  {
    hide EntriesText, EntryText, SortedKeys, Keys;
    var keys := SortedKeys(members);
    ghost var all := EntriesText(members, keys, true);
    ghost var done := "";
    assert keys[0..] == keys;
    RemainingAll(all);
    for i := 0 to |keys|
      invariant out.text == old(out.text) + done
      invariant Remaining(all, done, EntriesText(members, keys[i..], i == 0))
    {
      if i > 0 {
        out.Push(",");
      }
      assert out.text == old(out.text) + (done + Comma(i));
      var written := WriteEntry(members, keys[i], out);
      EntryWritten(members, keys, i, done);
      if written.Err? {
        return written;
      }
      done := done + Comma(i) + EntryText(members, keys[i]).value;
    }
    assert keys[|keys|..] == [];
    NoEntriesText(members, |keys| == 0);
    out.Push("}");
    r := Ok(());
  }

  method WriteValue(v: Json, out: TextBuffer) returns (r: Result<(), Error>)
    modifies out
    ensures Wrote(old(out.text), out.text, ValueText(v), r)
    decreases v, 2
  {
    hide Quoted, ItemsText, EntriesText, SortedKeys, NumberText.Text;
    r := Ok(());
    match v {
      case Null => out.Push("null");
      case Bool(b) => out.Push(if b then "true" else "false");
      case Num(number) =>
        var text := NumberText.Text(number);
        if text.Err? {
          return Err(text.error);
        }
        out.Push(text.value);
      case Str(text) => WriteString(text, out);
      case Arr(items) =>
        out.Push("[");
        r := WriteItems(items, out);
      case Obj(members) =>
        out.Push("{");
        r := WriteEntries(members, out);
    }
  }

  method CanonicalText(v: Json) returns (r: Result<string, Error>)
    ensures r == ValueText(v)
  {
    var out := new TextBuffer();
    var written := WriteValue(v, out);
    RemainingAll(ValueText(v));
    r := if written.Ok? then Ok(out.text) else Err(written.error);
  }
}
