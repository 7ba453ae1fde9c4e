/**
 * The bodies the command line writes and the request it makes of them
 * (cli/src/lib.rs). Built bodies hold only strings, lists of strings and `true`, for
 * which serde_json prints what the canonical printer prints.
 */
module WriteBodies {
  import opened Wrappers
  import opened CanonicalJson
  import opened JsonReader
  import opened JsonIdentity
  import opened EcmaText
  import KeyOrder

  const MAX_REQUEST_BYTES := 512 * 1024

  // ----- UTF-8 sizes

  function Utf8CharLength(c: char): nat {
    if c as int < 0x80 then 1 else if c as int < 0x800 then 2 else if c as int < 0x1_0000 then 3 else 4
  }

  function Utf8Length(s: string): nat {
    if s == "" then 0 else Utf8CharLength(s[0]) + Utf8Length(s[1..])
  }

  lemma {:induction false} Utf8Concat(a: string, b: string)
    ensures Utf8Length(a + b) == Utf8Length(a) + Utf8Length(b)
  {
    if a == "" {
      assert a + b == b;
    } else {
      assert (a + b)[1..] == a[1..] + b;
      Utf8Concat(a[1..], b);
    }
  }

  lemma {:induction false} AsciiLength(s: string)
    requires forall i :: 0 <= i < |s| ==> s[i] as int < 0x80
    ensures Utf8Length(s) == |s|
  {
    if s != "" {
      AsciiLength(s[1..]);
    }
  }

  // ----- bodies

  /** What the file reader delivered: its text, or its message. */
  type FileRead = Result<string, string>

  datatype WriteBody =
    | FileBody(file: FileRead)
    | EmptyBody
    | Promotion(workshop: string, kind: string, statement: string, falsifier: Option<string>,
                relatesTo: seq<string>, dependsOn: seq<string>)
    | Note(kind: string, title: string, bodyFile: FileRead, relatesTo: seq<string>, forceNote: bool)
    | Opening(problem: string, intent: Option<string>)
    | Handback(text: string)

  /** The bundled contract's limits on a handback, in UTF-16 code units. */
  datatype Limits = Limits(min: nat, max: nat)

  datatype BodyError = Unreadable(message: string) | LimitsUnavailable | HandbackLength(units: nat)

  function Strings(items: seq<string>): Json {
    Arr(seq(|items|, i requires 0 <= i < |items| => Str(items[i])))
  }

  function IfSome(key: string, value: Option<string>): seq<Member> {
    if value.Some? then [Member(key, Str(value.value))] else []
  }

  function PromotionMembers(b: WriteBody): seq<Member>
    requires b.Promotion?
  {
    [Member("workshop_id", Str(b.workshop)), Member("kind", Str(b.kind)), Member("statement", Str(b.statement)),
     Member("relates_to", Strings(b.relatesTo)), Member("depends_on", Strings(b.dependsOn))]
    + IfSome("falsifier", b.falsifier)
  }

  function NoteMembers(b: WriteBody, text: string): seq<Member>
    requires b.Note?
  {
    [Member("type", Str(b.kind)), Member("title", Str(b.title)), Member("body_md", Str(text)),
     Member("relates_to", Strings(b.relatesTo))]
    + if b.forceNote then [Member("force_note", Bool(true))] else []
  }

  function OpeningMembers(b: WriteBody): seq<Member>
    requires b.Opening?
  {
    [Member("problem_id", Str(b.problem))] + IfSome("intent", b.intent)
  }

  /** The trimmed handback, if the contract's limits are known and admit it. */
  function TrimmedHandback(text: string, limits: Option<Limits>): Result<string, BodyError> {
    var trimmed := Trim(text);
    var units := |KeyOrder.Encode(trimmed)|;
    if limits.None? then Err(LimitsUnavailable)
    else if units < limits.value.min || units > limits.value.max then Err(HandbackLength(units))
    else Ok(trimmed)
  }

  /** The members of the object a built body sends. */
  function BodyMembers(b: WriteBody, limits: Option<Limits>): Result<seq<Member>, BodyError>
    requires !b.FileBody?
  {
    match b
    case EmptyBody => Ok([])
    case Promotion(_, _, _, _, _, _) => Ok(PromotionMembers(b))
    case Note(_, _, file, _, _) => if file.Ok? then Ok(NoteMembers(b, file.value)) else Err(Unreadable(file.error))
    case Opening(_, _) => Ok(OpeningMembers(b))
    case Handback(text) =>
      var trimmed :- TrimmedHandback(text, limits);
      Ok([Member("handback", Str(trimmed))])
  }

  function ObjectText(members: seq<Member>): string {
    var text := ValueText(Obj(members));
    if text.Ok? then text.value else ""
  }

  function EncodedBody(b: WriteBody, limits: Option<Limits>): Result<string, BodyError> {
    if b.FileBody? then (if b.file.Ok? then Ok(b.file.value) else Err(Unreadable(b.file.error)))
    else
      var members :- BodyMembers(b, limits);
      Ok(ObjectText(members))
  }

  /** The encoder builds the object and then adds the optional members to it. */
  method Encode(b: WriteBody, limits: Option<Limits>) returns (r: Result<string, BodyError>)
    ensures r == EncodedBody(b, limits)
  {
    hide ObjectText, Trim, Strings;
    var value: seq<Member> := [];
    match b {
      case FileBody(file) =>
        if file.Err? {
          return Err(Unreadable(file.error));
        }
        return Ok(file.value);
      case EmptyBody =>
      case Promotion(workshop, kind, statement, falsifier, relatesTo, dependsOn) =>
        value := [Member("workshop_id", Str(workshop)), Member("kind", Str(kind)), Member("statement", Str(statement)),
                  Member("relates_to", Strings(relatesTo)), Member("depends_on", Strings(dependsOn))];
        if falsifier.Some? {
          value := value + [Member("falsifier", Str(falsifier.value))];
        }
        assert value == PromotionMembers(b);
      case Note(kind, title, file, relatesTo, forceNote) =>
        if file.Err? {
          return Err(Unreadable(file.error));
        }
        value := [Member("type", Str(kind)), Member("title", Str(title)), Member("body_md", Str(file.value)),
                  Member("relates_to", Strings(relatesTo))];
        if forceNote {
          value := value + [Member("force_note", Bool(true))];
        }
        assert value == NoteMembers(b, file.value);
      case Opening(problem, intent) =>
        value := [Member("problem_id", Str(problem))];
        if intent.Some? {
          value := value + [Member("intent", Str(intent.value))];
        }
        assert value == OpeningMembers(b);
      case Handback(text) =>
        var trimmed := Trim(text);
        var count := |KeyOrder.Encode(trimmed)|;
        if limits.None? {
          return Err(LimitsUnavailable);
        }
        if count < limits.value.min || count > limits.value.max {
          return Err(HandbackLength(count));
        }
        value := [Member("handback", Str(trimmed))];
    }
    return Ok(ObjectText(value));
  }

  // ----- what the receiver reads back

  predicate Sendable(v: Json) {
    v.Str? || v.Bool? || (v.Arr? && forall i :: 0 <= i < |v.items| ==> v.items[i].Str?)
  }

  predicate Flat(members: seq<Member>) {
    Distinct(Keys(members)) && forall i :: 0 <= i < |members| ==> Sendable(members[i].value)
  }

  lemma {:induction false} StringItemsPrint(items: seq<Json>, first: bool)
    requires forall i :: 0 <= i < |items| ==> items[i].Str?
    ensures ItemsText(items, first).Ok?
  {
    if items != [] {
      StringItemsPrint(items[1..], false);
    }
  }

  lemma {:induction false} FlatEntriesPrint(members: seq<Member>, keys: seq<string>, first: bool)
    requires forall i :: 0 <= i < |keys| ==> keys[i] in Keys(members)
    requires forall i :: 0 <= i < |members| ==> Sendable(members[i].value)
    ensures EntriesText(members, keys, first).Ok?
  {
    hide Keys;
    if keys != [] {
      FlatEntriesPrint(members, keys[1..], false);
      var v := Lookup(members, keys[0]);
      assert Sendable(v);
      if v.Arr? {
        StringItemsPrint(v.items, true);
      }
      assert EntryText(members, keys[0]).Ok?;
    }
  }

  lemma SendableWellFormed(v: Json)
    requires Sendable(v)
    ensures WellFormed(v)
  {
    if v.Arr? {
      assert forall i :: 0 <= i < |v.items| ==> WellFormed(v.items[i]);
    }
  }

  lemma FlatPrints(members: seq<Member>)
    requires Flat(members)
    ensures ValueText(Obj(members)) == Ok(ObjectText(members))
    ensures WellFormed(Obj(members))
  {
    hide Keys, EntriesText, SortedKeys;
    FlatEntriesPrint(members, SortedKeys(members), true);
    forall i | 0 <= i < |members| ensures WellFormed(members[i].value) {
      SendableWellFormed(members[i].value);
    }
  }

  lemma MembersFlat(b: WriteBody, limits: Option<Limits>)
    requires !b.FileBody? && BodyMembers(b, limits).Ok?
    ensures Flat(BodyMembers(b, limits).value)
  {
    hide Keys, TrimmedHandback;
    var members := BodyMembers(b, limits).value;
    var keys := Keys(members);
    assert forall i :: 0 <= i < |members| ==> keys[i] == members[i].key;
  }

  /** The receiver of a built body reads an object with exactly the members that were put in. */
  lemma BodyReadsBack(b: WriteBody, limits: Option<Limits>) returns (read: Json)
    requires !b.FileBody? && EncodedBody(b, limits).Ok?
    ensures ReadValue(EncodedBody(b, limits).value) == Some((read, ""))
    ensures Same(read, Obj(BodyMembers(b, limits).value))
  {
    hide Keys, BodyMembers, ObjectText, ReadValue, Same;
    var members := BodyMembers(b, limits).value;
    MembersFlat(b, limits);
    FlatPrints(members);
    CanonicalTextStable(Obj(members));
    read := Normal(Obj(members));
    NormalSame(members);
  }

  lemma {:induction false} StringsNormal(items: seq<Json>)
    requires forall i :: 0 <= i < |items| ==> items[i].Str?
    ensures NormalItems(items) == items
  {
    if items != [] {
      StringsNormal(items[1..]);
      assert items == [items[0]] + items[1..];
    }
  }

  lemma SendableNormal(v: Json)
    requires Sendable(v)
    ensures Normal(v) == v
  {
    if v.Arr? {
      StringsNormal(v.items);
    }
  }

  lemma NormalSame(members: seq<Member>)
    requires Flat(members)
    ensures Same(Normal(Obj(members)), Obj(members))
  {
    hide NormalEntries, SortedKeys, Keys, Lookup;
    var keys := SortedKeys(members);
    var normal := NormalEntries(members, keys);
    NormalEntriesKeys(members, keys);
    forall k ensures k in Keys(normal) <==> k in Keys(members) {
      SortedKeysComplete(members, k);
    }
    forall k | k in Keys(normal) ensures Same(Lookup(normal, k), Lookup(members, k)) {
      SortedKeysComplete(members, k);
      LookupNormal(members, keys, k);
      SendableNormal(Lookup(members, k));
      SameReflexive(Lookup(members, k));
    }
  }

  // ----- one text, one body

  /** What a body sends, once its handback is trimmed. */
  function Sent(b: WriteBody): WriteBody {
    if b.Handback? then Handback(Trim(b.text)) else b
  }

  /** An optional string member is there exactly when its value is. */
  function Optional(members: seq<Member>, key: string): Option<Json> {
    if key in Keys(members) then Some(Lookup(members, key)) else None
  }

  lemma {:induction false} MemberFound(members: seq<Member>, i: nat)
    requires i < |members| && Distinct(Keys(members))
    ensures Optional(members, members[i].key) == Some(members[i].value)
  {
    hide Keys, Lookup;
    var keys := Keys(members);
    assert keys[i] == members[i].key;
    var v := Lookup(members, keys[i]);
    var j :| 0 <= j < |members| && members[j] == Member(keys[i], v);
    assert keys[j] == keys[i];
  }

  lemma MemberAbsent(members: seq<Member>, key: string)
    requires forall i :: 0 <= i < |members| ==> members[i].key != key
    ensures Optional(members, key) == None
  {
    hide Keys, Lookup;
  }

  lemma SendableSame(v: Json, w: Json)
    requires Sendable(v) && Same(v, w)
    ensures v == w
  {
    if v.Arr? {
      assert forall i :: 0 <= i < |v.items| ==> v.items[i] == w.items[i];
    }
  }

  /** Flat objects with one text have the same members. */
  lemma SameTextSameMember(a: seq<Member>, b: seq<Member>, key: string)
    requires Flat(a) && Flat(b) && ObjectText(a) == ObjectText(b)
    ensures Optional(a, key) == Optional(b, key)
  {
    hide Keys, Lookup, ObjectText;
    FlatPrints(a);
    FlatPrints(b);
    SameTextExactlyIfSame(Obj(a), Obj(b));
    if key in Keys(a) {
      SendableSame(Lookup(a, key), Lookup(b, key));
    }
  }

  lemma StringsInjective(a: seq<string>, b: seq<string>)
    requires Strings(a) == Strings(b)
    ensures a == b
  {
    assert |Strings(a).items| == |a| && |Strings(b).items| == |b|;
    assert forall i :: 0 <= i < |a| ==> Strings(a).items[i] == Str(a[i]) && Strings(b).items[i] == Str(b[i]);
  }

  /** What a body says under a key. */
  function Field(b: WriteBody, key: string): Option<Json> {
    match b
    case FileBody(_) => None
    case EmptyBody => None
    case Promotion(workshop, kind, statement, falsifier, relatesTo, dependsOn) =>
      if key == "workshop_id" then Some(Str(workshop)) else if key == "kind" then Some(Str(kind))
      else if key == "statement" then Some(Str(statement)) else if key == "relates_to" then Some(Strings(relatesTo))
      else if key == "depends_on" then Some(Strings(dependsOn))
      else if key == "falsifier" && falsifier.Some? then Some(Str(falsifier.value)) else None
    case Note(kind, title, file, relatesTo, forceNote) =>
      if key == "type" then Some(Str(kind)) else if key == "title" then Some(Str(title))
      else if key == "body_md" && file.Ok? then Some(Str(file.value))
      else if key == "relates_to" then Some(Strings(relatesTo))
      else if key == "force_note" && forceNote then Some(Bool(true)) else None
    case Opening(problem, intent) =>
      if key == "problem_id" then Some(Str(problem))
      else if key == "intent" && intent.Some? then Some(Str(intent.value)) else None
    case Handback(text) => if key == "handback" then Some(Str(text)) else None
  }

  lemma MemberIsField(b: WriteBody, limits: Option<Limits>, i: nat)
    requires !b.FileBody? && BodyMembers(b, limits).Ok? && i < |BodyMembers(b, limits).value|
    ensures var m := BodyMembers(b, limits).value[i]; Field(Sent(b), m.key) == Some(m.value)
  {
    hide Trim, Strings;
  }

  lemma FieldIsMember(b: WriteBody, limits: Option<Limits>, key: string)
    requires !b.FileBody? && BodyMembers(b, limits).Ok? && Field(Sent(b), key).Some?
    ensures exists i :: 0 <= i < |BodyMembers(b, limits).value| && BodyMembers(b, limits).value[i].key == key
  {
    hide Trim, Strings;
    var members := BodyMembers(b, limits).value;
    var i := match b
      case Promotion(_, _, _, _, _, _) =>
        if key == "workshop_id" then 0 else if key == "kind" then 1 else if key == "statement" then 2
        else if key == "relates_to" then 3 else if key == "depends_on" then 4 else 5
      case Note(_, _, _, _, _) =>
        if key == "type" then 0 else if key == "title" then 1 else if key == "body_md" then 2
        else if key == "relates_to" then 3 else 4
      case Opening(_, _) => if key == "problem_id" then 0 else 1
      case _ => 0;
    assert members[i].key == key;
  }

  /** The object a body sends holds under every key what the body says, and nothing else. */
  lemma SentFields(b: WriteBody, limits: Option<Limits>, key: string)
    requires !b.FileBody? && BodyMembers(b, limits).Ok?
    ensures Optional(BodyMembers(b, limits).value, key) == Field(Sent(b), key)
  {
    hide Optional, Field, BodyMembers, Sent;
    var members := BodyMembers(b, limits).value;
    MembersFlat(b, limits);
    if i :| 0 <= i < |members| && members[i].key == key {
      MemberFound(members, i);
      MemberIsField(b, limits, i);
    } else {
      MemberAbsent(members, key);
      if Field(Sent(b), key).Some? {
        FieldIsMember(b, limits, key);
      }
    }
  }

  predicate Alike(a: WriteBody, b: WriteBody) {
    && a.Promotion? == b.Promotion? && a.Note? == b.Note? && a.Opening? == b.Opening?
    && a.Handback? == b.Handback? && a.EmptyBody? == b.EmptyBody?
  }

  lemma TagsTell(a: WriteBody, b: WriteBody)
    requires !a.FileBody? && !b.FileBody?
    requires forall key :: Field(a, key) == Field(b, key)
    ensures Alike(a, b)
  {
    hide Strings;
    assert Field(a, "workshop_id") == Field(b, "workshop_id");
    assert Field(a, "type") == Field(b, "type");
    assert Field(a, "problem_id") == Field(b, "problem_id");
    assert Field(a, "handback") == Field(b, "handback");
  }

  lemma PromotionsTold(a: WriteBody, b: WriteBody)
    requires a.Promotion? && b.Promotion?
    requires forall key :: Field(a, key) == Field(b, key)
    ensures a == b
  {
    hide Strings;
    assert Field(a, "workshop_id") == Field(b, "workshop_id") && Field(a, "kind") == Field(b, "kind");
    assert Field(a, "statement") == Field(b, "statement") && Field(a, "falsifier") == Field(b, "falsifier");
    assert Field(a, "relates_to") == Field(b, "relates_to") && Field(a, "depends_on") == Field(b, "depends_on");
    StringsInjective(a.relatesTo, b.relatesTo);
    StringsInjective(a.dependsOn, b.dependsOn);
  }

  lemma NotesTold(a: WriteBody, b: WriteBody)
    requires a.Note? && b.Note? && a.bodyFile.Ok? && b.bodyFile.Ok?
    requires forall key :: Field(a, key) == Field(b, key)
    ensures a == b
  {
    hide Strings;
    assert Field(a, "type") == Field(b, "type") && Field(a, "title") == Field(b, "title");
    assert Field(a, "body_md") == Field(b, "body_md") && Field(a, "force_note") == Field(b, "force_note");
    assert Field(a, "relates_to") == Field(b, "relates_to");
    StringsInjective(a.relatesTo, b.relatesTo);
  }

  lemma OthersTold(a: WriteBody, b: WriteBody)
    requires Alike(a, b) && (a.Opening? || a.Handback? || a.EmptyBody?)
    requires forall key :: Field(a, key) == Field(b, key)
    ensures a == b
  {
    hide Strings;
    assert Field(a, "problem_id") == Field(b, "problem_id") && Field(a, "intent") == Field(b, "intent");
    assert Field(a, "handback") == Field(b, "handback");
  }

  /** Two built bodies with one text say the same thing: no key, list or optional part can be confused. */
  lemma BodyTextInjective(a: WriteBody, b: WriteBody, limits: Option<Limits>)
    requires !a.FileBody? && !b.FileBody?
    requires EncodedBody(a, limits).Ok? && EncodedBody(a, limits) == EncodedBody(b, limits)
    ensures Sent(a) == Sent(b)
  {
    hide Field, ObjectText, Flat, Optional, Trim;
    MembersFlat(a, limits);
    MembersFlat(b, limits);
    forall key ensures Field(Sent(a), key) == Field(Sent(b), key) {
      SameTextSameMember(BodyMembers(a, limits).value, BodyMembers(b, limits).value, key);
      SentFields(a, limits, key);
      SentFields(b, limits, key);
    }
    TagsTell(Sent(a), Sent(b));
    if a.Promotion? {
      PromotionsTold(Sent(a), Sent(b));
    } else if a.Note? {
      NotesTold(Sent(a), Sent(b));
    } else {
      OthersTold(Sent(a), Sent(b));
    }
  }
}
