/**
 * One write of the command line, up to the request it sends (cli/src/lib.rs): ids,
 * replay key, URL, body and size are checked in that order. The contract's limit on
 * a handback keeps its encoding under the size cap.
 */
module WriteRequests {
  import opened Wrappers
  import opened CanonicalJson
  import opened EcmaText
  import opened Routes
  import opened WriteBodies
  import KeyOrder

  const MAX_KEY_BYTES := 4096

  datatype Outgoing = Outgoing(url: string, key: string, body: string)

  datatype WriteError =
    | UnsafeSession | UnsafeHypothesis | UnsafeKey | RefusedUrl(url: UrlError) | RefusedBody(body: BodyError) | TooLarge

  /** A header value: printable, without spaces. */
  predicate HeaderKey(key: string) {
    key != "" && Utf8Length(key) <= MAX_KEY_BYTES && forall i :: 0 <= i < |key| ==> 33 <= key[i] as int <= 126
  }

  /** The request that is sent, or the first check that fails. */
  function Prepare(
    parse: ParseUrl, join: JoinUrl, c: Command, key: string, origin: string, b: WriteBody, limits: Option<Limits>)
    : Result<Outgoing, WriteError>
  {
    var r := Request(c);
    if r.session.Some? && !SafeSegment(r.session.value) then Err(UnsafeSession)
    else if r.hypothesisToKill.Some? && !SafeSegment(r.hypothesisToKill.value) then Err(UnsafeHypothesis)
    else if !HeaderKey(key) then Err(UnsafeKey)
    else
      var url := BuildUrl(parse, join, origin, WritePath(r));
      if url.Err? then Err(RefusedUrl(url.error))
      else if EncodedBody(b, limits).Err? then Err(RefusedBody(EncodedBody(b, limits).error))
      else if Utf8Length(EncodedBody(b, limits).value) > MAX_REQUEST_BYTES then Err(TooLarge)
      else Ok(Outgoing(url.value, key, EncodedBody(b, limits).value))
  }

  lemma IdsInRequest(c: Command)
    ensures (forall i :: 0 <= i < |Ids(c)| ==> SafeSegment(Ids(c)[i])) <==>
      && (Request(c).session.Some? ==> SafeSegment(Request(c).session.value))
      && (Request(c).hypothesisToKill.Some? ==> SafeSegment(Request(c).hypothesisToKill.value))
  {
    hide SafeSegment;
    if c.HypothesisKill? {
      assert Ids(c)[0] == c.session && Ids(c)[1] == c.hypothesis;
    } else if !c.SessionOpen? {
      assert Ids(c)[0] == c.session;
    }
  }

  /**
   * A request is sent exactly for safe ids, a header key, an origin that is bare as a text and
   * as the parser reads it, a path the parser joins to it, and a body within the cap; it then
   * carries the joined URL, the key and the body.
   */
  lemma PreparedExactly(
    parse: ParseUrl, join: JoinUrl, c: Command, key: string, origin: string, b: WriteBody, limits: Option<Limits>)
    ensures Prepare(parse, join, c, key, origin, b, limits).Ok? <==>
      && SafeIds(c) && HeaderKey(key)
      && CheckOrigin(origin).Ok? && ParsedBare(parse, origin) && Joins(parse, join, origin, WritePath(Request(c)))
      && EncodedBody(b, limits).Ok? && Utf8Length(EncodedBody(b, limits).value) <= MAX_REQUEST_BYTES
    ensures Prepare(parse, join, c, key, origin, b, limits).Ok? ==>
      && Addressed(c)
      && Prepare(parse, join, c, key, origin, b, limits).value ==
         Outgoing(join(parse(origin + "/").value, WritePath(Request(c))).value.text, key, EncodedBody(b, limits).value)
  {
    hide WritePath, Request, CheckPath, CheckOrigin, EncodedBody, HeaderKey, SafeIds, Addressed, SafeSegment, Utf8Length, Route, Ids, BuildUrl, ParsedBare;
    RoutedExactly(c);
    RouteOk(c);
    IdsInRequest(c);
    BuildUrlExactly(parse, join, origin, WritePath(Request(c)));
  }

  /** A file that was read is sent as it stands. */
  lemma FileSentAsRead(
    parse: ParseUrl, join: JoinUrl, c: Command, key: string, origin: string, text: string, limits: Option<Limits>)
    ensures Prepare(parse, join, c, key, origin, FileBody(Ok(text)), limits).Ok? ==>
              Prepare(parse, join, c, key, origin, FileBody(Ok(text)), limits).value.body == text
    ensures EncodedBody(FileBody(Ok(text)), limits) == Ok(text)
  {
    hide WritePath, Request, BuildUrl, HeaderKey, SafeSegment, Utf8Length;
  }

  /** Everything that is checked before the body is touched. */
  predicate ReachesBody(parse: ParseUrl, join: JoinUrl, c: Command, key: string, origin: string) {
    && SafeIds(c) && HeaderKey(key)
    && CheckOrigin(origin).Ok? && ParsedBare(parse, origin) && Joins(parse, join, origin, WritePath(Request(c)))
  }

  /** The body a write carries, without the encoder: a file's text, or the text of the object it builds. */
  predicate Carries(b: WriteBody, limits: Option<Limits>, text: string) {
    if b.FileBody? then b.file == Ok(text)
    else BodyMembers(b, limits).Ok? && text == ObjectText(BodyMembers(b, limits).value)
  }

  /** Why a body is not sent: its file could not be read, or the handback does not fit the contract. */
  predicate BodyRefused(b: WriteBody, limits: Option<Limits>, e: BodyError) {
    match b
    case FileBody(file) => file.Err? && e == Unreadable(file.error)
    case Note(_, _, file, _, _) => file.Err? && e == Unreadable(file.error)
    case Handback(text) =>
      if limits.None? then e == LimitsUnavailable
      else
        var units := |KeyOrder.Encode(Trim(text))|;
        !(limits.value.min <= units <= limits.value.max) && e == HandbackLength(units)
    case _ => false
  }

  /** The body step: exactly one of a text and a refusal, for files as for built bodies. */
  lemma BodyStepExactly(b: WriteBody, limits: Option<Limits>)
    ensures forall text :: EncodedBody(b, limits) == Ok(text) <==> Carries(b, limits, text)
    ensures forall e :: EncodedBody(b, limits) == Err(e) <==> BodyRefused(b, limits, e)
  {
    hide Trim, ObjectText, KeyOrder.Encode, PromotionMembers, NoteMembers, OpeningMembers;
  }

  lemma ReachesBodyExactly(
    parse: ParseUrl, join: JoinUrl, c: Command, key: string, origin: string, b: WriteBody, limits: Option<Limits>)
    requires ReachesBody(parse, join, c, key, origin)
    ensures Prepare(parse, join, c, key, origin, b, limits) ==
            match EncodedBody(b, limits)
            case Err(e) => Err(RefusedBody(e))
            case Ok(text) =>
              if Utf8Length(text) > MAX_REQUEST_BYTES then Err(TooLarge)
              else Ok(Outgoing(join(parse(origin + "/").value, WritePath(Request(c))).value.text, key, text))
  {
    hide WritePath, Request, CheckPath, CheckOrigin, EncodedBody, HeaderKey, SafeIds, SafeSegment, Utf8Length, Route, Ids, BuildUrl, ParsedBare, Addressed;
    RoutedExactly(c);
    RouteOk(c);
    IdsInRequest(c);
    BuildUrlExactly(parse, join, origin, WritePath(Request(c)));
  }

  /** Once the body is reached, an unreadable file is refused with the reader's own message. */
  lemma UnreadableFileRefused(
    parse: ParseUrl, join: JoinUrl, c: Command, key: string, origin: string, message: string, limits: Option<Limits>)
    requires ReachesBody(parse, join, c, key, origin)
    ensures Prepare(parse, join, c, key, origin, FileBody(Err(message)), limits) == Err(RefusedBody(Unreadable(message)))
  {
    hide ReachesBody, Prepare, Utf8Length, WritePath, Request;
    ReachesBodyExactly(parse, join, c, key, origin, FileBody(Err(message)), limits);
    BodyStepExactly(FileBody(Err(message)), limits);
  }

  /** Two accepted paths that the parser joins to one URL. */
  predicate JoinedAlike(parse: ParseUrl, join: JoinUrl, origin: string, p: string, q: string) {
    && p != q && CheckPath(p).Ok? && CheckPath(q).Ok?
    && Joins(parse, join, origin, p) && Joins(parse, join, origin, q)
    && join(parse(origin + "/").value, p).value.text == join(parse(origin + "/").value, q).value.text
  }

  /** Two bodies that say the same: equal files, equal built bodies, or a file that holds the other's text. */
  predicate SaidAlike(a: WriteBody, b: WriteBody, limits: Option<Limits>) {
    if a.FileBody? then a.file.Ok? && Carries(b, limits, a.file.value)
    else if b.FileBody? then b.file.Ok? && Carries(a, limits, b.file.value)
    else Sent(a) == Sent(b)
  }

  lemma OneTextSaidAlike(a: WriteBody, b: WriteBody, limits: Option<Limits>)
    requires EncodedBody(a, limits).Ok? && EncodedBody(a, limits) == EncodedBody(b, limits)
    ensures SaidAlike(a, b, limits)
  {
    hide EncodedBody, BodyMembers, Sent, ObjectText;
    BodyStepExactly(a, limits);
    BodyStepExactly(b, limits);
    if !a.FileBody? && !b.FileBody? {
      BodyTextInjective(a, b, limits);
    }
  }

  /**
   * Two requests that are alike say the same and come from one command, unless the parser
   * joins the two commands' different paths to one URL.
   */
  lemma PreparedInjective(
    parse: ParseUrl, join: JoinUrl,
    c: Command, d: Command, key: string, origin: string, a: WriteBody, b: WriteBody, limits: Option<Limits>)
    requires Prepare(parse, join, c, key, origin, a, limits).Ok?
    requires Prepare(parse, join, c, key, origin, a, limits) == Prepare(parse, join, d, key, origin, b, limits)
    ensures SaidAlike(a, b, limits)
    ensures c == d || JoinedAlike(parse, join, origin, WritePath(Request(c)), WritePath(Request(d)))
  {
    hide WritePath, Request, CheckPath, CheckOrigin, EncodedBody, HeaderKey, SafeIds, SafeSegment, Utf8Length, Prepare, Route, SaidAlike, ParsedBare, Split;
    PreparedExactly(parse, join, c, key, origin, a, limits);
    PreparedExactly(parse, join, d, key, origin, b, limits);
    RoutedExactly(c);
    RoutedExactly(d);
    if WritePath(Request(c)) == WritePath(Request(d)) {
      RoutesInjective(c, d);
    }
    OneTextSaidAlike(a, b, limits);
  }

  // ----- how large a handback's encoding can be

  /** Escaping costs most for a control character: six bytes for its one code unit. */
  lemma EscapedCharBytes(c: char)
    ensures Utf8Length(EscapedChar(c)) <= 6 * |KeyOrder.EncodeChar(c)|
  {
    var e := EscapedChar(c);
    if c < ' ' || c == '\"' || c == '\\' {
      AsciiLength(e);
    } else {
      assert e[1..] == "";
    }
  }

  lemma {:induction false} EscapedBytes(s: string)
    ensures Utf8Length(Escaped(s)) <= 6 * |KeyOrder.Encode(s)|
  {
    if s != "" {
      EscapedBytes(s[1..]);
      EscapedCharBytes(s[0]);
      Utf8Concat(EscapedChar(s[0]), Escaped(s[1..]));
    }
  }

  lemma OneKeySorted(m: Member)
    ensures SortedKeys([m]) == [m.key]
  {
    KeyOrder.SortKeysSorted(Keys([m]));
    assert Keys([m]) == [m.key];
    var sorted := SortedKeys([m]);
    assert |multiset(sorted)| == |sorted| == 1;
    assert sorted[0] in multiset(sorted);
  }

  lemma OneMemberText(key: string, text: string)
    ensures ObjectText([Member(key, Str(text))]) == "{" + (Quoted(key) + ":" + Quoted(text) + "}")
  {
    hide Quoted, SortedKeys;
    var members := [Member(key, Str(text))];
    OneKeySorted(members[0]);
    assert Keys(members) == [key];
    assert EntryText(members, key) == Ok(Quoted(key) + ":" + Quoted(text));
    assert EntriesText(members, [], false) == Ok("}");
    assert EntriesText(members, [key], true) == Ok("" + (Quoted(key) + ":" + Quoted(text)) + "}");
    assert "" + (Quoted(key) + ":" + Quoted(text)) + "}" == Quoted(key) + ":" + Quoted(text) + "}";
  }

  lemma {:induction false} PlainEscaped(s: string)
    requires forall i :: 0 <= i < |s| ==> ' ' <= s[i] <= '~' && s[i] != '\"' && s[i] != '\\'
    ensures Escaped(s) == s
  {
    if s != "" {
      PlainEscaped(s[1..]);
    }
  }

  lemma QuotedBytes(s: string)
    ensures Utf8Length(Quoted(s)) == 2 + Utf8Length(Escaped(s))
  {
    hide Utf8Length, Escaped;
    AsciiLength("\"");
    Utf8Concat("\"" + Escaped(s), "\"");
    Utf8Concat("\"", Escaped(s));
  }

  /** The braces and the colon. */
  lemma MemberBytes(key: string, value: string)
    ensures Utf8Length("{" + (key + ":" + value + "}")) == 3 + Utf8Length(key) + Utf8Length(value)
  {
    hide Utf8Length;
    AsciiLength("{");
    AsciiLength(":");
    AsciiLength("}");
    Utf8Concat("{", key + ":" + value + "}");
    Utf8Concat(key + ":" + value, "}");
    Utf8Concat(key + ":", value);
    Utf8Concat(key, ":");
  }

  /** The fixed part of the object is fifteen bytes. */
  lemma HandbackBytes(text: string)
    ensures Utf8Length(ObjectText([Member("handback", Str(text))])) == 15 + Utf8Length(Escaped(text))
  {
    hide Utf8Length, Escaped, ObjectText, Quoted;
    OneMemberText("handback", text);
    MemberBytes(Quoted("handback"), Quoted(text));
    QuotedBytes("handback");
    QuotedBytes(text);
    PlainEscaped("handback");
    AsciiLength("handback");
  }

  /** An accepted handback of c UTF-16 units encodes to at most 6c + 15 bytes. */
  lemma HandbackBound(text: string, limits: Option<Limits>)
    requires EncodedBody(Handback(text), limits).Ok?
    ensures Utf8Length(EncodedBody(Handback(text), limits).value) <= 6 * |KeyOrder.Encode(Trim(text))| + 15
  {
    hide Escaped, ObjectText;
    HandbackBytes(Trim(text));
    EscapedBytes(Trim(text));
  }

  // ----- the size cap never refuses an accepted handback, exactly when the contract's maximum is small enough

  function Controls(n: nat): string {
    if n == 0 then "" else [1 as char] + Controls(n - 1)
  }

  lemma {:induction false} ControlsAre(n: nat)
    ensures |Controls(n)| == n && forall i :: 0 <= i < n ==> Controls(n)[i] == 1 as char
    ensures |KeyOrder.Encode(Controls(n))| == n && Utf8Length(Escaped(Controls(n))) == 6 * n
  {
    if n > 0 {
      ControlsAre(n - 1);
      var c := 1 as char;
      assert Controls(n)[1..] == Controls(n - 1);
      AsciiLength(EscapedChar(c));
      Utf8Concat(EscapedChar(c), Escaped(Controls(n - 1)));
    }
  }

  lemma ControlsTight(n: nat)
    ensures Trim(Controls(n)) == Controls(n)
  {
    ControlsAre(n);
    var s := Controls(n);
    assert "" + s + "" == s;
    assert AllBut(s, "", s, "");
    TightKept(s, "", s, "");
  }

  lemma AcceptedWithin(text: string, limits: Limits)
    requires EncodedBody(Handback(text), Some(limits)).Ok?
    ensures limits.min <= |KeyOrder.Encode(Trim(text))| <= limits.max
  {
  }

  ghost predicate CapNeverFires(limits: Limits) {
    forall text :: EncodedBody(Handback(text), Some(limits)).Ok? ==>
                   Utf8Length(EncodedBody(Handback(text), Some(limits)).value) <= MAX_REQUEST_BYTES
  }

  lemma LargestHandback(limits: Limits)
    requires limits.min <= limits.max
    ensures EncodedBody(Handback(Controls(limits.max)), Some(limits)).Ok?
    ensures Utf8Length(EncodedBody(Handback(Controls(limits.max)), Some(limits)).value) == 6 * limits.max + 15
  {
    hide Escaped, ObjectText, Trim;
    ControlsAre(limits.max);
    ControlsTight(limits.max);
    HandbackBytes(Controls(limits.max));
  }

  lemma CapNeverFiresExactly(limits: Limits)
    requires limits.min <= limits.max
    ensures CapNeverFires(limits) <==> limits.max <= 87_378
  {
    hide EncodedBody;
    LargestHandback(limits);
    if limits.max <= 87_378 {
      forall text | EncodedBody(Handback(text), Some(limits)).Ok?
        ensures Utf8Length(EncodedBody(Handback(text), Some(limits)).value) <= MAX_REQUEST_BYTES
      {
        HandbackBound(text, Some(limits));
        AcceptedWithin(text, limits);
      }
    }
  }

  /** The bundled contract admits 1 to 2000 units, so closing a session with a handback is never refused for its size. */
  lemma CloseNeverTooLarge(parse: ParseUrl, join: JoinUrl, c: Command, key: string, origin: string, text: string)
    ensures Prepare(parse, join, c, key, origin, Handback(text), Some(Limits(1, 2000))) != Err(TooLarge)
  {
    hide EncodedBody, WritePath, Request, BuildUrl, HeaderKey, SafeSegment, Utf8Length;
    CapNeverFiresExactly(Limits(1, 2000));
  }
}
