/**
 * Which paths the command line sends its writes to, and which origins and paths it
 * accepts (cli/src/lib.rs). The URL parser behind the text checks is a parameter.
 */
module Routes {
  import opened Wrappers

  // ----- splitting at a separator

  function Before(s: string, c: char): (r: string)
    ensures r <= s && c !in r && (|r| < |s| ==> s[|r|] == c)
  {
    if s == "" || s[0] == c then ""
    else
      var rest := Before(s[1..], c);
      assert s == [s[0]] + s[1..];
      [s[0]] + rest
  }

  function Split(s: string, c: char): (parts: seq<string>)
    ensures parts != []
    decreases |s|
  {
    var first := Before(s, c);
    if |first| == |s| then [s] else [first] + Split(s[|first| + 1..], c)
  }

  function Join(parts: seq<string>, c: char): string
    requires parts != []
  {
    if |parts| == 1 then parts[0] else parts[0] + [c] + Join(parts[1..], c)
  }

  lemma {:induction false} BeforeIs(a: string, c: char, rest: string)
    requires c !in a && (rest == "" || rest[0] == c)
    ensures Before(a + rest, c) == a
  {
    if a != "" {
      BeforeIs(a[1..], c, rest);
      assert (a + rest)[1..] == a[1..] + rest;
      assert a == [a[0]] + a[1..];
    }
  }

  lemma SplitFirst(a: string, c: char, rest: string)
    requires c !in a
    ensures Split(a + [c] + rest, c) == [a] + Split(rest, c)
  {
    assert a + [c] + rest == a + ([c] + rest);
    BeforeIs(a, c, [c] + rest);
    assert (a + [c] + rest)[|a| + 1..] == rest;
  }

  lemma SplitWhole(a: string, c: char)
    requires c !in a
    ensures Split(a, c) == [a]
  {
    assert a + "" == a;
    BeforeIs(a, c, "");
  }

  /** Splitting undoes joining ... */
  lemma {:induction false} SplitJoin(parts: seq<string>, c: char)
    requires parts != [] && forall i :: 0 <= i < |parts| ==> c !in parts[i]
    ensures Split(Join(parts, c), c) == parts
  {
    if |parts| == 1 {
      SplitWhole(parts[0], c);
    } else {
      SplitJoin(parts[1..], c);
      SplitFirst(parts[0], c, Join(parts[1..], c));
      assert parts == [parts[0]] + parts[1..];
    }
  }

  lemma JoinOne(s: string, c: char)
    ensures Join([s], c) == s
  {
  }

  lemma JoinFirst(first: string, parts: seq<string>, c: char)
    requires parts != []
    ensures Join([first] + parts, c) == first + [c] + Join(parts, c)
  {
    assert ([first] + parts)[1..] == parts;
  }

  /** ... and joining undoes splitting. */
  lemma {:induction false} JoinSplit(s: string, c: char)
    ensures Join(Split(s, c), c) == s
    decreases |s|
  {
    hide Join, Before;
    var first := Before(s, c);
    if |first| < |s| {
      var rest := s[|first| + 1..];
      JoinSplit(rest, c);
      assert Split(s, c) == [first] + Split(rest, c);
      JoinFirst(first, Split(rest, c), c);
      assert s == first + [c] + rest;
    } else {
      assert Split(s, c) == [s];
      JoinOne(s, c);
    }
  }

  // ----- the text checks on an origin and on a path

  datatype UrlError =
    | OriginCharacters | OriginNotHttps | UserInformation | OriginNotBare
    | PathNotAbsolute | PathCharacters | PathSegments
    | OriginUnparsed | PathUnparsed | OffOrigin

  /** A byte at most a space, or the delete byte; every other character has only larger bytes. */
  predicate Control(c: char) {
    c <= ' ' || c as int == 0x7f
  }

  predicate Clean(s: string) {
    forall i :: 0 <= i < |s| ==> !Control(s[i])
  }

  predicate Dots(segment: string) {
    segment == "." || segment == ".."
  }

  predicate HasDots(segments: seq<string>) {
    exists i :: 0 <= i < |segments| && Dots(segments[i])
  }

  const SCHEME := "https://"

  /** The authority after the scheme. */
  function CheckOrigin(origin: string): Result<string, UrlError> {
    if !Clean(origin) || '\\' in origin then Err(OriginCharacters)
    else if !(SCHEME <= origin) then Err(OriginNotHttps)
    else
      var authority := origin[|SCHEME|..];
      if '@' in authority then Err(UserInformation)
      else if authority == "" || '/' in authority || '?' in authority || '#' in authority then Err(OriginNotBare)
      else Ok(authority)
  }

  /** The path without its query. */
  function Pathname(path: string): string {
    Before(path, '?')
  }

  function CheckPath(path: string): Result<string, UrlError> {
    if !("/" <= path) || "//" <= path then Err(PathNotAbsolute)
    else if '#' in path || '\\' in path || !Clean(path) then Err(PathCharacters)
    else if '%' in Pathname(path) || HasDots(Split(Pathname(path), '/')) then Err(PathSegments)
    else Ok(Pathname(path))
  }

  // ----- the parsed URL

  /** What the command line looks at in a parsed URL; `text` is its serialisation. */
  datatype Url = Url(
    scheme: string,
    host: Option<string>,
    username: string,
    password: Option<string>,
    query: Option<string>,
    fragment: Option<string>,
    path: string,
    origin: string,
    text: string)

  type ParseUrl = string -> Option<Url>
  type JoinUrl = (Url, string) -> Option<Url>

  function ValidateOrigin(parse: ParseUrl, origin: string): Result<string, UrlError> {
    var _ :- CheckOrigin(origin);
    var parsed := parse(origin);
    if parsed.None? then Err(OriginUnparsed)
    else if parsed.value.scheme != "https" || parsed.value.host.None? then Err(OriginNotHttps)
    else if parsed.value.username != "" || parsed.value.password.Some? then Err(UserInformation)
    else if parsed.value.query.Some? || parsed.value.fragment.Some? || parsed.value.path != "/" then Err(OriginNotBare)
    else Ok(origin)
  }

  /** The URL that is requested: the serialisation of the path joined to the origin. */
  function BuildUrl(parse: ParseUrl, join: JoinUrl, origin: string, path: string): Result<string, UrlError> {
    var _ :- ValidateOrigin(parse, origin);
    var _ :- CheckPath(path);
    var base := parse(origin + "/");
    if base.None? then Err(OriginUnparsed)
    else
      var joined := join(base.value, path);
      if joined.None? then Err(PathUnparsed)
      else if joined.value.origin != base.value.origin then Err(OffOrigin)
      else Ok(joined.value.text)
  }

  /** The parser reads the origin as a bare https origin. */
  predicate ParsedBare(parse: ParseUrl, origin: string) {
    var u := parse(origin);
    && u.Some? && u.value.scheme == "https" && u.value.host.Some?
    && u.value.username == "" && u.value.password.None?
    && u.value.query.None? && u.value.fragment.None? && u.value.path == "/"
  }

  /** The parser joins the path to the origin without leaving it. */
  predicate Joins(parse: ParseUrl, join: JoinUrl, origin: string, path: string) {
    var base := parse(origin + "/");
    && base.Some? && join(base.value, path).Some?
    && join(base.value, path).value.origin == base.value.origin
  }

  lemma BuildUrlExactly(parse: ParseUrl, join: JoinUrl, origin: string, path: string)
    ensures BuildUrl(parse, join, origin, path).Ok? <==>
            && CheckOrigin(origin).Ok? && ParsedBare(parse, origin)
            && CheckPath(path).Ok? && Joins(parse, join, origin, path)
    ensures BuildUrl(parse, join, origin, path).Ok? ==>
              BuildUrl(parse, join, origin, path).value == join(parse(origin + "/").value, path).value.text
  {
    hide CheckOrigin, CheckPath;
  }

  /** As texts, an accepted origin followed by an accepted path is read back as that origin and that path. */
  lemma OriginPathUnambiguous(o1: string, p1: string, o2: string, p2: string)
    requires CheckOrigin(o1).Ok? && CheckOrigin(o2).Ok? && CheckPath(p1).Ok? && CheckPath(p2).Ok?
    requires o1 + p1 == o2 + p2
    ensures o1 == o2 && p1 == p2
  {
    hide Clean, HasDots, Split;
    var n := |SCHEME|;
    assert (o1 + p1)[n..] == o1[n..] + p1 && (o2 + p2)[n..] == o2[n..] + p2;
    BeforeIs(o1[n..], '/', p1);
    BeforeIs(o2[n..], '/', p2);
    assert o1 == SCHEME + o1[n..] && o2 == SCHEME + o2[n..];
    assert p1 == (o1 + p1)[|o1|..] && p2 == (o2 + p2)[|o2|..];
  }

  // ----- section 5.2.4 of RFC 3986

  /** The output buffer without its last segment and that segment's slash. */
  function DropLastSegment(output: string): (r: string)
    ensures |r| <= |output|
  {
    if output == "" then "" else if output[|output| - 1] == '/' then output[..|output| - 1]
    else DropLastSegment(output[..|output| - 1])
  }

  /** The first segment, with the slash before it if there is one. */
  function FirstSegment(input: string): (r: string)
    requires input != ""
    ensures r <= input && r != ""
  {
    var first := Before(input[1..], '/');
    assert input == [input[0]] + input[1..];
    [input[0]] + first
  }

  /** What is left when "/." or "/.." is taken off the front and its slash put back. */
  function AfterDots(input: string, n: nat): (r: string)
    requires 0 < n <= |input| && (n < |input| ==> input[n] == '/')
    ensures |r| < |input| || n == 1
  {
    if n == |input| then "/" else input[n..]
  }

  function RemoveDotSegments(input: string, output: string): string
    decreases |input|
  {
    if input == "" then output
    else if "../" <= input then RemoveDotSegments(input[3..], output)
    else if "./" <= input then RemoveDotSegments(input[2..], output)
    else if "/./" <= input || input == "/." then RemoveDotSegments(AfterDots(input, 2), output)
    else if "/../" <= input || input == "/.." then RemoveDotSegments(AfterDots(input, 3), DropLastSegment(output))
    else if Dots(input) then output
    else RemoveDotSegments(input[|FirstSegment(input)|..], output + FirstSegment(input))
  }

  /** Only rules A to D shorten: nothing ever gets longer. */
  lemma {:induction false} RemovalNeverLonger(input: string, output: string)
    ensures |RemoveDotSegments(input, output)| <= |input| + |output|
    decreases |input|
  {
    if input == "" {
    } else if "../" <= input {
      RemovalNeverLonger(input[3..], output);
    } else if "./" <= input {
      RemovalNeverLonger(input[2..], output);
    } else if "/./" <= input || input == "/." {
      RemovalNeverLonger(AfterDots(input, 2), output);
    } else if "/../" <= input || input == "/.." {
      RemovalNeverLonger(AfterDots(input, 3), DropLastSegment(output));
    } else if !Dots(input) {
      RemovalNeverLonger(input[|FirstSegment(input)|..], output + FirstSegment(input));
    }
  }

  /** The segments after the leading slash. */
  function Segments(input: string): seq<string> {
    if input == "" then [] else Split(input[1..], '/')
  }

  predicate Rooted(input: string) {
    input == "" || input[0] == '/'
  }

  /** A rooted input is its first segment and a rooted rest. */
  lemma FirstSegmentSplits(input: string)
    requires input != "" && input[0] == '/'
    ensures var first := FirstSegment(input);
            && Rooted(input[|first|..]) && first[0] == '/' && '/' !in first[1..]
            && Segments(input) == [first[1..]] + Segments(input[|first|..])
  {
    var rest := input[1..];
    var first := Before(rest, '/');
    assert FirstSegment(input)[1..] == first;
    if |first| == |rest| {
      assert first == rest;
    } else {
      assert input[|first| + 1] == rest[|first|];
      assert rest[|first| + 1..] == input[|first| + 1..][1..];
    }
  }

  /** On a rooted input the rules for dots apply exactly when the first segment is one. */
  lemma DotRuleExactly(input: string)
    requires input != "" && input[0] == '/'
    ensures var first := FirstSegment(input);
            && (("/./" <= input || input == "/.") <==> first == "/.")
            && (("/../" <= input || input == "/..") <==> first == "/..")
  {
    var first := FirstSegment(input);
    FirstSegmentSplits(input);
    assert input == first + input[|first|..];
    if "/./" <= input {
      BeforeIs(".", '/', input[2..]);
      assert input[1..] == "." + input[2..];
    }
    if input == "/." {
      BeforeIs(".", '/', "");
    }
    if "/../" <= input {
      BeforeIs("..", '/', input[3..]);
      assert input[1..] == ".." + input[3..];
    }
    if input == "/.." {
      BeforeIs("..", '/', "");
    }
  }

  lemma CopyStep(input: string, output: string)
    requires input != "" && input[0] == '/' && !Dots(FirstSegment(input)[1..])
    ensures var first := FirstSegment(input);
            RemoveDotSegments(input, output) == RemoveDotSegments(input[|first|..], output + first)
  {
    hide DropLastSegment, AfterDots, FirstSegment;
    DotRuleExactly(input);
  }

  lemma DotsLater(input: string)
    requires input != "" && input[0] == '/' && !Dots(FirstSegment(input)[1..])
    ensures HasDots(Segments(input[|FirstSegment(input)|..])) <==> HasDots(Segments(input))
  {
    hide FirstSegment, Segments, Dots;
    FirstSegmentSplits(input);
    var rest := Segments(input[|FirstSegment(input)|..]);
    assert forall i :: 0 <= i < |rest| ==> rest[i] == Segments(input)[i + 1];
    assert forall i :: 0 < i < |Segments(input)| ==> Segments(input)[i] == rest[i - 1];
  }

  /** Without dot segments a rooted input is copied as it is. */
  lemma {:induction false} NormalIsCopied(input: string, output: string)
    requires Rooted(input) && !HasDots(Segments(input))
    ensures RemoveDotSegments(input, output) == output + input
    decreases |input|
  {
    hide FirstSegment, Dots, Segments;
    if input == "" {
      assert output + input == output;
    } else {
      var first := FirstSegment(input);
      FirstSegmentSplits(input);
      assert Segments(input)[0] == first[1..];
      CopyStep(input, output);
      DotsLater(input);
      NormalIsCopied(input[|first|..], output + first);
      assert output + first + input[|first|..] == output + input;
    }
  }

  /** With one, something is lost. */
  lemma {:induction false} DotsShorten(input: string, output: string)
    requires Rooted(input) && HasDots(Segments(input))
    ensures |RemoveDotSegments(input, output)| < |output| + |input|
    decreases |input|
  {
    var first := FirstSegment(input);
    FirstSegmentSplits(input);
    DotRuleExactly(input);
    if first[1..] == "." {
      RemovalNeverLonger(AfterDots(input, 2), output);
    } else if first[1..] == ".." {
      RemovalNeverLonger(AfterDots(input, 3), DropLastSegment(output));
    } else {
      CopyStep(input, output);
      DotsLater(input);
      DotsShorten(input[|first|..], output + first);
    }
  }

  /** The dot check refuses exactly the absolute paths that dot-segment removal would change. */
  lemma NormalExactly(pathname: string)
    requires "/" <= pathname
    ensures HasDots(Split(pathname, '/')) <==> RemoveDotSegments(pathname, "") != pathname
  {
    hide RemoveDotSegments;
    SplitFirst("", '/', pathname[1..]);
    assert "" + ['/'] + pathname[1..] == pathname;
    var segments := Segments(pathname);
    assert Split(pathname, '/') == [""] + segments;
    if HasDots(segments) {
      var i :| 0 <= i < |segments| && Dots(segments[i]);
      assert Dots(Split(pathname, '/')[i + 1]);
      DotsShorten(pathname, "");
    } else {
      NormalIsCopied(pathname, "");
    }
  }

  lemma AcceptedIsNormal(path: string)
    requires CheckPath(path).Ok?
    ensures RemoveDotSegments(Pathname(path), "") == Pathname(path)
  {
    hide RemoveDotSegments, HasDots;
    NormalExactly(Pathname(path));
  }

  // ----- the routes of the write commands

  datatype Command =
    | SessionOpen
    | Heartbeat(session: string) | Review(session: string) | Evidence(session: string) | Revise(session: string)
    | Relation(session: string) | HypothesisCreate(session: string) | HypothesisKill(session: string, hypothesis: string)
    | GapOpen(session: string) | GapClose(session: string)
    | Workshop(session: string) | Promote(session: string) | Close(session: string)

  datatype WriteRequest = WriteRequest(session: Option<string>, action: string, hypothesisToKill: Option<string>)

  function Action(c: Command): string {
    match c
    case SessionOpen => ""
    case Heartbeat(_) => "heartbeat"
    case Review(_) => "review"
    case Evidence(_) => "evidence"
    case Revise(_) => "revise"
    case Relation(_) => "relations"
    case HypothesisCreate(_) => "hypotheses"
    case HypothesisKill(_, _) => "hypotheses"
    case GapOpen(_) => "gaps"
    case GapClose(_) => "gaps/close"
    case Workshop(_) => "workshop"
    case Promote(_) => "promote"
    case Close(_) => "close"
  }

  function Request(c: Command): WriteRequest {
    WriteRequest(
      if c.SessionOpen? then None else Some(c.session),
      Action(c),
      if c.HypothesisKill? then Some(c.hypothesis) else None)
  }

  predicate SafeSegment(id: string) {
    id != "" && '/' !in id && '?' !in id && '#' !in id && '%' !in id && '\\' !in id && !Dots(id)
  }

  function WritePath(r: WriteRequest): string {
    if r.session.None? then "/v1/sessions"
    else if r.hypothesisToKill.Some? then
      "/v1/sessions/" + r.session.value + "/" + r.action + "/" + r.hypothesisToKill.value + "/kill"
    else "/v1/sessions/" + r.session.value + "/" + r.action
  }

  datatype RouteError = BadSession | BadHypothesis | BadPath(error: UrlError)

  /** The path a command writes to, or why it writes nowhere. */
  function Route(c: Command): Result<string, RouteError> {
    var r := Request(c);
    if r.session.Some? && !SafeSegment(r.session.value) then Err(BadSession)
    else if r.hypothesisToKill.Some? && !SafeSegment(r.hypothesisToKill.value) then Err(BadHypothesis)
    else
      var path := WritePath(r);
      match CheckPath(path)
      case Ok(_) => Ok(path)
      case Err(e) => Err(BadPath(e))
  }

  /** What the route is meant to address. */
  function Address(c: Command): seq<string> {
    match c
    case SessionOpen => ["", "v1", "sessions"]
    case Heartbeat(id) => ["", "v1", "sessions", id, "heartbeat"]
    case Review(id) => ["", "v1", "sessions", id, "review"]
    case Evidence(id) => ["", "v1", "sessions", id, "evidence"]
    case Revise(id) => ["", "v1", "sessions", id, "revise"]
    case Relation(id) => ["", "v1", "sessions", id, "relations"]
    case HypothesisCreate(id) => ["", "v1", "sessions", id, "hypotheses"]
    case HypothesisKill(id, h) => ["", "v1", "sessions", id, "hypotheses", h, "kill"]
    case GapOpen(id) => ["", "v1", "sessions", id, "gaps"]
    case GapClose(id) => ["", "v1", "sessions", id, "gaps", "close"]
    case Workshop(id) => ["", "v1", "sessions", id, "workshop"]
    case Promote(id) => ["", "v1", "sessions", id, "promote"]
    case Close(id) => ["", "v1", "sessions", id, "close"]
  }

  function Ids(c: Command): seq<string> {
    if c.SessionOpen? then [] else if c.HypothesisKill? then [c.session, c.hypothesis] else [c.session]
  }

  lemma SplitSession(id: string, rest: string)
    requires '/' !in id
    ensures Split("/v1/sessions/" + id + "/" + rest, '/') == ["", "v1", "sessions", id] + Split(rest, '/')
  {
    hide Split;
    var tail := id + ['/'] + rest;
    SplitFirst(id, '/', rest);
    SplitFirst("sessions", '/', tail);
    SplitFirst("v1", '/', "sessions" + ['/'] + tail);
    SplitFirst("", '/', "v1" + ['/'] + ("sessions" + ['/'] + tail));
    assert "/v1/sessions/" + id + "/" + rest == "" + ['/'] + ("v1" + ['/'] + ("sessions" + ['/'] + tail));
  }

  lemma SplitKill(hypothesis: string)
    requires '/' !in hypothesis
    ensures Split("hypotheses/" + hypothesis + "/kill", '/') == ["hypotheses", hypothesis, "kill"]
  {
    hide Split;
    SplitWhole("kill", '/');
    SplitFirst(hypothesis, '/', "kill");
    SplitFirst("hypotheses", '/', hypothesis + ['/'] + "kill");
    assert "hypotheses/" + hypothesis + "/kill" == "hypotheses" + ['/'] + (hypothesis + ['/'] + "kill");
  }

  lemma SplitOpen()
    ensures Split("/v1/sessions", '/') == ["", "v1", "sessions"]
  {
    hide Split;
    SplitWhole("sessions", '/');
    SplitFirst("v1", '/', "sessions");
    SplitFirst("", '/', "v1/sessions");
    assert "/v1/sessions" == "" + ['/'] + "v1/sessions" && "v1/sessions" == "v1" + ['/'] + "sessions";
  }

  lemma SplitAction(c: Command)
    requires !c.SessionOpen? && !c.HypothesisKill?
    ensures ["", "v1", "sessions", c.session] + Split(Action(c), '/') == Address(c)
  {
    hide Split;
    if c.GapClose? {
      SplitWhole("close", '/');
      SplitFirst("gaps", '/', "close");
      assert "gaps/close" == "gaps" + ['/'] + "close";
    } else {
      SplitWhole(Action(c), '/');
    }
  }

  lemma PathOf(c: Command)
    requires !c.SessionOpen?
    ensures WritePath(Request(c)) == "/v1/sessions/" + c.session + "/" +
      (if c.HypothesisKill? then "hypotheses/" + c.hypothesis + "/kill" else Action(c))
  {
  }

  /** Ids without a slash keep to their own segment. */
  lemma PathSplits(c: Command)
    requires forall i :: 0 <= i < |Ids(c)| ==> '/' !in Ids(c)[i]
    ensures Split(WritePath(Request(c)), '/') == Address(c)
  {
    hide Split;
    if c.SessionOpen? {
      SplitOpen();
    } else {
      assert '/' !in Ids(c)[0];
      PathOf(c);
      if c.HypothesisKill? {
        assert '/' !in Ids(c)[1];
        SplitKill(c.hypothesis);
        SplitSession(c.session, "hypotheses/" + c.hypothesis + "/kill");
      } else {
        SplitAction(c);
        SplitSession(c.session, Action(c));
      }
    }
  }

  lemma BeforeAbsent(s: string, c: char)
    ensures Before(s, c) == s <==> c !in s
  {
    if c !in s {
      SplitWhole(s, c);
    }
  }

  predicate Plain(c: char) {
    'a' <= c <= 'z' || c == '/' || c == '1'
  }

  predicate AllPlain(s: string) {
    forall i :: 0 <= i < |s| ==> Plain(s[i])
  }

  lemma ActionPlain(c: Command)
    ensures AllPlain(Action(c))
  {
  }

  predicate InIds(x: char, c: Command) {
    exists i :: 0 <= i < |Ids(c)| && x in Ids(c)[i]
  }

  lemma Around(x: char, before: string, id: string, after: string)
    requires !Plain(x) && AllPlain(before)
    ensures x in before + id + after <==> x in id || x in after
  {
  }

  lemma SessionBrings(x: char, session: string, rest: string)
    requires !Plain(x)
    ensures x in "/v1/sessions/" + session + "/" + rest <==> x in session || x in rest
  {
    Around(x, "/v1/sessions/", session, "/" + rest);
    Around(x, "/", rest, "");
    assert "/" + rest + "" == "/" + rest;
    assert "/v1/sessions/" + session + "/" + rest == "/v1/sessions/" + session + ("/" + rest);
  }

  lemma HypothesisBrings(x: char, hypothesis: string)
    requires !Plain(x)
    ensures x in "hypotheses/" + hypothesis + "/kill" <==> x in hypothesis
  {
    Around(x, "hypotheses/", hypothesis, "/kill");
    assert AllPlain("/kill");
  }

  /** A character that no fixed part of a path contains is in the path exactly when an id brings it. */
  lemma OnlyIdsBring(x: char, c: Command)
    requires !Plain(x)
    ensures x in WritePath(Request(c)) <==> InIds(x, c)
  {
    if c.SessionOpen? {
      assert AllPlain("/v1/sessions");
    } else {
      hide Action, Plain, WritePath;
      PathOf(c);
      assert Ids(c)[0] == c.session;
      if c.HypothesisKill? {
        assert Ids(c)[1] == c.hypothesis;
        HypothesisBrings(x, c.hypothesis);
        SessionBrings(x, c.session, "hypotheses/" + c.hypothesis + "/kill");
      } else {
        ActionPlain(c);
        SessionBrings(x, c.session, Action(c));
      }
    }
  }

  predicate SafeId(id: string) {
    SafeSegment(id) && Clean(id)
  }

  predicate SafeIds(c: Command) {
    forall i :: 0 <= i < |Ids(c)| ==> SafeId(Ids(c)[i])
  }

  lemma StartsWithOneSlash(c: Command)
    ensures "/" <= WritePath(Request(c)) && !("//" <= WritePath(Request(c)))
  {
    if !c.SessionOpen? {
      PathOf(c);
      assert WritePath(Request(c))[1] == 'v';
    } else {
      assert WritePath(Request(c))[1] == 'v';
    }
  }

  lemma IdsClean(c: Command)
    ensures Clean(WritePath(Request(c))) <==> forall i :: 0 <= i < |Ids(c)| ==> Clean(Ids(c)[i])
  {
    hide WritePath, Request, Ids;
    var path := WritePath(Request(c));
    if !Clean(path) {
      var k :| 0 <= k < |path| && Control(path[k]);
      OnlyIdsBring(path[k], c);
    }
    forall i, k | 0 <= i < |Ids(c)| && 0 <= k < |Ids(c)[i]| && Control(Ids(c)[i][k]) ensures !Clean(path) {
      OnlyIdsBring(Ids(c)[i][k], c);
      assert Ids(c)[i][k] in path;
    }
  }

  lemma AddressDots(c: Command)
    ensures HasDots(Address(c)) <==> exists i :: 0 <= i < |Ids(c)| && Dots(Ids(c)[i])
  {
    if !c.SessionOpen? {
      assert Address(c)[3] == Ids(c)[0];
      if c.HypothesisKill? {
        assert Address(c)[5] == Ids(c)[1];
      }
    }
  }

  lemma {:induction false} PartsHoldNoSeparator(s: string, c: char, i: nat)
    requires i < |Split(s, c)|
    ensures c !in Split(s, c)[i]
    decreases |s|
  {
    var first := Before(s, c);
    if |first| < |s| && i > 0 {
      PartsHoldNoSeparator(s[|first| + 1..], c, i - 1);
    }
  }

  lemma AddressHoldsIds(c: Command, i: nat)
    requires i < |Ids(c)|
    ensures exists k :: 0 <= k < |Address(c)| && Address(c)[k] == Ids(c)[i]
  {
    assert Address(c)[if i == 0 then 3 else 5] == Ids(c)[i];
  }

  /** The path goes where it is meant to: it is accepted, is all path, and has the intended segments. */
  predicate Addressed(c: Command) {
    var path := WritePath(Request(c));
    CheckPath(path) == Ok(path) && Split(path, '/') == Address(c)
  }

  lemma SafeIdsAddressed(c: Command)
    requires SafeIds(c)
    ensures Addressed(c)
  {
    hide WritePath, Request, Ids, Split, Address, HasDots, Dots;
    var path := WritePath(Request(c));
    StartsWithOneSlash(c);
    OnlyIdsBring('#', c);
    OnlyIdsBring('\\', c);
    OnlyIdsBring('%', c);
    OnlyIdsBring('?', c);
    IdsClean(c);
    BeforeAbsent(path, '?');
    PathSplits(c);
    AddressDots(c);
  }

  lemma AddressedIdsSafe(c: Command)
    requires Addressed(c) && (forall i :: 0 <= i < |Ids(c)| ==> Ids(c)[i] != "")
    ensures SafeIds(c)
  {
    hide WritePath, Request, Ids, Split, Address, HasDots, Dots;
    var path := WritePath(Request(c));
    BeforeAbsent(path, '?');
    IdsClean(c);
    AddressDots(c);
    OnlyIdsBring('#', c);
    OnlyIdsBring('\\', c);
    OnlyIdsBring('%', c);
    OnlyIdsBring('?', c);
    forall i | 0 <= i < |Ids(c)| ensures SafeId(Ids(c)[i]) {
      AddressHoldsIds(c, i);
      var k :| 0 <= k < |Address(c)| && Address(c)[k] == Ids(c)[i];
      PartsHoldNoSeparator(path, '/', k);
    }
  }

  /**
   * The check on ids is exact: among non-empty ids those and no others give a path that is
   * accepted and splits into the intended segments.
   */
  lemma SafeIdsExactly(c: Command)
    requires forall i :: 0 <= i < |Ids(c)| ==> Ids(c)[i] != ""
    ensures SafeIds(c) <==> Addressed(c)
  {
    hide SafeIds, Addressed;
    if SafeIds(c) {
      SafeIdsAddressed(c);
    }
    if Addressed(c) {
      AddressedIdsSafe(c);
    }
  }

  lemma RouteOk(c: Command)
    ensures Route(c).Ok? <==> CheckPath(WritePath(Request(c))).Ok? && forall i :: 0 <= i < |Ids(c)| ==> SafeSegment(Ids(c)[i])
    ensures Route(c).Ok? ==> Route(c).value == WritePath(Request(c))
  {
    hide WritePath, CheckPath, Action, SafeSegment;
    if c.HypothesisKill? {
      assert Ids(c)[0] == c.session && Ids(c)[1] == c.hypothesis;
    } else if !c.SessionOpen? {
      assert Ids(c)[0] == c.session;
    }
  }

  lemma AcceptedIsClean(path: string)
    requires CheckPath(path).Ok?
    ensures Clean(path)
  {
  }

  /** A command is routed exactly when its ids are safe, and then to its own address. */
  lemma RoutedExactly(c: Command)
    ensures Route(c).Ok? <==> SafeIds(c)
    ensures Route(c).Ok? ==> Addressed(c) && Route(c).value == WritePath(Request(c))
  {
    hide WritePath, CheckPath, Action, Route, Request, Ids, SafeSegment, Clean, Split;
    RouteOk(c);
    if SafeIds(c) {
      SafeIdsAddressed(c);
    }
    if Route(c).Ok? {
      AcceptedIsClean(WritePath(Request(c)));
      IdsClean(c);
    }
  }

  /** No two commands share a path: the path tells the session, the action and the hypothesis. */
  lemma RoutesInjective(a: Command, b: Command)
    requires Route(a).Ok? && Route(b).Ok? && Route(a).value == Route(b).value
    ensures a == b
  {
    hide Route, SafeIds, WritePath, Split, CheckPath;
    RoutedExactly(a);
    RoutedExactly(b);
    assert Address(a) == Address(b);
    assert |Address(a)| >= 5 ==> Address(a)[3] == Address(b)[3] && Address(a)[4] == Address(b)[4];
    assert |Address(a)| >= 7 ==> Address(a)[5] == Address(b)[5];
  }

  /** Without the check, an id can borrow another command's address; the check refuses it. */
  lemma UncheckedIdsCollide(session: string)
    ensures WritePath(Request(Close(session + "/gaps"))) == WritePath(Request(GapClose(session)))
    ensures Close(session + "/gaps") != GapClose(session) && Route(Close(session + "/gaps")).Err?
  {
    hide Route, WritePath;
    var id := session + "/gaps";
    PathOf(Close(id));
    PathOf(GapClose(session));
    assert id + "/" + "close" == session + "/" + "gaps/close";
    RoutedExactly(Close(id));
    assert Ids(Close(id))[0] == id && id[|session|] == '/';
  }
}
