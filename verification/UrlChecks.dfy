/**
 * The command line's text checks by the characters they look for, and the refusal of an
 * origin, a path and a write request: the first check that fails, in order.
 */
module UrlChecks {
  import opened Wrappers
  import opened Routes
  import opened WriteBodies
  import opened WriteRequests

  // ----- characters

  /** No space, no control character. */
  predicate Visible(s: string) {
    forall i :: 0 <= i < |s| ==> s[i] as int > 32 && s[i] as int != 127
  }

  predicate Holds(s: string, c: char) {
    exists i :: 0 <= i < |s| && s[i] == c
  }

  predicate HoldsAny(s: string, a: char, b: char, c: char) {
    Holds(s, a) || Holds(s, b) || Holds(s, c)
  }

  lemma VisibleExactly(s: string)
    ensures Clean(s) <==> Visible(s)
  {
  }

  // ----- an origin

  /** Where the text checks stop: with an error, or with the authority behind the scheme. */
  predicate OriginAnswer(origin: string, r: Result<string, UrlError>) {
    if !Visible(origin) || Holds(origin, '\\') then r == Err(OriginCharacters)
    else if |origin| < 8 || origin[..8] != "https://" then r == Err(OriginNotHttps)
    else if Holds(origin[8..], '@') then r == Err(UserInformation)
    else if |origin| == 8 || HoldsAny(origin[8..], '/', '?', '#') then r == Err(OriginNotBare)
    else r.Ok? && origin == "https://" + r.value
  }

  lemma CheckOriginExactly(origin: string, r: Result<string, UrlError>)
    ensures r == CheckOrigin(origin) <==> OriginAnswer(origin, r)
  {
    VisibleExactly(origin);
    hide Clean, Visible;
    if |origin| >= 8 && origin[..8] == "https://" {
      assert origin == "https://" + origin[8..];
    }
    if r.Ok? && origin == "https://" + r.value {
      assert origin[8..] == r.value;
    }
  }

  // ----- a path

  /** The pathname: what comes before the first question mark. */
  predicate IsPathname(path: string, pathname: string) {
    pathname <= path && !Holds(pathname, '?') && (pathname == path || path[|pathname|] == '?')
  }

  /** Segment i of the pathname, from a slash up to the next one or the end, is one or two dots. */
  predicate DotsAt(pathname: string, i: nat, n: nat) {
    && 1 <= n <= 2 && i + n < |pathname| && pathname[i] == '/'
    && (forall k :: i < k <= i + n ==> pathname[k] == '.')
    && (i + n + 1 == |pathname| || pathname[i + n + 1] == '/')
  }

  predicate DotSegment(pathname: string) {
    exists i, n :: 0 <= i < |pathname| && 1 <= n <= 2 && DotsAt(pathname, i, n)
  }

  lemma DotsOfOne(segment: string)
    ensures Dots(segment) <==> 1 <= |segment| <= 2 && forall k :: 0 <= k < |segment| ==> segment[k] == '.'
  {
  }

  lemma FirstDots(pathname: string)
    requires "/" <= pathname
    ensures var first := Before(pathname[1..], '/');
            Dots(first) <==> DotsAt(pathname, 0, |first|)
  {
    var first := Before(pathname[1..], '/');
    DotsOfOne(first);
    assert forall k :: 0 <= k < |first| ==> pathname[k + 1] == first[k];
    assert |first| < |pathname| - 1 ==> pathname[1..][|first|] == pathname[|first| + 1];
    hide Dots;
  }

  /** Dots at the first slash are the first segment. */
  lemma DotsAreFirst(pathname: string, n: nat)
    requires "/" <= pathname && DotsAt(pathname, 0, n)
    ensures |Before(pathname[1..], '/')| == n
  {
    var rest := pathname[1..];
    assert rest == rest[..n] + rest[n..];
    assert '/' !in rest[..n];
    BeforeIs(rest[..n], '/', rest[n..]);
  }

  lemma LaterDots(pathname: string, k: nat, i: nat, n: nat)
    requires k <= i
    ensures k <= |pathname| ==> (DotsAt(pathname, i, n) <==> DotsAt(pathname[k..], i - k, n))
  {
    if k <= |pathname| {
      var rest := pathname[k..];
      assert forall j :: 0 <= j < |rest| ==> rest[j] == pathname[k + j];
      if DotsAt(rest, i - k, n) {
        forall j | i < j <= i + n ensures pathname[j] == '.' {
          assert rest[j - k] == '.';
        }
      }
    }
  }

  /** Among the segments there is one of dots exactly when a slash is followed by one or two dots and a slash or the end. */
  lemma {:induction false} DotSegmentExactly(pathname: string)
    requires "/" <= pathname
    ensures HasDots(Split(pathname, '/')) <==> DotSegment(pathname)
  {
    SplitFirst("", '/', pathname[1..]);
    assert "" + ['/'] + pathname[1..] == pathname;
    assert Split(pathname, '/') == [""] + Split(pathname[1..], '/');
    SegmentsDots(pathname);
    var rest := Split(pathname[1..], '/');
    if HasDots(rest) {
      var i :| 0 <= i < |rest| && Dots(rest[i]);
      assert Split(pathname, '/')[i + 1] == rest[i];
    }
  }

  lemma {:induction false} SegmentsDots(pathname: string)
    requires "/" <= pathname
    ensures HasDots(Split(pathname[1..], '/')) <==> DotSegment(pathname)
    decreases |pathname|
  {
    var rest := pathname[1..];
    var first := Before(rest, '/');
    FirstDots(pathname);
    if |first| == |rest| {
      assert first == rest;
      assert Split(rest, '/') == [rest] + [];
      HasDotsCons(rest, []);
      OneSegment(pathname);
    } else {
      var next := pathname[|first| + 1..];
      assert rest[|first|] == '/' && next[0] == '/';
      assert next[1..] == rest[|first| + 1..];
      SegmentsDots(next);
      assert Split(rest, '/') == [first] + Split(next[1..], '/');
      HasDotsCons(first, Split(next[1..], '/'));
      DotSegmentCons(pathname);
    }
  }

  lemma HasDotsCons(first: string, rest: seq<string>)
    ensures HasDots([first] + rest) <==> Dots(first) || HasDots(rest)
  {
    hide Dots;
    var all := [first] + rest;
    if HasDots(rest) {
      var i :| 0 <= i < |rest| && Dots(rest[i]);
      assert all[i + 1] == rest[i];
    }
    if Dots(first) {
      assert Dots(all[0]);
    }
  }

  lemma OneSegment(pathname: string)
    requires "/" <= pathname && '/' !in pathname[1..]
    ensures DotSegment(pathname) <==> DotsAt(pathname, 0, |pathname| - 1)
  {
    assert forall i :: 0 < i < |pathname| ==> pathname[i] == pathname[1..][i - 1];
    if DotSegment(pathname) {
      var i, n :| 0 <= i < |pathname| && 1 <= n <= 2 && DotsAt(pathname, i, n);
      assert i == 0;
    }
  }

  /** Dots are in the first segment, or in what starts at the next slash. */
  lemma DotSegmentCons(pathname: string)
    requires "/" <= pathname
    requires var k := |Before(pathname[1..], '/')| + 1; k < |pathname|
    ensures var k := |Before(pathname[1..], '/')| + 1;
            DotSegment(pathname) <==> DotsAt(pathname, 0, k - 1) || DotSegment(pathname[k..])
  {
    var first := Before(pathname[1..], '/');
    var k := |first| + 1;
    assert forall i :: 0 < i < k ==> pathname[i] == first[i - 1];
    if DotSegment(pathname) {
      var i, n :| 0 <= i < |pathname| && 1 <= n <= 2 && DotsAt(pathname, i, n);
      if i == 0 {
        DotsAreFirst(pathname, n);
      } else {
        LaterDots(pathname, k, i, n);
      }
    }
    if DotSegment(pathname[k..]) {
      var i, n :| 0 <= i < |pathname[k..]| && 1 <= n <= 2 && DotsAt(pathname[k..], i, n);
      LaterDots(pathname, k, i + k, n);
    }
  }

  /** Where the checks of a path stop: with an error, or with its pathname. */
  ghost predicate PathAnswer(path: string, r: Result<string, UrlError>) {
    if |path| == 0 || path[0] != '/' || (|path| > 1 && path[1] == '/') then r == Err(PathNotAbsolute)
    else if Holds(path, '#') || Holds(path, '\\') || !Visible(path) then r == Err(PathCharacters)
    else
      exists pathname :: IsPathname(path, pathname) &&
                         r == if Holds(pathname, '%') || DotSegment(pathname) then Err(PathSegments) else Ok(pathname)
  }

  lemma PathnameExactly(path: string, pathname: string)
    ensures IsPathname(path, pathname) <==> pathname == Pathname(path)
  {
    if IsPathname(path, pathname) {
      assert path == pathname + path[|pathname|..];
      BeforeIs(pathname, '?', path[|pathname|..]);
    }
  }

  lemma CheckPathAnswers(path: string)
    ensures PathAnswer(path, CheckPath(path))
  {
    VisibleExactly(path);
    hide Clean, Visible, IsPathname, DotSegment, HasDots, Split;
    forall pathname ensures IsPathname(path, pathname) <==> pathname == Pathname(path) {
      PathnameExactly(path, pathname);
    }
    if "/" <= path && !("//" <= path) {
      PathnameRooted(path);
      DotSegmentExactly(Pathname(path));
    }
    assert "//" <= path <==> |path| > 1 && path[0] == '/' && path[1] == '/';
    hide Pathname;
  }

  lemma PathnameRooted(path: string)
    requires "/" <= path
    ensures "/" <= Pathname(path)
  {
    PathnameExactly(path, Pathname(path));
  }

  // ----- a URL

  /** What the parser's reading of an origin is refused for. */
  function OriginRefused(u: Option<Url>): Option<UrlError> {
    if u.None? then Some(OriginUnparsed)
    else if !(u.value.scheme == "https" && u.value.host.Some?) then Some(OriginNotHttps)
    else if |u.value.username| > 0 || u.value.password.Some? then Some(UserInformation)
    else if u.value.query.Some? || u.value.fragment.Some? || !(u.value.path == "/") then Some(OriginNotBare)
    else None
  }

  /** The origin's text, the origin as parsed, the path's text, and the path as joined: the first that is refused. */
  ghost predicate UrlAnswer(parse: ParseUrl, join: JoinUrl, origin: string, path: string, r: Result<string, UrlError>) {
    exists o, p ::
      && OriginAnswer(origin, o) && PathAnswer(path, p)
      && r == if o.Err? then Err(o.error)
              else if OriginRefused(parse(origin)).Some? then Err(OriginRefused(parse(origin)).value)
              else if p.Err? then Err(p.error)
              else
                match parse(origin + "/")
                case None => Err(OriginUnparsed)
                case Some(base) =>
                  match join(base, path)
                  case None => Err(PathUnparsed)
                  case Some(url) => if url.origin == base.origin then Ok(url.text) else Err(OffOrigin)
  }

  lemma BuildUrlAnswers(parse: ParseUrl, join: JoinUrl, origin: string, path: string)
    ensures UrlAnswer(parse, join, origin, path, BuildUrl(parse, join, origin, path))
  {
    CheckOriginExactly(origin, CheckOrigin(origin));
    CheckPathAnswers(path);
    hide CheckOrigin, CheckPath, OriginAnswer, PathAnswer;
  }

  // ----- a write request

  /** Printable characters without a space, 1 to 4096 of them. */
  predicate PrintableKey(key: string) {
    1 <= |key| <= 4096 && forall i :: 0 <= i < |key| ==> '!' <= key[i] <= '~'
  }

  lemma HeaderKeyExactly(key: string)
    ensures HeaderKey(key) <==> PrintableKey(key)
  {
    hide Utf8Length;
    if forall i :: 0 <= i < |key| ==> '!' <= key[i] <= '~' {
      AsciiLength(key);
    }
  }

  /** One component of a path: not empty, no separator, no escape, and not one or two dots. */
  predicate Component(id: string) {
    && |id| > 0 && !Holds(id, '/') && !Holds(id, '?') && !Holds(id, '#') && !Holds(id, '%') && !Holds(id, '\\')
    && !(|id| <= 2 && forall i :: 0 <= i < |id| ==> id[i] == '.')
  }

  lemma ComponentExactly(id: string)
    ensures SafeSegment(id) <==> Component(id)
  {
    DotsOfOne(id);
    hide Dots;
  }

  /** Session id, hypothesis id, replay key, URL, body and size: the first that is refused, or the request. */
  ghost predicate WriteAnswer(
    parse: ParseUrl, join: JoinUrl, c: Command, key: string, origin: string, b: WriteBody, limits: Option<Limits>,
    r: Result<Outgoing, WriteError>)
  {
    if !c.SessionOpen? && !Component(c.session) then r == Err(UnsafeSession)
    else if c.HypothesisKill? && !Component(c.hypothesis) then r == Err(UnsafeHypothesis)
    else if !PrintableKey(key) then r == Err(UnsafeKey)
    else
      exists url ::
        && UrlAnswer(parse, join, origin, Join(Address(c), '/'), url)
        && match url
           case Err(e) => r == Err(RefusedUrl(e))
           case Ok(requested) =>
             || (exists e :: BodyRefused(b, limits, e) && r == Err(RefusedBody(e)))
             || exists text :: Carries(b, limits, text) &&
                               r == if Utf8Length(text) <= 524_288 then Ok(Outgoing(requested, key, text)) else Err(TooLarge)
  }

  lemma AddressJoined(c: Command)
    requires !c.SessionOpen? ==> Component(c.session)
    requires c.HypothesisKill? ==> Component(c.hypothesis)
    ensures Join(Address(c), '/') == WritePath(Request(c))
  {
    hide Join, Split, Address, WritePath;
    assert c.HypothesisKill? ==> '/' !in c.hypothesis;
    assert !c.SessionOpen? ==> '/' !in c.session;
    PathSplits(c);
    JoinSplit(WritePath(Request(c)), '/');
  }

  /** After the ids and the key: the URL, the body and the size. */
  lemma PrepareAfterKey(
    parse: ParseUrl, join: JoinUrl, c: Command, key: string, origin: string, b: WriteBody, limits: Option<Limits>)
    requires !c.SessionOpen? ==> SafeSegment(c.session)
    requires c.HypothesisKill? ==> SafeSegment(c.hypothesis)
    requires HeaderKey(key)
    ensures Prepare(parse, join, c, key, origin, b, limits) ==
            match BuildUrl(parse, join, origin, WritePath(Request(c)))
            case Err(e) => Err(RefusedUrl(e))
            case Ok(url) =>
              match EncodedBody(b, limits)
              case Err(e) => Err(RefusedBody(e))
              case Ok(text) => if Utf8Length(text) > MAX_REQUEST_BYTES then Err(TooLarge) else Ok(Outgoing(url, key, text))
  {
    hide SafeSegment, HeaderKey, BuildUrl, EncodedBody, Utf8Length, WritePath, Action;
  }

  lemma PrepareBeforeUrl(
    parse: ParseUrl, join: JoinUrl, c: Command, key: string, origin: string, b: WriteBody, limits: Option<Limits>)
    ensures var r := Prepare(parse, join, c, key, origin, b, limits);
            if !c.SessionOpen? && !SafeSegment(c.session) then r == Err(UnsafeSession)
            else if c.HypothesisKill? && !SafeSegment(c.hypothesis) then r == Err(UnsafeHypothesis)
            else !HeaderKey(key) ==> r == Err(UnsafeKey)
  {
    hide SafeSegment, HeaderKey, BuildUrl, EncodedBody, Utf8Length, WritePath, Action;
  }

  /** A write request is refused by the first check that fails, with that check's error, and otherwise sent as said. */
  lemma PrepareAnswers(
    parse: ParseUrl, join: JoinUrl, c: Command, key: string, origin: string, b: WriteBody, limits: Option<Limits>)
    ensures WriteAnswer(parse, join, c, key, origin, b, limits, Prepare(parse, join, c, key, origin, b, limits))
  {
    hide SafeSegment, HeaderKey, PrintableKey, BuildUrl, UrlAnswer, EncodedBody, BodyRefused, Carries, Utf8Length, WritePath, Component, Action, Request, Address, Join, Prepare;
    if !c.SessionOpen? {
      ComponentExactly(c.session);
    }
    if c.HypothesisKill? {
      ComponentExactly(c.hypothesis);
    }
    HeaderKeyExactly(key);
    PrepareBeforeUrl(parse, join, c, key, origin, b, limits);
    if (!c.SessionOpen? ==> Component(c.session)) && (c.HypothesisKill? ==> Component(c.hypothesis)) && PrintableKey(key) {
      AddressJoined(c);
      PrepareAfterKey(parse, join, c, key, origin, b, limits);
      BuildUrlAnswers(parse, join, origin, WritePath(Request(c)));
      BodyStepExactly(b, limits);
    }
  }
}
