/** Whitespace and trimming as ECMAScript has them. */
module EcmaText {
  predicate Whitespace(c: char) {
    var p := c as int;
    || 0x09 <= p <= 0x0d || p == 0x20 || p == 0xa0 || p == 0x1680 || 0x2000 <= p <= 0x200a
    || p == 0x2028 || p == 0x2029 || p == 0x202f || p == 0x205f || p == 0x3000 || p == 0xfeff
  }

  predicate Blank(s: string) {
    forall i :: 0 <= i < |s| ==> Whitespace(s[i])
  }

  function TrimStart(s: string): string {
    if s != "" && Whitespace(s[0]) then TrimStart(s[1..]) else s
  }

  function TrimEnd(s: string): string {
    if s != "" && Whitespace(s[|s| - 1]) then TrimEnd(s[..|s| - 1]) else s
  }

  function Trim(s: string): string {
    TrimEnd(TrimStart(s))
  }

  /** Nothing left to trim. */
  predicate Tight(s: string) {
    s == "" || (!Whitespace(s[0]) && !Whitespace(s[|s| - 1]))
  }

  predicate AllBut(s: string, left: string, middle: string, right: string) {
    s == left + middle + right && Blank(left) && Blank(right) && Tight(middle)
  }

  lemma {:induction false} TrimStartExactly(left: string, rest: string)
    requires Blank(left) && (rest == "" || !Whitespace(rest[0]))
    ensures TrimStart(left + rest) == rest
  {
    if left == "" {
      assert left + rest == rest;
    } else {
      assert (left + rest)[1..] == left[1..] + rest;
      TrimStartExactly(left[1..], rest);
    }
  }

  lemma {:induction false} TrimEndExactly(rest: string, right: string)
    requires Blank(right) && (rest == "" || !Whitespace(rest[|rest| - 1]))
    ensures TrimEnd(rest + right) == rest
  {
    if right == "" {
      assert rest + right == rest;
    } else {
      assert (rest + right)[..|rest + right| - 1] == rest + right[..|right| - 1];
      TrimEndExactly(rest, right[..|right| - 1]);
    }
  }

  lemma {:induction false} TrimStartTakes(s: string) returns (left: string)
    ensures s == left + TrimStart(s) && Blank(left)
    ensures TrimStart(s) == "" || !Whitespace(TrimStart(s)[0])
  {
    left := "";
    if s != "" && Whitespace(s[0]) {
      var more := TrimStartTakes(s[1..]);
      left := [s[0]] + more;
      assert s == [s[0]] + s[1..];
    }
  }

  lemma {:induction false} TrimEndTakes(s: string) returns (right: string)
    ensures s == TrimEnd(s) + right && Blank(right)
    ensures TrimEnd(s) == "" || !Whitespace(TrimEnd(s)[|TrimEnd(s)| - 1])
  {
    right := "";
    if s != "" && Whitespace(s[|s| - 1]) {
      var more := TrimEndTakes(s[..|s| - 1]);
      right := more + [s[|s| - 1]];
      assert s == s[..|s| - 1] + [s[|s| - 1]];
    }
  }

  lemma TrimTakes(s: string) returns (left: string, right: string)
    ensures AllBut(s, left, Trim(s), right)
  {
    left := TrimStartTakes(s);
    var rest := TrimStart(s);
    right := TrimEndTakes(rest);
    assert s == left + Trim(s) + right;
    if Trim(s) != "" {
      assert rest[0] == Trim(s)[0];
    }
  }

  lemma BlankTrims(s: string)
    requires Blank(s)
    ensures Trim(s) == ""
  {
    TrimStartExactly(s, "");
    assert s + "" == s;
  }

  lemma TightKept(s: string, left: string, middle: string, right: string)
    requires AllBut(s, left, middle, right)
    ensures Trim(s) == middle
  {
    if middle == "" {
      assert Blank(s);
      BlankTrims(s);
    } else {
      assert s == left + (middle + right);
      assert (middle + right)[0] == middle[0];
      TrimStartExactly(left, middle + right);
      TrimEndExactly(middle, right);
    }
  }

  /** Trimming takes whitespace only, takes all it can, and is the only way to do so. */
  lemma TrimExactly(s: string, t: string)
    ensures t == Trim(s) <==> exists left, right :: AllBut(s, left, t, right)
  {
    if t == Trim(s) {
      var left, right := TrimTakes(s);
      assert AllBut(s, left, t, right);
    }
    if left, right :| AllBut(s, left, t, right) {
      TightKept(s, left, t, right);
    }
  }

  lemma TrimIdempotent(s: string)
    ensures Trim(Trim(s)) == Trim(s)
  {
    var left, right := TrimTakes(s);
    var t := Trim(s);
    assert "" + t + "" == t;
    assert AllBut(t, "", t, "");
    TightKept(t, "", t, "");
  }
}
