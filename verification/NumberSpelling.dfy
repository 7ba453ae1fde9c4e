/**
 * Which of the number tokens that read as a double is printed: without an exponent for
 * magnitudes from 0.000001 up to 10^21, otherwise with one non-zero digit before the point
 * and a signed exponent, and in either layout the shortest token there is.
 */
module NumberSpelling {
  import opened Wrappers
  import opened Decimals
  import opened NumberText

  // ----- the parts of a token

  function PointAnd(fraction: string): string {
    if fraction == [] then "" else "." + fraction
  }

  lemma PartsAfterWhole(whole: string, rest: string) returns (fraction: string, exponent: string)
    requires AllDigits(whole) && ReadAfterWhole(whole, rest).Some?
    ensures rest == PointAnd(fraction) + exponent && AllDigits(fraction) && ReadExponent(exponent).Some?
    ensures ReadAfterWhole(whole, rest).value == (whole + fraction, |whole| + ReadExponent(exponent).value)
  {
    hide ReadExponent;
    if rest != [] && rest[0] == '.' {
      var j := DigitRun(rest[1..]);
      fraction, exponent := rest[1..][..j], rest[1..][j..];
      assert rest == "." + (fraction + exponent);
    } else {
      fraction, exponent := [], rest;
      assert whole + [] == whole && "" + rest == rest;
    }
  }

  /** The whole digits, the digits after the point and the exponent part of an unsigned token. */
  lemma Parts(u: string) returns (whole: string, fraction: string, exponent: string)
    requires ReadUnsigned(u).Some?
    ensures u == whole + (PointAnd(fraction) + exponent) && ReadExponent(exponent).Some?
    ensures ReadUnsigned(u).value == (whole + fraction, |whole| + ReadExponent(exponent).value)
    ensures whole != [] && (|whole| > 1 ==> whole[0] != '0')
    ensures AllDigits(whole) && AllDigits(fraction)
  {
    hide ReadAfterWhole, ReadExponent, PointAnd;
    var i := DigitRun(u);
    whole := u[..i];
    fraction, exponent := PartsAfterWhole(whole, u[i..]);
  }

  /** An exponent part holds one letter, at its start. */
  lemma ExponentParts(s: string)
    requires ReadExponent(s).Some? && s != []
    ensures (s[0] == 'e' || s[0] == 'E') && forall i :: 0 < i < |s| ==> s[i] != 'e' && s[i] != 'E' && s[i] != '.'
  {
    var signed := |s| > 1 && (s[1] == '-' || s[1] == '+');
    var digits := if signed then s[2..] else s[1..];
    assert digits[..|digits|] == digits;
    assert forall i :: 0 < i < |s| ==> (signed && i == 1) || s[i] in digits;
  }

  // ----- the two layouts

  predicate HasLetter(u: string) {
    exists i :: 0 <= i < |u| && (u[i] == 'e' || u[i] == 'E')
  }

  /** One digit that is not zero before the point, and an exponent with a sign. */
  predicate Scientific(u: string) {
    u != [] && u[0] != '0' && exists k :: 0 < k < |u| && ExponentAt(u, k) && (k == 1 || u[1] == '.')
  }

  predicate ExponentAt(u: string, k: nat) {
    0 < k < |u| - 1 && u[k] == 'e' && (u[k + 1] == '+' || u[k + 1] == '-')
  }

  predicate Layout(u: string, n: int) {
    if -6 < n <= 21 then !HasLetter(u) else Scientific(u)
  }

  lemma LettersOfParts(head: string, exponent: string)
    requires forall i :: 0 <= i < |head| ==> head[i] != 'e' && head[i] != 'E'
    requires ReadExponent(exponent).Some?
    ensures HasLetter(head + exponent) <==> exponent != []
    ensures forall k :: 0 <= k < |head + exponent| && (head + exponent)[k] == 'e' ==> k == |head|
  {
    var u := head + exponent;
    if exponent != [] {
      ExponentParts(exponent);
      assert u[|head|] == exponent[0];
    }
    forall k | 0 <= k < |u| && u[k] == 'e' ensures k == |head| {
      assert k >= |head| ==> u[k] == exponent[k - |head|];
    }
  }

  lemma NoLetters(whole: string, fraction: string)
    requires AllDigits(whole) && AllDigits(fraction)
    ensures var head := whole + PointAnd(fraction); forall i :: 0 <= i < |head| ==> head[i] != 'e' && head[i] != 'E'
  {
  }

  lemma PlainParts(u: string) returns (whole: string, fraction: string)
    requires ReadUnsigned(u).Some? && !HasLetter(u)
    ensures ReadUnsigned(u).value == (whole + fraction, |whole|)
    ensures u == whole + PointAnd(fraction) && whole != [] && (|whole| > 1 ==> whole[0] != '0')
  {
    var exponent: string;
    whole, fraction, exponent := Parts(u);
    hide ReadUnsigned, AllDigits, HasLetter, PointAnd;
    var head := whole + PointAnd(fraction);
    assert u == head + exponent;
    NoLetters(whole, fraction);
    LettersOfParts(head, exponent);
    assert head + [] == head;
  }

  function Signed(negative: bool, digits: string): string {
    "e" + (if negative then "-" else "+") + digits
  }

  /** The exponent that a sign and digits spell. */
  function ExponentOf(negative: bool, digits: string): int
    requires AllDigits(digits)
  {
    if negative then -(ValueOf(digits) as int) else ValueOf(digits)
  }

  lemma SignedParts(exponent: string)
    requires ReadExponent(exponent).Some? && |exponent| > 1 && exponent[0] == 'e' && (exponent[1] == '+' || exponent[1] == '-')
    ensures var digits := exponent[2..];
            && AllDigits(digits) && digits != [] && exponent == Signed(exponent[1] == '-', digits)
            && ReadExponent(exponent).value == ExponentOf(exponent[1] == '-', digits)
  {
    assert exponent[2..][..|exponent[2..]|] == exponent[2..];
    hide ValueOf;
  }

  lemma SecondDigit(whole: string, tail: string)
    requires AllDigits(whole)
    ensures |whole| > 1 ==> IsDigit((whole + tail)[1])
  {
  }

  lemma ExponentAtHead(head: string, exponent: string, k: nat)
    requires forall i :: 0 <= i < |head| ==> head[i] != 'e' && head[i] != 'E'
    requires ReadExponent(exponent).Some? && ExponentAt(head + exponent, k)
    ensures k == |head| && |exponent| > 1 && exponent[0] == 'e' && (exponent[1] == '+' || exponent[1] == '-')
  {
    LettersOfParts(head, exponent);
    hide ReadExponent;
    assert exponent[1] == (head + exponent)[k + 1];
  }

  lemma OneDigitHead(first: string, fraction: string, exponent: string, k: int)
    requires AllDigits(first) && first != []
    requires k == |first + PointAnd(fraction)|
    requires var u := first + (PointAnd(fraction) + exponent); k == 1 || (|u| > 1 && u[1] == '.')
    ensures |first| == 1
  {
    SecondDigit(first, PointAnd(fraction) + exponent);
  }

  lemma ExponentBehind(first: string, fraction: string, exponent: string)
    requires AllDigits(first) && AllDigits(fraction) && first != [] && ReadExponent(exponent).Some?
    requires Scientific(first + (PointAnd(fraction) + exponent))
    ensures |first| == 1 && first[0] != '0'
    ensures |exponent| > 1 && exponent[0] == 'e' && (exponent[1] == '+' || exponent[1] == '-')
  {
    var head, u := first + PointAnd(fraction), first + (PointAnd(fraction) + exponent);
    assert u[0] == first[0];
    NoLetters(first, fraction);
    var k :| 0 < k < |u| && ExponentAt(u, k) && (k == 1 || u[1] == '.');
    hide AllDigits, PointAnd, ReadExponent, ExponentAt, Scientific;
    Concat3(first, PointAnd(fraction), exponent);
    ExponentAtHead(head, exponent, k);
    OneDigitHead(first, fraction, exponent, k);
  }

  lemma ScientificParts(u: string) returns (first: string, fraction: string, negative: bool, digits: string)
    requires ReadUnsigned(u).Some? && Scientific(u)
    ensures |first| == 1 && first[0] != '0' && AllDigits(digits) && digits != []
    ensures ReadUnsigned(u).value == (first + fraction, 1 + ExponentOf(negative, digits))
    ensures u == first + (PointAnd(fraction) + Signed(negative, digits))
  {
    var exponent: string;
    hide AllDigits, PointAnd, ReadExponent, ExponentOf, Signed, Scientific, ReadUnsigned;
    first, fraction, exponent := Parts(u);
    ExponentBehind(first, fraction, exponent);
    SignedParts(exponent);
    negative, digits := exponent[1] == '-', exponent[2..];
  }

  // ----- the digits that a token spells

  lemma {:induction false} LeadingAreZeros(s: string)
    ensures s == Zeros(|s| - |StripLeading(s)|) + StripLeading(s)
  {
    if s != [] && s[0] == '0' {
      LeadingAreZeros(s[1..]);
      ZerosNext(|s| - |StripLeading(s)|, StripLeading(s));
      assert s == ['0'] + s[1..];
    } else {
      assert Zeros(0) + s == s;
    }
  }

  /** The digits of a token are those of its number, with zeros around them. */
  lemma SpelledDigits(negative: bool, all: string, m: int, x: Number) returns (before: nat, behind: nat)
    requires AllDigits(all) && FromDecimal(negative, all, m) == x && x.Nonzero?
    ensures all == Padded(before, x.digits, behind) && m - before == x.exponent + 1 && x.negative == negative
  {
    var significant := StripLeading(all);
    LeadingAreZeros(all);
    StrippedAreZeros(significant);
    hide StripLeading, StripTrailing, Zeros;
    before, behind := |all| - |significant|, |significant| - |StripTrailing(significant)|;
  }

  lemma ZerosBefore(before: nat, digits: string, behind: nat)
    requires before > 0
    ensures Padded(before, digits, behind)[0] == '0'
  {
  }

  lemma SplitAt(all: string, whole: string, fraction: string)
    requires all == whole + fraction
    ensures whole == all[..|whole|] && fraction == all[|whole|..]
  {
  }

  lemma WholeSpelled(digits: string, n: int, behind: nat, whole: string, fraction: string)
    requires digits != [] && |digits| <= n <= 21 && whole + fraction == digits + Zeros(behind) && |whole| == n
    requires |whole + PointAnd(fraction)| <= n
    ensures whole + PointAnd(fraction) == Body(digits, n)
  {
    hide Zeros;
    assert whole + "" == whole && whole + [] == whole;
  }

  lemma PointInsideSpelled(digits: string, n: int, behind: nat, whole: string, fraction: string)
    requires 0 < n <= 21 && n < |digits| && whole + fraction == digits + Zeros(behind) && |whole| == n
    requires |whole + PointAnd(fraction)| <= |digits| + 1
    ensures whole + PointAnd(fraction) == Body(digits, n)
  {
    hide Zeros;
    SplitAt(digits + Zeros(behind), whole, fraction);
    assert fraction != [] && behind == 0;
    assert digits + Zeros(0) == digits;
  }

  lemma PointBeforeSpelled(digits: string, n: int, before: nat, behind: nat, whole: string, fraction: string)
    requires digits != [] && -6 < n <= 0 && whole + fraction == Padded(before, digits, behind) && |whole| == n + before
    requires whole != [] && |whole + PointAnd(fraction)| <= 2 - n + |digits|
    ensures whole + PointAnd(fraction) == Body(digits, n)
  {
    assert fraction != [] && before == 1 - n && behind == 0;
    LeadingZeroPadding(digits, -n);
    SplitAt("0" + (Zeros(-n) + digits), whole, fraction);
    hide Zeros, Padded;
    assert whole == "0" && fraction == Zeros(-n) + digits;
    PointBeforeBody(digits, n);
  }

  lemma PointBeforeBody(digits: string, n: int)
    requires digits != [] && -6 < n <= 0
    ensures Body(digits, n) == "0" + ("." + (Zeros(-n) + digits))
  {
    hide Zeros;
    assert "0." == "0" + ".";
    Concat3("0.", Zeros(-n), digits);
    Concat3("0", ".", Zeros(-n) + digits);
  }

  /** A token without exponent, no longer than the printed one, is the printed one. */
  lemma ShortestPlain(u: string, digits: string, n: int, before: nat, behind: nat)
    requires CanonicalDigits(digits) && -6 < n <= 21 && !HasLetter(u)
    requires ReadUnsigned(u) == Some((Padded(before, digits, behind), n + before)) && |u| <= |Body(digits, n)|
    ensures u == Body(digits, n)
  {
    var whole, fraction := PlainParts(u);
    hide ReadUnsigned, HasLetter, PointAnd;
    if n > 0 {
      assert before == 0 by { NothingBefore(digits, n, before, behind, whole, fraction); }
      hide Zeros;
      assert Padded(0, digits, behind) == digits + Zeros(behind);
      if |digits| <= n {
        WholeSpelled(digits, n, behind, whole, fraction);
      } else {
        PointInsideSpelled(digits, n, behind, whole, fraction);
      }
    } else {
      hide Padded;
      PointBeforeSpelled(digits, n, before, behind, whole, fraction);
    }
  }

  lemma NothingBefore(digits: string, n: int, before: nat, behind: nat, whole: string, fraction: string)
    requires n > 0 && digits != [] && whole + fraction == Padded(before, digits, behind) && |whole| == n + before
    requires |whole| > 1 ==> whole[0] != '0'
    ensures before == 0
  {
    if before > 0 {
      ZerosBefore(before, digits, behind);
      SplitAt(Padded(before, digits, behind), whole, fraction);
    }
  }

  lemma NatTextShortest(ds: string)
    requires AllDigits(ds) && ds != []
    ensures |NatText(ValueOf(ds))| <= |ds|
    ensures |NatText(ValueOf(ds))| == |ds| ==> ds == NatText(ValueOf(ds))
  {
    var t := NatText(ValueOf(ds));
    NatTextNoZero(ValueOf(ds));
    if |ds| < |t| {
      LongerIsLarger(ds, t);
    } else if |ds| == |t| {
      ValueInjective(ds, t);
    }
  }

  lemma BodyWithExponent(digits: string, n: int)
    requires digits != [] && !(-6 < n <= 21)
    ensures Body(digits, n) == digits[..1] + (PointAnd(digits[1..]) + ExponentText(n - 1))
  {
    hide ExponentText;
    if |digits| == 1 {
      assert digits[..1] == digits && digits[1..] == [];
      assert "" + ExponentText(n - 1) == ExponentText(n - 1);
    } else {
      hide Body;
      PointAfterFirstText(digits, n);
      Concat3(".", digits[1..], ExponentText(n - 1));
    }
  }

  lemma Concat3(a: string, b: string, c: string)
    ensures (a + b) + c == a + (b + c)
  {
  }

  lemma PointAfterFirstText(digits: string, n: int)
    requires |digits| > 1 && !(-6 < n <= 21)
    ensures Body(digits, n) == digits[..1] + ("." + (digits[1..] + ExponentText(n - 1)))
  {
    hide ExponentText;
    Concat3(digits[..1] + ".", digits[1..], ExponentText(n - 1));
    Concat3(digits[..1], ".", digits[1..] + ExponentText(n - 1));
  }

  /** A spelled exponent is the printed one, or longer. */
  lemma ShortestExponent(negative: bool, ds: string, e: int)
    requires AllDigits(ds) && ds != [] && ExponentOf(negative, ds) == e && e != 0
    ensures |ExponentText(e)| <= |Signed(negative, ds)|
    ensures |ExponentText(e)| == |Signed(negative, ds)| ==> Signed(negative, ds) == ExponentText(e)
  {
    assert negative == (e < 0) && ValueOf(ds) == if e < 0 then -e else e;
    NatTextShortest(ds);
    hide ValueOf, NatText;
  }

  lemma FirstAndZeros(digits: string, behind: nat, first: string, fraction: string)
    requires digits != [] && first + fraction == digits + Zeros(behind) && |first| == 1
    ensures first == digits[..1] && fraction == digits[1..] + Zeros(behind)
  {
    SplitAt(digits + Zeros(behind), first, fraction);
  }

  /** The same for a token with an exponent. */
  lemma ShortestScientific(u: string, digits: string, n: int, before: nat, behind: nat)
    requires CanonicalDigits(digits) && !(-6 < n <= 21) && Scientific(u)
    requires ReadUnsigned(u) == Some((Padded(before, digits, behind), n + before)) && |u| <= |Body(digits, n)|
    ensures u == Body(digits, n)
  {
    hide ReadUnsigned, Scientific, AllDigits, Signed, ExponentOf, Body, ExponentText;
    var first, fraction, negative, ds := ScientificParts(u);
    if before > 0 {
      ZerosBefore(before, digits, behind);
      SplitAt(Padded(before, digits, behind), first, fraction);
    }
    assert before == 0;
    assert first + fraction == digits + Zeros(behind);
    hide Zeros;
    FirstAndZeros(digits, behind, first, fraction);
    BodyWithExponent(digits, n);
    ShortestExponent(negative, ds, n - 1);
    assert behind == 0;
    assert digits[1..] + Zeros(0) == digits[1..];
  }

  // ----- the theorem

  function Unsigned(t: string): string {
    if t != [] && t[0] == '-' then t[1..] else t
  }

  /** Reads as x, and has the layout that its magnitude asks for. */
  predicate Spelling(t: string, x: Number)
    requires x.Nonzero? && WellFormed(x)
  {
    && ReadToken(t) == Some(x)
    && (if PlainRange(Magnitude(x.digits, x.exponent + 1)) then !HasLetter(Unsigned(t)) else Scientific(Unsigned(t)))
  }

  predicate PlainRange(magnitude: real) {
    0.000001 <= magnitude < 1_000_000_000_000_000_000_000.0
  }

  lemma Scales()
    ensures Scale(-6) == 0.000001 && Scale(21) == 1_000_000_000_000_000_000_000.0
  {
    ScaleByPow10(-6, 6);
    assert Scale(0) == 1.0 && Pow10(6) == 1_000_000;
    ScaleByPow10(0, 21);
    assert Pow10(9) == 1_000_000_000 && Pow10(15) == 1_000_000_000_000_000;
    assert Pow10(21) == 1_000_000_000_000_000_000_000;
  }

  /** The point position decides the layout by the magnitude alone. */
  lemma PlainByMagnitude(digits: string, n: int)
    requires CanonicalDigits(digits)
    ensures PlainRange(Magnitude(digits, n)) <==> -6 < n <= 21
  {
    hide Magnitude, Scale;
    Scales();
    MagnitudeBounds(digits, n);
    if n <= -6 {
      ScaleMonotone(n, -6);
    } else {
      ScaleMonotone(-6, n - 1);
    }
    if n <= 21 {
      ScaleMonotone(n, 21);
    } else {
      ScaleMonotone(21, n - 1);
    }
  }

  lemma {:induction false} BodyLayout(digits: string, n: int)
    requires CanonicalDigits(digits)
    ensures Layout(Body(digits, n), n) && Body(digits, n)[0] != '-'
  {
    if -6 < n <= 21 {
      hide CanonicalDigits, AllDigits;
      assert CanonicalDigits(digits) && AllDigits(digits);
      BodyPlain(digits, n);
    } else {
      BodyScientific(digits, n);
    }
  }

  lemma BodyPlain(digits: string, n: int)
    requires CanonicalDigits(digits) && -6 < n <= 21
    ensures !HasLetter(Body(digits, n)) && Body(digits, n)[0] != '-'
  {
    assert forall i :: 0 <= i < |digits| ==> IsDigit(digits[i]);
  }

  lemma BodyScientific(digits: string, n: int)
    requires CanonicalDigits(digits) && !(-6 < n <= 21)
    ensures Scientific(Body(digits, n)) && Body(digits, n)[0] != '-'
  {
    var u := Body(digits, n);
    var k := if |digits| == 1 then 1 else |digits| + 1;
    assert ExponentAt(u, k);
  }

  function Sign(negative: bool, u: string): string {
    if negative then "-" + u else u
  }

  lemma TextSigned(x: Number)
    requires x.Nonzero? && WellFormed(x)
    ensures Text(x) == Ok(Sign(x.negative, Body(x.digits, x.exponent + 1)))
  {
    hide Body;
  }

  lemma SignTaken(negative: bool, u: string)
    requires u != [] && u[0] != '-'
    ensures Unsigned(Sign(negative, u)) == u
  {
    assert negative ==> Sign(negative, u)[1..] == u;
  }

  lemma BodyStarts(digits: string, n: int)
    requires CanonicalDigits(digits)
    ensures Body(digits, n) != []
  {
    BodyChars(digits, n);
    hide Body;
  }

  lemma TextSpelled(x: Number)
    requires x.Nonzero? && WellFormed(x)
    ensures Text(x).Ok? && Spelling(Text(x).value, x) && Unsigned(Text(x).value) == Body(x.digits, x.exponent + 1)
  {
    hide Body, HasLetter, Scientific, Magnitude, ReadToken, PlainRange, Text, Sign, Unsigned;
    TextSigned(x);
    NumberReadsBack(x);
    BodyStarts(x.digits, x.exponent + 1);
    BodyLayout(x.digits, x.exponent + 1);
    SignTaken(x.negative, Body(x.digits, x.exponent + 1));
    PlainByMagnitude(x.digits, x.exponent + 1);
  }

  lemma TokenDigits(t: string, x: Number) returns (before: nat, behind: nat)
    requires x.Nonzero? && WellFormed(x) && ReadToken(t) == Some(x)
    ensures ReadUnsigned(Unsigned(t)) == Some((Padded(before, x.digits, behind), x.exponent + 1 + before))
    ensures t == Sign(x.negative, Unsigned(t))
  {
    hide ReadUnsigned, FromDecimal, Padded;
    var negative := t != [] && t[0] == '-';
    var decimal := ReadUnsigned(Unsigned(t)).value;
    before, behind := SpelledDigits(negative, decimal.0, decimal.1, x);
  }

  lemma ShortestBody(u: string, digits: string, n: int, before: nat, behind: nat)
    requires CanonicalDigits(digits) && Layout(u, n)
    requires ReadUnsigned(u) == Some((Padded(before, digits, behind), n + before)) && |u| <= |Body(digits, n)|
    ensures u == Body(digits, n)
  {
    hide ReadUnsigned, HasLetter, Scientific, Body, Padded, CanonicalDigits;
    if -6 < n <= 21 {
      ShortestPlain(u, digits, n, before, behind);
    } else {
      ShortestScientific(u, digits, n, before, behind);
    }
  }

  lemma SpellingLayout(t: string, x: Number)
    requires x.Nonzero? && WellFormed(x) && Spelling(t, x)
    ensures ReadToken(t) == Some(x) && Layout(Unsigned(t), x.exponent + 1)
  {
    PlainByMagnitude(x.digits, x.exponent + 1);
    hide PlainRange, Magnitude, HasLetter, Scientific, ReadToken;
  }

  lemma SignLength(negative: bool, u: string, v: string)
    ensures |Sign(negative, u)| <= |Sign(negative, v)| <==> |u| <= |v|
  {
  }

  lemma ShortestSpelling(t: string, x: Number)
    requires x.Nonzero? && WellFormed(x) && Spelling(t, x) && |t| <= |Text(x).value|
    ensures t == Text(x).value
  {
    hide Sign, Spelling, ReadUnsigned, ReadToken, Body, Layout, Unsigned, Padded, Text, AllDigits;
    SpellingLayout(t, x);
    TextSigned(x);
    var u, n := Unsigned(t), x.exponent + 1;
    var before, behind := TokenDigits(t, x);
    SignLength(x.negative, u, Body(x.digits, n));
    ShortestBody(u, x.digits, n, before, behind);
  }

  /** The printed token is the one shortest spelling in the layout of its magnitude. */
  lemma TextExactly(x: Number, t: string)
    requires x.Nonzero? && WellFormed(x)
    ensures Text(x) == Ok(t) <==> Spelling(t, x) && forall u :: Spelling(u, x) ==> |t| <= |u|
  {
    TextSpelled(x);
    hide Spelling, Text;
    forall u | Spelling(u, x) ensures |Text(x).value| <= |u| {
      if |u| < |Text(x).value| {
        ShortestSpelling(u, x);
      }
    }
    if Spelling(t, x) && forall u :: Spelling(u, x) ==> |t| <= |u| {
      ShortestSpelling(t, x);
    }
  }
}
