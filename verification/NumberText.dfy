/**
 * ECMAScript Number::toString for finite doubles (section 6.1.6.1.20 of
 * ECMA-262). The shortest round-trip digits and the exponent of a double come
 * from the platform's formatter; everything after them is modelled here.
 */
module NumberText {
  import opened Wrappers
  import opened Decimals

  datatype Error = NotRepresentableNumber | NotFiniteNumber

  /**
   * A JSON number seen as a double. `Nonzero` is digits[0].digits[1..] x 10^exponent,
   * with the sign `negative`.
   */
  datatype Number =
    | NotRepresentable
    | NotFinite
    | Zero(negative: bool)
    | Nonzero(negative: bool, digits: string, exponent: int)

  predicate CanonicalDigits(digits: string) {
    AllDigits(digits) && digits != [] && digits[0] != '0' && digits[|digits| - 1] != '0'
  }

  /** What the platform's formatter guarantees about the digits it returns. */
  predicate WellFormed(x: Number) {
    x.Nonzero? ==> CanonicalDigits(x.digits)
  }

  function ExponentText(e: int): string {
    "e" + (if e < 0 then "-" else "+") + NatText(if e < 0 then -e else e)
  }

  /** The four layouts; n is the position of the decimal point relative to the digits. */
  function Body(digits: string, n: int): string
    requires digits != []
  {
    var k := |digits|;
    if k <= n <= 21 then digits + Zeros(n - k)
    else if 0 < n <= 21 then digits[..n] + "." + digits[n..]
    else if -6 < n <= 0 then "0." + Zeros(-n) + digits
    else if k == 1 then digits + ExponentText(n - 1)
    else digits[..1] + "." + digits[1..] + ExponentText(n - 1)
  }

  function Text(x: Number): (r: Result<string, Error>)
    requires WellFormed(x)
  {
    match x
    case NotRepresentable => Err(NotRepresentableNumber)
    case NotFinite => Err(NotFiniteNumber)
    case Zero(_) => Ok("0")
    case Nonzero(negative, digits, exponent) =>
      var body := Body(digits, exponent + 1);
      Ok(if negative then "-" + body else body)
  }

  // ----- reading a JSON number token (section 6 of RFC 8259)

  /** The exponent part: empty, or e/E, an optional sign, and digits to the end. */
  function ReadExponent(s: string): Option<int> {
    if s == [] then Some(0)
    else if s[0] != 'e' && s[0] != 'E' then None
    else
      var signed := |s| > 1 && (s[1] == '-' || s[1] == '+');
      var digits := if signed then s[2..] else s[1..];
      if digits == [] || DigitRun(digits) != |digits| then None
      else
        var value: int := ValueOf(digits);
        Some(if signed && s[1] == '-' then -value else value)
  }

  function ReadAfterDigits(digits: string, point: int, rest: string): (r: Option<(string, int)>)
    ensures r.Some? ==> r.value.0 == digits
  {
    var exponent :- ReadExponent(rest);
    Some((digits, point + exponent))
  }

  function ReadAfterWhole(whole: string, rest: string): (r: Option<(string, int)>)
    requires AllDigits(whole)
    ensures r.Some? ==> AllDigits(r.value.0)
  {
    if rest != [] && rest[0] == '.' then
      var j := DigitRun(rest[1..]);
      if j == 0 then None
      else ReadAfterDigits(whole + rest[1..][..j], |whole|, rest[1..][j..])
    else ReadAfterDigits(whole, |whole|, rest)
  }

  /** All the digits of the token, and the position of the decimal point in them. */
  function ReadUnsigned(s: string): (r: Option<(string, int)>)
    ensures r.Some? ==> AllDigits(r.value.0)
  {
    var i := DigitRun(s);
    if i == 0 || (i > 1 && s[0] == '0') then None
    else ReadAfterWhole(s[..i], s[i..])
  }

  /** The number 0.digits x 10^n, in the one form the printer's digits have. */
  function FromDecimal(negative: bool, digits: string, n: int): (x: Number)
    requires AllDigits(digits)
    ensures WellFormed(x)
  {
    var significant := StripLeading(digits);
    var stripped := StripTrailing(significant);
    if stripped == [] then Zero(negative)
    else Nonzero(negative, stripped, n - (|digits| - |significant|) - 1)
  }

  function ReadToken(token: string): Option<Number> {
    var negative := token != [] && token[0] == '-';
    var decimal :- ReadUnsigned(if negative then token[1..] else token);
    Some(FromDecimal(negative, decimal.0, decimal.1))
  }

  // ----- the printed text reads back to exactly the number

  /** -0 prints as 0; every other number stands for itself. */
  function Normal(x: Number): Number {
    if x.Zero? then Zero(false) else x
  }

  lemma ExponentReads(e: int)
    ensures ReadExponent(ExponentText(e)) == Some(e)
  {
    var ds := NatText(if e < 0 then -e else e);
    assert ExponentText(e)[2..] == ds;
    assert ds + [] == ds;
    DigitRunStops(ds, []);
  }

  lemma WholeReads(whole: string, rest: string)
    requires AllDigits(whole) && whole != [] && (|whole| > 1 ==> whole[0] != '0')
    requires rest == [] || !IsDigit(rest[0])
    ensures ReadUnsigned(whole + rest) == ReadAfterWhole(whole, rest)
  {
    DigitRunStops(whole, rest);
  }

  lemma FractionReads(whole: string, fraction: string, rest: string)
    requires AllDigits(whole) && AllDigits(fraction) && fraction != []
    requires rest == [] || !IsDigit(rest[0])
    ensures ReadAfterWhole(whole, "." + (fraction + rest)) == ReadAfterDigits(whole + fraction, |whole|, rest)
  {
    assert ("." + (fraction + rest))[1..] == fraction + rest;
    DigitRunStops(fraction, rest);
  }

  lemma ExponentStarts(exponent: string)
    requires ReadExponent(exponent).Some?
    ensures exponent == [] || !IsDigit(exponent[0])
  {
  }

  lemma WholeOnlyReads(whole: string, exponent: string, e: int)
    requires AllDigits(whole) && whole != [] && (|whole| > 1 ==> whole[0] != '0')
    requires ReadExponent(exponent) == Some(e)
    ensures ReadUnsigned(whole + exponent) == Some((whole, |whole| + e))
  {
    ExponentStarts(exponent);
    NoFraction(whole, exponent);
    hide ReadUnsigned, ReadAfterWhole, ReadExponent;
    WholeReads(whole, exponent);
  }

  lemma NoFraction(whole: string, exponent: string)
    requires AllDigits(whole) && ReadExponent(exponent).Some?
    ensures ReadAfterWhole(whole, exponent) == ReadAfterDigits(whole, |whole|, exponent)
  {
  }

  lemma FractionalReads(whole: string, fraction: string, exponent: string, e: int)
    requires AllDigits(whole) && whole != [] && (|whole| > 1 ==> whole[0] != '0')
    requires AllDigits(fraction) && fraction != [] && ReadExponent(exponent) == Some(e)
    ensures ReadUnsigned(whole + ("." + (fraction + exponent))) == Some((whole + fraction, |whole| + e))
  {
    hide ReadUnsigned, ReadAfterWhole, ReadExponent;
    ExponentStarts(exponent);
    WholeReads(whole, "." + (fraction + exponent));
    FractionReads(whole, fraction, exponent);
  }

  /** The digits with the zeros that a layout adds around them. */
  function Padded(before: nat, digits: string, behind: nat): (s: string)
    ensures AllDigits(digits) ==> AllDigits(s)
    ensures |s| == before + |digits| + behind
  {
    Zeros(before) + (digits + Zeros(behind))
  }

  /** Stripping those zeros leaves the digits. */
  lemma FromPadded(negative: bool, before: nat, digits: string, behind: nat, n: int)
    requires CanonicalDigits(digits)
    ensures FromDecimal(negative, Padded(before, digits, behind), n) ==
            Nonzero(negative, digits, n - before - 1)
  {
    hide StripLeading, StripTrailing, Zeros;
    StripLeadingZeros(before, digits + Zeros(behind));
    StripTrailingZeros(digits, behind);
  }

  lemma IntegerLayoutReads(digits: string, n: int)
    requires CanonicalDigits(digits) && |digits| <= n <= 21
    ensures ReadUnsigned(Body(digits, n)) == Some((Padded(0, digits, n - |digits|), n))
  {
    var all := digits + Zeros(n - |digits|);
    assert all + [] == all && Padded(0, digits, n - |digits|) == all;
    WholeOnlyReads(all, [], 0);
  }

  lemma NoPadding(digits: string)
    ensures Padded(0, digits, 0) == digits
  {
  }

  lemma LeadingZeroPadding(digits: string, k: nat)
    ensures "0" + (Zeros(k) + digits) == Padded(k + 1, digits, 0)
  {
  }

  lemma PointInsideText(digits: string, n: int)
    requires 0 < n <= 21 && n < |digits|
    ensures Body(digits, n) == digits[..n] + ("." + (digits[n..] + []))
    ensures digits[..n] + digits[n..] == digits
  {
  }

  lemma PointInsideReads(digits: string, n: int)
    requires CanonicalDigits(digits) && 0 < n <= 21 && n < |digits|
    ensures ReadUnsigned(Body(digits, n)) == Some((Padded(0, digits, 0), n))
  {
    hide ReadUnsigned, Body, Padded, Zeros;
    NoPadding(digits);
    PointInsideText(digits, n);
    FractionalReads(digits[..n], digits[n..], [], 0);
  }

  lemma PointBeforeText(digits: string, n: int)
    requires digits != [] && -6 < n <= 0
    ensures Body(digits, n) == "0" + ("." + (Zeros(-n) + digits + []))
  {
    hide Zeros;
  }

  lemma PointBeforeReads(digits: string, n: int)
    requires CanonicalDigits(digits) && -6 < n <= 0
    ensures ReadUnsigned(Body(digits, n)) == Some((Padded(1 - n, digits, 0), 1))
  {
    hide ReadUnsigned, Body, Padded, Zeros;
    LeadingZeroPadding(digits, -n);
    PointBeforeText(digits, n);
    FractionalReads("0", Zeros(-n) + digits, [], 0);
  }

  lemma OneDigitReads(digits: string, n: int)
    requires CanonicalDigits(digits) && !(-6 < n <= 21) && |digits| == 1
    ensures ReadUnsigned(Body(digits, n)) == Some((digits, n))
  {
    hide ReadUnsigned, ExponentText, ReadExponent;
    ExponentReads(n - 1);
    WholeOnlyReads(digits, ExponentText(n - 1), n - 1);
  }

  lemma PointAfterFirst(digits: string, n: int)
    requires CanonicalDigits(digits) && !(-6 < n <= 21) && |digits| > 1
    ensures Body(digits, n) == digits[..1] + ("." + (digits[1..] + ExponentText(n - 1)))
  {
    hide ExponentText;
  }

  lemma FirstAndRest(digits: string)
    requires AllDigits(digits) && |digits| > 1
    ensures AllDigits(digits[..1]) && AllDigits(digits[1..])
    ensures digits[..1] + digits[1..] == digits
  {
  }

  lemma PointAfterFirstReads(digits: string, n: int)
    requires CanonicalDigits(digits) && !(-6 < n <= 21) && |digits| > 1
    ensures ReadUnsigned(Body(digits, n)) == Some((digits, n))
  {
    PointAfterFirst(digits, n);
    FirstAndRest(digits);
    ExponentReads(n - 1);
    hide ReadUnsigned, ExponentText, ReadExponent, Body, AllDigits;
    FractionalReads(digits[..1], digits[1..], ExponentText(n - 1), n - 1);
  }

  lemma ExponentLayoutReads(digits: string, n: int)
    requires CanonicalDigits(digits) && !(-6 < n <= 21)
    ensures ReadUnsigned(Body(digits, n)) == Some((Padded(0, digits, 0), n))
  {
    NoPadding(digits);
    hide ReadUnsigned, Body, Padded;
    if |digits| == 1 {
      OneDigitReads(digits, n);
    } else {
      PointAfterFirstReads(digits, n);
    }
  }

  /** Every layout reads as the digits, padded, with the point still at n. */
  lemma BodyReads(digits: string, n: int) returns (before: nat, behind: nat)
    requires CanonicalDigits(digits)
    ensures ReadUnsigned(Body(digits, n)) == Some((Padded(before, digits, behind), n + before))
  {
    hide ReadUnsigned, Body, Padded;
    before, behind := 0, 0;
    if |digits| <= n <= 21 {
      behind := n - |digits|;
      IntegerLayoutReads(digits, n);
    } else if 0 < n <= 21 {
      PointInsideReads(digits, n);
    } else if -6 < n <= 0 {
      before := 1 - n;
      PointBeforeReads(digits, n);
    } else {
      ExponentLayoutReads(digits, n);
    }
  }

  predicate NumberChar(c: char) {
    IsDigit(c) || c in "-+.eE"
  }

  predicate NumberChars(s: string) {
    forall i :: 0 <= i < |s| ==> NumberChar(s[i])
  }

  lemma BodyChars(digits: string, n: int)
    requires AllDigits(digits) && digits != []
    ensures NumberChars(Body(digits, n))
    ensures Body(digits, n) != [] && IsDigit(Body(digits, n)[0])
  {
    var k := |digits|;
    if k <= n <= 21 || 0 < n <= 21 || -6 < n <= 0 {
    } else {
      assert NumberChars(ExponentText(n - 1));
    }
  }

  lemma SignedReads(negative: bool, body: string, all: string, m: int)
    requires AllDigits(all) && ReadUnsigned(body) == Some((all, m))
    requires body != [] && body[0] != '-'
    ensures ReadToken(if negative then "-" + body else body) == Some(FromDecimal(negative, all, m))
  {
    hide ReadUnsigned, FromDecimal;
    if negative {
      assert ("-" + body)[1..] == body;
    }
  }

  lemma NonzeroReadsBack(x: Number)
    requires x.Nonzero? && WellFormed(x)
    ensures ReadToken(Text(x).value) == Some(x)
  {
    hide ReadUnsigned, Body, Padded, FromDecimal, ReadToken;
    var n := x.exponent + 1;
    var before, behind := BodyReads(x.digits, n);
    BodyChars(x.digits, n);
    SignedReads(x.negative, Body(x.digits, n), Padded(before, x.digits, behind), n + before);
    FromPadded(x.negative, before, x.digits, behind, n + before);
  }

  lemma ZeroReadsBack()
    ensures ReadToken("0") == Some(Zero(false))
  {
    WholeOnlyReads("0", [], 0);
    assert "0" + [] == "0";
    SignedReads(false, "0", "0", 1);
  }

  /** A printed number is one number token, and reading the token returns the number. */
  lemma NumberReadsBack(x: Number)
    requires WellFormed(x) && Text(x).Ok?
    ensures ReadToken(Text(x).value) == Some(Normal(x))
    ensures NumberChars(Text(x).value)
    ensures Text(x).value != [] && (IsDigit(Text(x).value[0]) || Text(x).value[0] == '-')
  {
    hide ReadToken, Body;
    if x.Zero? {
      ZeroReadsBack();
    } else {
      NonzeroReadsBack(x);
      BodyChars(x.digits, x.exponent + 1);
    }
  }

  /** Two numbers print the same text exactly when they differ at most in the sign of zero. */
  lemma NumberTextInjective(x: Number, y: Number)
    requires WellFormed(x) && WellFormed(y) && Text(x).Ok? && Text(y).Ok?
    ensures Text(x) == Text(y) <==> Normal(x) == Normal(y)
  {
    NumberReadsBack(x);
    NumberReadsBack(y);
  }

  /** Seventeen digits and a double's range of exponents never need more than 25 characters. */
  lemma NumberTextLength(x: Number)
    requires x.Nonzero? && CanonicalDigits(x.digits)
    requires |x.digits| <= 17 && -323 <= x.exponent + 1 <= 309
    ensures |Text(x).value| <= 25
  {
    var e := x.exponent;
    assert Pow10(3) == 1000;
    NatTextLength(if e < 0 then -e else e, 3);
  }

  // ----- the numbers the texts denote

  function Scale(k: int): (r: real)
    ensures r > 0.0
    decreases if k < 0 then -k else k
  {
    if k == 0 then 1.0 else if k > 0 then 10.0 * Scale(k - 1) else Scale(k + 1) / 10.0
  }

  /** The real number that 0.digits x 10^n is. */
  function Magnitude(digits: string, n: int): real
    requires AllDigits(digits)
  {
    ValueOf(digits) as real * Scale(n - |digits|)
  }

  function Denotes(x: Number): real
    requires WellFormed(x) && (x.Zero? || x.Nonzero?)
  {
    if x.Zero? then 0.0
    else if x.negative then -Magnitude(x.digits, x.exponent + 1)
    else Magnitude(x.digits, x.exponent + 1)
  }

  lemma {:induction false} ScaleStep(k: int)
    ensures Scale(k + 1) == 10.0 * Scale(k)
  {
  }

  lemma {:induction false} ScaleByPow10(k: int, i: nat)
    ensures Scale(k + i) == Pow10(i) as real * Scale(k)
  {
    if i > 0 {
      ScaleByPow10(k, i - 1);
      ScaleStep(k + i - 1);
      var p, s := Pow10(i - 1) as real, Scale(k);
      assert 10.0 * (p * s) == (10.0 * p) * s;
    }
  }

  lemma ScaledProduct(v: nat, a: nat, b: nat, s: real, t: real)
    requires v == a * b && t == b as real * s
    ensures v as real * s == a as real * t
  {
    assert (a * b) as real == a as real * b as real;
  }

  lemma StripLeadingKeepsMagnitude(digits: string, n: int)
    requires AllDigits(digits)
    ensures var a := StripLeading(digits); Magnitude(digits, n) == Magnitude(a, n - (|digits| - |a|))
  {
    hide StripLeading, Scale, ValueOf;
    StripLeadingValue(digits);
  }

  lemma StripTrailingKeepsMagnitude(digits: string, n: int)
    requires AllDigits(digits)
    ensures Magnitude(digits, n) == Magnitude(StripTrailing(digits), n)
  {
    hide StripTrailing, Scale, Pow10, ValueOf;
    var b := StripTrailing(digits);
    StripTrailingValue(digits);
    ScaleByPow10(n - |digits|, |digits| - |b|);
    ScaledProduct(ValueOf(digits), ValueOf(b), Pow10(|digits| - |b|), Scale(n - |digits|), Scale(n - |b|));
  }

  lemma NoDigitsMagnitude(n: int)
    ensures Magnitude([], n) == 0.0
  {
  }

  /** Reading does not change the value of the digits it strips. */
  lemma FromDecimalExact(negative: bool, digits: string, n: int)
    requires AllDigits(digits)
    ensures var m := Magnitude(digits, n);
            Denotes(FromDecimal(negative, digits, n)) == if negative then -m else m
  {
    hide StripLeading, StripTrailing, Magnitude;
    var a := StripLeading(digits);
    StripLeadingKeepsMagnitude(digits, n);
    StripTrailingKeepsMagnitude(a, n - (|digits| - |a|));
    NoDigitsMagnitude(n - (|digits| - |a|));
    if StripTrailing(a) != [] {
      assert FromDecimal(negative, digits, n) ==
             Nonzero(negative, StripTrailing(a), n - (|digits| - |a|) - 1);
    }
  }

  lemma {:induction false} ScaleMonotone(i: int, j: int)
    requires i <= j
    ensures Scale(i) <= Scale(j)
    decreases j - i
  {
    if i < j {
      ScaleMonotone(i, j - 1);
      ScaleStep(j - 1);
    }
  }

  lemma ProductBounds(low: nat, v: nat, high: nat, s: real, bottom: real, m: real, top: real)
    requires low <= v < high && s > 0.0
    requires bottom == low as real * s && m == v as real * s && top == high as real * s
    ensures bottom <= m < top
  {
  }

  /** The point position brackets the magnitude between two powers of ten. */
  lemma MagnitudeBounds(digits: string, n: int)
    requires CanonicalDigits(digits)
    ensures Scale(n - 1) <= Magnitude(digits, n) < Scale(n)
  {
    hide Scale, Pow10, ValueOf;
    var k := |digits|;
    ValueBound(digits);
    ScaleByPow10(n - k, k);
    ScaleByPow10(n - k, k - 1);
    ProductBounds(Pow10(k - 1), ValueOf(digits), Pow10(k), Scale(n - k),
                  Scale(n - 1), Magnitude(digits, n), Scale(n));
  }

  lemma CancelScale(a: nat, b: nat, s: real)
    requires s > 0.0 && a as real * s == b as real * s
    ensures a == b
  {
    assert (a as real * s) / s == a as real && (b as real * s) / s == b as real;
  }

  lemma SamePointSameDigits(a: string, b: string, n: int)
    requires CanonicalDigits(a) && CanonicalDigits(b) && |a| <= |b|
    requires Magnitude(a, n) == Magnitude(b, n)
    ensures a == b
  {
    hide Scale, Pow10, ValueOf;
    var gap := |b| - |a|;
    var s := Scale(n - |b|);
    ScaleByPow10(n - |b|, gap);
    ScaledProduct(ValueOf(a) * Pow10(gap), ValueOf(a), Pow10(gap), s, Scale(n - |a|));
    CancelScale(ValueOf(a) * Pow10(gap), ValueOf(b), s);
    ValueAppendZeros(a, gap);
    ValueInjective(a + Zeros(gap), b);
    assert gap == 0 ==> a + Zeros(gap) == a;
  }

  /** Canonical digits and a point position are determined by the number they denote. */
  lemma MagnitudeInjective(a: string, m: int, b: string, n: int)
    requires CanonicalDigits(a) && CanonicalDigits(b)
    requires Magnitude(a, m) == Magnitude(b, n)
    ensures a == b && m == n
  {
    hide Magnitude, Scale, CanonicalDigits;
    MagnitudeBounds(a, m);
    MagnitudeBounds(b, n);
    if m < n {
      ScaleMonotone(m, n - 1);
    } else if n < m {
      ScaleMonotone(n, m - 1);
    } else if |a| <= |b| {
      SamePointSameDigits(a, b, m);
    } else {
      SamePointSameDigits(b, a, m);
    }
  }

  /** Two finite numbers print the same text exactly when they are the same real number. */
  lemma NumberTextByValue(x: Number, y: Number)
    requires WellFormed(x) && WellFormed(y) && Text(x).Ok? && Text(y).Ok?
    ensures Text(x) == Text(y) <==> Denotes(x) == Denotes(y)
  {
    NumberTextInjective(x, y);
    hide Text, Magnitude;
    if x.Nonzero? {
      MagnitudeBounds(x.digits, x.exponent + 1);
    }
    if y.Nonzero? {
      MagnitudeBounds(y.digits, y.exponent + 1);
    }
    if x.Nonzero? && y.Nonzero? && x.negative == y.negative && Denotes(x) == Denotes(y) {
      MagnitudeInjective(x.digits, x.exponent + 1, y.digits, y.exponent + 1);
    }
  }
}
