/** Strings of decimal digits: their value, and the zeros that can be stripped from them. */
module Decimals {
  predicate IsDigit(c: char) {
    '0' <= c <= '9'
  }

  predicate AllDigits(s: string) {
    forall i :: 0 <= i < |s| ==> IsDigit(s[i])
  }

  function DigitChar(d: int): (c: char)
    requires 0 <= d < 10
    ensures IsDigit(c)
  {
    (48 + d) as char
  }

  function DigitOf(c: char): (d: int)
    requires IsDigit(c)
    ensures 0 <= d < 10 && DigitChar(d) == c
  {
    c as int - 48
  }

  function Zeros(k: nat): (s: string)
    ensures |s| == k && forall i :: 0 <= i < k ==> s[i] == '0'
  {
    if k == 0 then "" else ['0'] + Zeros(k - 1)
  }

  /** The length of the longest prefix of digits. */
  function DigitRun(s: string): (n: nat)
    ensures n <= |s| && AllDigits(s[..n])
    ensures n < |s| ==> !IsDigit(s[n])
  {
    if s == [] || !IsDigit(s[0]) then 0
    else
      assert s[..1 + DigitRun(s[1..])] == [s[0]] + s[1..][..DigitRun(s[1..])];
      1 + DigitRun(s[1..])
  }

  /** Reading digits stops exactly where the digits stop. */
  lemma {:induction false} DigitRunStops(digits: string, rest: string)
    requires AllDigits(digits)
    requires rest == [] || !IsDigit(rest[0])
    ensures DigitRun(digits + rest) == |digits|
    ensures (digits + rest)[..|digits|] == digits && (digits + rest)[|digits|..] == rest
  {
    if digits == [] {
      assert digits + rest == rest;
    } else {
      assert (digits + rest)[1..] == digits[1..] + rest;
      DigitRunStops(digits[1..], rest);
    }
  }

  // ----- natural numbers in decimal

  function ValueOf(s: string): nat
    requires AllDigits(s)
  {
    if s == [] then 0 else 10 * ValueOf(s[..|s| - 1]) + DigitOf(s[|s| - 1])
  }

  function NatText(n: nat): (s: string)
    ensures s != [] && AllDigits(s) && ValueOf(s) == n
  {
    if n < 10 then [DigitChar(n)]
    else
      var s := NatText(n / 10) + [DigitChar(n % 10)];
      assert s[..|s| - 1] == NatText(n / 10);
      s
  }

  function Pow10(k: nat): (p: nat)
    ensures p > 0
  {
    if k == 0 then 1 else 10 * Pow10(k - 1)
  }

  lemma {:induction false} NatTextLength(n: nat, k: nat)
    requires k > 0 && n < Pow10(k)
    ensures |NatText(n)| <= k
  {
    if n >= 10 {
      NatTextLength(n / 10, k - 1);
    }
  }

  lemma {:induction false} ValueBound(s: string)
    requires AllDigits(s)
    ensures ValueOf(s) < Pow10(|s|)
    ensures s != [] && s[0] != '0' ==> Pow10(|s| - 1) <= ValueOf(s)
  {
    if s != [] {
      ValueBound(s[..|s| - 1]);
    }
  }

  /** Among digit strings of one length, the value determines the digits. */
  lemma {:induction false} ValueInjective(a: string, b: string)
    requires AllDigits(a) && AllDigits(b)
    requires |a| == |b| && ValueOf(a) == ValueOf(b)
    ensures a == b
  {
    if a != [] {
      var m := |a| - 1;
      ValueInjective(a[..m], b[..m]);
      assert a == a[..m] + [a[m]] && b == b[..m] + [b[m]];
    }
  }

  lemma {:induction false} NatTextNoZero(n: nat)
    ensures |NatText(n)| > 1 ==> NatText(n)[0] != '0'
  {
    if n >= 10 {
      NatTextNoZero(n / 10);
      assert NatText(n)[0] == NatText(n / 10)[0];
    }
  }

  lemma {:induction false} Pow10Monotone(i: nat, j: nat)
    requires i <= j
    ensures Pow10(i) <= Pow10(j)
  {
    if i < j {
      Pow10Monotone(i, j - 1);
    }
  }

  /** A longer text without leading zero is a larger number. */
  lemma LongerIsLarger(a: string, b: string)
    requires AllDigits(a) && AllDigits(b) && |a| < |b| && b[0] != '0'
    ensures ValueOf(a) < ValueOf(b)
  {
    ValueBound(a);
    ValueBound(b);
    Pow10Monotone(|a|, |b| - 1);
  }

  /** The decimal text of a number is its only spelling without a leading zero. */
  lemma NatTextExactly(n: nat, s: string)
    ensures s == NatText(n) <==> s != [] && AllDigits(s) && ValueOf(s) == n && (|s| > 1 ==> s[0] != '0')
  {
    NatTextNoZero(n);
    var t := NatText(n);
    if s != [] && AllDigits(s) && ValueOf(s) == n && (|s| > 1 ==> s[0] != '0') {
      if |s| < |t| {
        LongerIsLarger(s, t);
      } else if |t| < |s| {
        LongerIsLarger(t, s);
      } else {
        ValueInjective(s, t);
      }
    }
  }

  lemma TenTimes(v: nat, p: nat)
    ensures 10 * (v * p) == v * (10 * p)
  {
  }

  lemma {:induction false} ValueAppendZeros(s: string, k: nat)
    requires AllDigits(s)
    ensures AllDigits(s + Zeros(k)) && ValueOf(s + Zeros(k)) == ValueOf(s) * Pow10(k)
  {
    if k == 0 {
      assert s + Zeros(0) == s;
    } else {
      var all := s + Zeros(k);
      assert all[..|all| - 1] == s + Zeros(k - 1);
      ValueAppendZeros(s, k - 1);
      TenTimes(ValueOf(s), Pow10(k - 1));
    }
  }

  lemma {:induction false} ValueDropLeadingZero(s: string)
    requires AllDigits(s) && s != [] && s[0] == '0'
    ensures ValueOf(s) == ValueOf(s[1..])
  {
    if |s| > 1 {
      ValueDropLeadingZero(s[..|s| - 1]);
      assert s[..|s| - 1][1..] == s[1..][..|s| - 2];
    }
  }

  // ----- stripping zeros

  function StripLeading(s: string): (r: string)
    ensures |r| <= |s| && r == s[|s| - |r|..]
    ensures r != [] ==> r[0] != '0'
  {
    if s != [] && s[0] == '0' then StripLeading(s[1..]) else s
  }

  function StripTrailing(s: string): (r: string)
    ensures |r| <= |s| && r == s[..|r|]
    ensures r != [] ==> r[|r| - 1] != '0'
  {
    if s != [] && s[|s| - 1] == '0' then StripTrailing(s[..|s| - 1]) else s
  }

  lemma ZerosNext(k: nat, s: string)
    requires k > 0
    ensures Zeros(k) + s == ['0'] + (Zeros(k - 1) + s)
  {
    assert Zeros(k) == ['0'] + Zeros(k - 1);
  }

  lemma StripOne(s: string)
    ensures StripLeading(['0'] + s) == StripLeading(s)
  {
    assert (['0'] + s)[1..] == s;
  }

  lemma {:induction false} StripLeadingZeros(k: nat, s: string)
    requires s == [] || s[0] != '0'
    ensures StripLeading(Zeros(k) + s) == s
  {
    if k == 0 {
      assert Zeros(0) + s == s;
    } else {
      hide StripLeading, Zeros;
      ZerosNext(k, s);
      StripOne(Zeros(k - 1) + s);
      StripLeadingZeros(k - 1, s);
    }
  }

  lemma {:induction false} StripTrailingZeros(s: string, k: nat)
    requires s == [] || s[|s| - 1] != '0'
    ensures StripTrailing(s + Zeros(k)) == s
  {
    if k == 0 {
      assert s + Zeros(0) == s;
    } else {
      var all := s + Zeros(k);
      assert all[..|all| - 1] == s + Zeros(k - 1);
      StripTrailingZeros(s, k - 1);
    }
  }

  lemma {:induction false} StripLeadingValue(s: string)
    requires AllDigits(s)
    ensures ValueOf(StripLeading(s)) == ValueOf(s)
  {
    if s != [] && s[0] == '0' {
      ValueDropLeadingZero(s);
      StripLeadingValue(s[1..]);
    }
  }

  lemma {:induction false} StrippedAreZeros(s: string)
    ensures s == StripTrailing(s) + Zeros(|s| - |StripTrailing(s)|)
  {
    if s != [] && s[|s| - 1] == '0' {
      StrippedAreZeros(s[..|s| - 1]);
      assert s == s[..|s| - 1] + ['0'];
    }
  }

  lemma StripTrailingValue(s: string)
    requires AllDigits(s)
    ensures ValueOf(s) == ValueOf(StripTrailing(s)) * Pow10(|s| - |StripTrailing(s)|)
  {
    ValueAppendZeros(StripTrailing(s), |s| - |StripTrailing(s)|);
    StrippedAreZeros(s);
  }
}
