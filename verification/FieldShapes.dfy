/**
 * The shapes of the ledger's fields, by their alphabets and the calendar: which texts are
 * digests, problem ids and key ids, and which dates exist.
 */
module FieldShapes {
  import opened ChainVerifier
  import opened OfflineVerifier
  import opened BackupAssembly
  import CostModel
  import EcmaText
  import KeyOrder

  const DIGITS := "0123456789"
  const CAPITALS := "ABCDEFGHIJKLMNOPQRSTUVWXYZ"
  const SMALL := "abcdefghijklmnopqrstuvwxyz"

  /** Every character is one of the alphabet's. */
  predicate Over(s: string, alphabet: string) {
    forall i :: 0 <= i < |s| ==> s[i] in alphabet
  }

  lemma CapitalRange(c: char)
    ensures c in CAPITALS <==> 'A' <= c <= 'Z'
  {
  }

  lemma SmallRange(c: char)
    ensures c in SMALL <==> 'a' <= c <= 'z'
  {
  }

  lemma Ranges(c: char)
    ensures c in DIGITS <==> '0' <= c <= '9'
    ensures c in CAPITALS <==> 'A' <= c <= 'Z'
    ensures c in SMALL <==> 'a' <= c <= 'z'
    ensures c in "abcdef" <==> 'a' <= c <= 'f'
  {
    hide CAPITALS, SMALL;
    CapitalRange(c);
    SmallRange(c);
  }

  lemma HexExactly(s: string, n: nat)
    ensures Hex(s, n) <==> |s| == n && Over(s, DIGITS + "abcdef")
  {
    forall i | 0 <= i < |s| ensures HexChar(s[i]) <==> s[i] in DIGITS + "abcdef" {
      Ranges(s[i]);
    }
  }

  /** "P-", a capital or digit, and up to thirty more of those or hyphens. */
  lemma ProblemIdExactly(s: string)
    ensures ProblemId(s) <==>
            "P-" <= s && 4 <= |s| <= 33 && s[2] != '-' && Over(s[2..], CAPITALS + DIGITS + "-")
  {
    if "P-" <= s && 4 <= |s| <= 33 {
      var rest := s[2..];
      forall i | 0 <= i < |rest| ensures rest[i] in CAPITALS + DIGITS + "-" <==> IdChar(s[i + 2]) || s[i + 2] == '-' {
        Ranges(rest[i]);
      }
      assert forall i :: 2 <= i < |s| ==> s[i] == rest[i - 2];
    }
  }

  /** One to 64 letters, digits, dots, underscores and hyphens, with a public key of 64 hexadecimal digits. */
  lemma KeyValidExactly(k: KeyEntry)
    ensures KeyValid(k) <==>
            && k.Key? && k.keyId != "" && |k.keyId| <= 64 && Over(k.keyId, CAPITALS + SMALL + DIGITS + "._-")
            && |k.publicKey| == 64 && Over(k.publicKey, DIGITS + "abcdef")
  {
    if k.Key? {
      HexExactly(k.publicKey, 64);
      hide Hex;
      forall i | 0 <= i < |k.keyId| ensures KeyIdChar(k.keyId[i]) <==> k.keyId[i] in CAPITALS + SMALL + DIGITS + "._-" {
        Ranges(k.keyId[i]);
      }
    }
  }

  lemma AlphaNumericExactly(c: char)
    ensures AlphaNumeric(c) <==> c in CAPITALS + SMALL + DIGITS
  {
    Ranges(c);
  }

  /** Up to 128 letters, digits and separators, starting with no separator and without a double hyphen. */
  lemma ManifestProblemExactly(s: string)
    ensures ManifestProblem(s) <==>
            && s != "" && |s| <= 128 && s[0] in CAPITALS + SMALL + DIGITS
            && Over(s, CAPITALS + SMALL + DIGITS + "._:-")
            && forall i :: 0 <= i <= |s| ==> !("--" <= s[i..])
  {
    forall i | 0 <= i < |s|
      ensures AlphaNumeric(s[i]) <==> s[i] in CAPITALS + SMALL + DIGITS
      ensures s[i] in CAPITALS + SMALL + DIGITS + "._:-" <==> AlphaNumeric(s[i]) || s[i] in "._:-"
    {
      AlphaNumericExactly(s[i]);
    }
    NoDoubleHyphen(s);
    hide AlphaNumeric, DoubleHyphen;
  }

  lemma NoDoubleHyphen(s: string)
    ensures (forall i :: 0 < i < |s| ==> !DoubleHyphen(s, i)) <==> forall i :: 0 <= i <= |s| ==> !("--" <= s[i..])
  {
    if i :| 0 < i < |s| && DoubleHyphen(s, i) {
      assert "--" <= s[i - 1..];
    }
    if i :| 0 <= i <= |s| && "--" <= s[i..] {
      assert s[i..][0] == s[i] && s[i..][1] == s[i + 1];
      assert DoubleHyphen(s, i + 1);
    }
  }

  // ----- titles

  /** White space in ECMAScript: these 25 code points. */
  const BLANKS :=
    [0x09, 0x0a, 0x0b, 0x0c, 0x0d, 0x20, 0xa0, 0x1680, 0x2000, 0x2001, 0x2002, 0x2003, 0x2004, 0x2005,
     0x2006, 0x2007, 0x2008, 0x2009, 0x200a, 0x2028, 0x2029, 0x202f, 0x205f, 0x3000, 0xfeff]

  lemma WhitespaceExactly(c: char)
    ensures EcmaText.Whitespace(c) <==> c as int in BLANKS
  {
  }

  /** A title is what trimming leaves something of, in at most 160 UTF-16 code units. */
  lemma TitleOkExactly(title: string)
    ensures TitleOk(title) <==> EcmaText.Trim(title) != "" && |KeyOrder.Encode(title)| <= 160
  {
    hide KeyOrder.Encode;
    var left, right := EcmaText.TrimTakes(title);
    var t := EcmaText.Trim(title);
    if t != "" {
      assert title[|left|] == t[0];
    }
  }

  // ----- dates

  const COMMON_YEAR := [31, 28, 31, 30, 31, 30, 31, 31, 30, 31, 30, 31]

  /** How many leap years there are before a year: every fourth, but of the centuries only every fourth. */
  function LeapYearsBefore(year: nat): int {
    (year + 3) / 4 - (year + 99) / 100 + (year + 399) / 400
  }

  lemma QuotientIs(n: nat, d: nat, q: nat)
    requires d > 0 && q * d <= n < q * d + d
    ensures n / d == q
  {
    CostModel.MultipleBelow(q - n / d, d);
  }

  /** How many multiples of d lie below a number, counted for two numbers next to each other. */
  lemma NextMultiple(year: nat, d: nat)
    requires d > 0
    ensures (year + d) / d - (year + d - 1) / d == if year % d == 0 then 1 else 0
  {
    var q := year / d;
    var qd := q * d;
    assert qd + year % d == year;
    assert (q + 1) * d == qd + d;
    QuotientIs(year + d, d, q + 1);
    if year % d == 0 {
      QuotientIs(year + d - 1, d, q);
    } else {
      QuotientIs(year + d - 1, d, q + 1);
    }
  }

  lemma LeapYearExactly(year: nat)
    ensures LeapYearsBefore(year + 1) - LeapYearsBefore(year) == DaysInMonth(year, 2) - 28
  {
    NextMultiple(year, 4);
    NextMultiple(year, 100);
    NextMultiple(year, 400);
    Centuries(year);
    assert LeapYearsBefore(year + 1) == (year + 4) / 4 - (year + 100) / 100 + (year + 400) / 400;
  }

  lemma Centuries(year: nat)
    ensures year % 400 == 0 ==> year % 100 == 0
    ensures year % 100 == 0 ==> year % 4 == 0
  {
    if year % 400 == 0 {
      assert year == 100 * (4 * (year / 400));
    }
    if year % 100 == 0 {
      assert year == 4 * (25 * (year / 100));
    }
  }

  /** A date exists when its day is within its month, of a year that has 366 days if it adds to the leap years. */
  lemma RealDateExactly(d: Date)
    ensures RealDate(d) <==>
            && d.year <= 9999 && 1 <= d.month <= 12 && 1 <= d.day
            && d.day <= COMMON_YEAR[d.month - 1] +
                        (if d.month == 2 then LeapYearsBefore(d.year + 1) - LeapYearsBefore(d.year) else 0)
  {
    LeapYearExactly(d.year);
    assert forall m :: 1 <= m <= 12 && m != 2 ==> DaysInMonth(d.year, m) == COMMON_YEAR[m - 1];
    hide LeapYearsBefore, DaysInMonth;
  }
}
