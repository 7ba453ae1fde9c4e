/** The size of a text as UTF-8 (RFC 3629, section 3), tied to the octets it is encoded in. */
module Utf8Sizes {
  import opened Wrappers
  import opened WriteBodies

  newtype octet = x: int | 0 <= x < 256

  /** The octets of one scalar value. */
  function Octets(c: char): (bytes: seq<octet>) {
    var p := c as int;
    if p < 0x80 then [p as octet]
    else if p < 0x800 then [(0xC0 + p / 0x40) as octet, (0x80 + p % 0x40) as octet]
    else if p < 0x1_0000 then [(0xE0 + p / 0x1000) as octet, (0x80 + p / 0x40 % 0x40) as octet, (0x80 + p % 0x40) as octet]
    else [(0xF0 + p / 0x4_0000) as octet, (0x80 + p / 0x1000 % 0x40) as octet, (0x80 + p / 0x40 % 0x40) as octet, (0x80 + p % 0x40) as octet]
  }

  function Encoded(s: string): seq<octet> {
    if s == "" then [] else Octets(s[0]) + Encoded(s[1..])
  }

  /** The number of octets that a first octet announces. */
  function Announced(first: octet): Option<nat> {
    if first < 0x80 then Some(1)
    else if 0xC0 <= first < 0xE0 then Some(2)
    else if 0xE0 <= first < 0xF0 then Some(3)
    else if 0xF0 <= first < 0xF8 then Some(4)
    else None
  }

  function Continued(b: octet): Option<int> {
    if 0x80 <= b < 0xC0 then Some(b as int - 0x80) else None
  }

  /** The number that the octets spell: the payload of the first, and six bits of each other. */
  function CodePoint(bytes: seq<octet>): Option<int> {
    if bytes == [] then None
    else
      var n :- Announced(bytes[0]);
      if |bytes| != n then None
      else
        var first := bytes[0] as int;
        if n == 1 then Some(first)
        else
          var b :- Continued(bytes[1]);
          if n == 2 then Some((first - 0xC0) * 0x40 + b)
          else
            var c :- Continued(bytes[2]);
            if n == 3 then Some(((first - 0xE0) * 0x40 + b) * 0x40 + c)
            else
              var d :- Continued(bytes[3]);
              Some((((first - 0xF0) * 0x40 + b) * 0x40 + c) * 0x40 + d)
  }

  lemma SixBits(p: nat)
    ensures p == p / 0x40 * 0x40 + p % 0x40
    ensures p / 0x1000 == p / 0x40 / 0x40
    ensures p / 0x4_0000 == p / 0x1000 / 0x40
  {
    assert p / 0x40 == p / 0x40 / 0x40 * 0x40 + p / 0x40 % 0x40;
    assert p / 0x1000 == p / 0x1000 / 0x40 * 0x40 + p / 0x1000 % 0x40;
  }

  /** The octets of a scalar value spell it. */
  lemma OctetsSpell(c: char)
    ensures CodePoint(Octets(c)) == Some(c as int)
    ensures |Octets(c)| == if c as int < 0x80 then 1 else if c as int < 0x800 then 2 else if c as int < 0x1_0000 then 3 else 4
  {
    SixBits(c as int);
    SixBits(c as int / 0x40);
    SixBits(c as int / 0x1000);
  }

  /** No shorter sequence could. */
  lemma {:induction false} ShortestOctets(c: char, bytes: seq<octet>)
    requires CodePoint(bytes) == Some(c as int)
    ensures |Octets(c)| <= |bytes|
  {
    OctetsSpell(c);
  }

  /** The size that is checked is the number of octets of the shortest spelling of every character. */
  lemma {:induction false} Utf8LengthExactly(s: string)
    ensures Utf8Length(s) == |Encoded(s)|
  {
    if s != "" {
      Utf8LengthExactly(s[1..]);
      OctetsSpell(s[0]);
    }
  }
}
