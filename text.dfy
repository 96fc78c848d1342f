/**
 * The JavaScript string operations the codecs lean on, restricted to ASCII
 * text: String.prototype.split and Array.prototype.join on a one-character
 * separator, the 'ascii' Buffer conversions in both directions, and the
 * decimal and hexadecimal numerals read by Number and parseInt.
 */
module Text {
  import opened Wire

  predicate IsAscii(s: string)
  {
    forall k :: 0 <= k < |s| ==> s[k] < 128 as char
  }

  /** Buffer.from(s, 'ascii') for ASCII text: one octet per character. */
  function AsciiBytes(s: string): (r: seq<byte>)
    requires IsAscii(s)
    ensures |r| == |s|
    ensures forall k :: 0 <= k < |s| ==> r[k] == s[k] as int
  {
    seq(|s|, k requires 0 <= k < |s| => s[k] as int)
  }

  /**
   * buf.toString('ascii'): Node clears the high bit of every octet before
   * decoding, so the result is always ASCII.
   */
  function DecodeAscii(b: seq<byte>): (r: string)
    ensures |r| == |b| && IsAscii(r)
    ensures forall k :: 0 <= k < |b| ==> r[k] as int == b[k] % 128
  {
    seq(|b|, k requires 0 <= k < |b| => (b[k] % 128) as char)
  }

  /** The octets Buffer.from(s, 'ascii') writes for ASCII text decode back to the text. */
  lemma DecodeAsciiBytes(s: string)
    requires IsAscii(s)
    ensures DecodeAscii(AsciiBytes(s)) == s
  {
  }

  /** Index of the first d in s, if any. */
  function IndexOf(s: string, d: char): (r: Option<nat>)
    ensures r.Some? ==> r.value < |s| && s[r.value] == d && d !in s[..r.value]
    ensures r.None? <==> d !in s
  {
    if |s| == 0 then None
    else if s[0] == d then Some(0)
    else match IndexOf(s[1..], d)
      case None => None
      case Some(i) => assert s[1..][..i] == s[1..i + 1]; Some(i + 1)
  }

  /** s.split(d): the pieces between occurrences of d, at least one. */
  function Split(s: string, d: char): (parts: seq<string>)
    ensures |parts| >= 1
    decreases |s|
  {
    match IndexOf(s, d)
    case None => [s]
    case Some(i) => [s[..i]] + Split(s[i + 1..], d)
  }

  /** parts.join(d). */
  function Join(parts: seq<string>, d: char): string
  {
    if |parts| == 0 then ""
    else if |parts| == 1 then parts[0]
    else parts[0] + [d] + Join(parts[1..], d)
  }

  lemma {:induction false} SplitShape(s: string, d: char)
    ensures |Split(s, d)| >= 1
    ensures forall k :: 0 <= k < |Split(s, d)| ==> d !in Split(s, d)[k]
    decreases |s|
  {
    match IndexOf(s, d)
    case None =>
    case Some(i) =>
      SplitShape(s[i + 1..], d);
  }

  lemma {:induction false} JoinSplit(s: string, d: char)
    ensures Join(Split(s, d), d) == s
    decreases |s|
  {
    match IndexOf(s, d)
    case None =>
    case Some(i) =>
      var rest := Split(s[i + 1..], d);
      SplitShape(s[i + 1..], d);
      JoinSplit(s[i + 1..], d);
      var parts := [s[..i]] + rest;
      assert Split(s, d) == parts;
      assert parts[1..] == rest;
      assert Join(parts, d) == s[..i] + [d] + Join(rest, d);
      assert s == s[..i] + [d] + s[i + 1..];
  }

  lemma IndexOfJoin(a: string, d: char, rest: string)
    requires d !in a
    ensures IndexOf(a + [d] + rest, d) == Some(|a|)
    decreases |a|
  {
    if |a| > 0 {
      assert (a + [d] + rest)[1..] == a[1..] + [d] + rest;
      IndexOfJoin(a[1..], d, rest);
    }
  }

  lemma {:induction false} SplitJoin(parts: seq<string>, d: char)
    requires |parts| >= 1
    requires forall k :: 0 <= k < |parts| ==> d !in parts[k]
    ensures Split(Join(parts, d), d) == parts
    decreases |parts|
  {
    if |parts| == 1 {
      assert IndexOf(parts[0], d) == None;
    } else {
      var s := Join(parts, d);
      var rest := Join(parts[1..], d);
      assert s == parts[0] + [d] + rest;
      IndexOfJoin(parts[0], d, rest);
      assert s[..|parts[0]|] == parts[0];
      assert s[|parts[0]| + 1..] == rest;
      SplitJoin(parts[1..], d);
    }
  }

  function DigitValue(c: char): (r: nat)
    requires '0' <= c <= '9'
    ensures r < 10
  {
    c as int - '0' as int
  }

  predicate IsDigits(s: string)
  {
    forall k :: 0 <= k < |s| ==> '0' <= s[k] <= '9'
  }

  /** The value of a decimal numeral; the empty numeral reads as 0. */
  function Decimal(s: string): (r: nat)
    requires IsDigits(s)
  {
    if |s| == 0 then 0 else Decimal(s[..|s| - 1]) * 10 + DigitValue(s[|s| - 1])
  }

  predicate IsHexDigit(c: char)
  {
    '0' <= c <= '9' || 'a' <= c <= 'f' || 'A' <= c <= 'F'
  }

  function HexDigitValue(c: char): (r: nat)
    requires IsHexDigit(c)
    ensures r < 16
  {
    if '0' <= c <= '9' then c as int - '0' as int
    else if 'a' <= c <= 'f' then c as int - 'a' as int + 10
    else c as int - 'A' as int + 10
  }

  predicate IsHex(s: string)
  {
    forall k :: 0 <= k < |s| ==> IsHexDigit(s[k])
  }

  /** The value of a hexadecimal numeral; the empty numeral reads as 0. */
  function Hex(s: string): (r: nat)
    requires IsHex(s)
  {
    if |s| == 0 then 0 else Hex(s[..|s| - 1]) * 16 + HexDigitValue(s[|s| - 1])
  }

  // Rendering numerals, for the round trips of the record formats.

  function DigitChar(d: nat): (c: char)
    requires d < 10
    ensures '0' <= c <= '9' && DigitValue(c) == d
  {
    ('0' as int + d) as char
  }

  /** The shortest decimal numeral of n. */
  function ShowDecimal(n: nat): (s: string)
    ensures |s| >= 1 && IsDigits(s)
  {
    if n < 10 then [DigitChar(n)] else ShowDecimal(n / 10) + [DigitChar(n % 10)]
  }

  lemma {:induction false} DecimalShow(n: nat)
    ensures Decimal(ShowDecimal(n)) == n
  {
    if n >= 10 {
      var s := ShowDecimal(n);
      assert s[..|s| - 1] == ShowDecimal(n / 10);
      DecimalShow(n / 10);
    }
  }

  function HexChar(d: nat): (c: char)
    requires d < 16
    ensures IsHexDigit(c) && HexDigitValue(c) == d
  {
    if d < 10 then ('0' as int + d) as char else ('a' as int + d - 10) as char
  }

  /** The shortest lower-case hexadecimal numeral of n. */
  function ShowHex(n: nat): (s: string)
    ensures |s| >= 1 && IsHex(s)
  {
    if n < 16 then [HexChar(n)] else ShowHex(n / 16) + [HexChar(n % 16)]
  }

  lemma {:induction false} HexShow(n: nat)
    ensures Hex(ShowHex(n)) == n
  {
    if n >= 16 {
      var s := ShowHex(n);
      assert s[..|s| - 1] == ShowHex(n / 16);
      HexShow(n / 16);
    }
  }

  // parseInt reads the longest numeral at the front of its argument.

  /**
   * The numerals on which parseInt reads exactly the leading digits: no
   * leading white space (nor any other control or non-ASCII character), no
   * sign and no 0x prefix.
   */
  predicate PlainNumeral(s: string)
  {
    |s| == 0 ||
    (' ' < s[0] < 127 as char && s[0] != '+' && s[0] != '-' &&
     !(|s| >= 2 && s[0] == '0' && (s[1] == 'x' || s[1] == 'X')))
  }

  /** The leading run of decimal digits of s. */
  function LeadingDigits(s: string): (r: string)
    ensures IsDigits(r) && |r| <= |s| && r == s[..|r|]
    ensures |r| < |s| ==> !('0' <= s[|r|] <= '9')
  {
    if |s| == 0 || !('0' <= s[0] <= '9') then "" else [s[0]] + LeadingDigits(s[1..])
  }

  /** The leading run of hexadecimal digits of s. */
  function LeadingHexDigits(s: string): (r: string)
    ensures IsHex(r) && |r| <= |s| && r == s[..|r|]
    ensures |r| < |s| ==> !IsHexDigit(s[|r|])
  {
    if |s| == 0 || !IsHexDigit(s[0]) then "" else [s[0]] + LeadingHexDigits(s[1..])
  }

  /**
   * parseInt(s) on a plain numeral. No leading digit gives NaN, which
   * both `|| 0` and the Buffer integer writers turn into 0; so does this.
   */
  function ParseIntDecimal(s: string): nat
  {
    Decimal(LeadingDigits(s))
  }

  /** parseInt(s, 16) on a plain numeral, NaN read as 0. */
  function ParseIntHex(s: string): nat
  {
    Hex(LeadingHexDigits(s))
  }

  lemma {:induction false} LeadingDigitsOfDigits(s: string)
    requires IsDigits(s)
    ensures LeadingDigits(s) == s
  {
    if |s| > 0 {
      assert IsDigits(s[1..]);
      LeadingDigitsOfDigits(s[1..]);
    }
  }

  lemma {:induction false} LeadingHexOfHex(s: string)
    requires IsHex(s)
    ensures LeadingHexDigits(s) == s
  {
    if |s| > 0 {
      assert IsHex(s[1..]);
      LeadingHexOfHex(s[1..]);
    }
  }

  /** parseInt reads a rendered numeral back. */
  lemma ParseIntShow(n: nat)
    ensures PlainNumeral(ShowDecimal(n)) && ParseIntDecimal(ShowDecimal(n)) == n
    ensures PlainNumeral(ShowHex(n)) && ParseIntHex(ShowHex(n)) == n
  {
    LeadingDigitsOfDigits(ShowDecimal(n));
    DecimalShow(n);
    LeadingHexOfHex(ShowHex(n));
    HexShow(n);
    var h := ShowHex(n);
    if |h| >= 2 && h[0] == '0' {
      assert h[1] != 'x' && h[1] != 'X' by {
        assert IsHexDigit(h[1]);
      }
    }
  }
}
