/**
 * The RDATA formats of app/dns/helpers/type_mappings.js: for each supported
 * TYPE code, the conversion of a record's stored text into RDATA octets
 * (RFC 1035 section 3.3, RFC 3596 section 2.2).
 *
 * The stored text is read as JavaScript reads it, for the forms this model
 * covers: ASCII text, decimal parts read by Number, and numerals read by
 * parseInt that carry no leading white space, sign or 0x prefix. Readable
 * states that domain; each format takes it as a precondition.
 */
module TypeMappings {
  import opened Wire
  import opened Text
  import opened Errors
  import opened Question

  datatype RecordType = A | NS | CNAME | SOA | PTR | MX | TXT | AAAA

  /** The key of each entry of TYPE_HANDLERS. */
  function Code(t: RecordType): u16
  {
    match t
    case A => 1
    case NS => 2
    case CNAME => 5
    case SOA => 6
    case PTR => 12
    case MX => 15
    case TXT => 16
    case AAAA => 28
  }

  /** The name field of each entry. */
  function TypeName(t: RecordType): string
  {
    match t
    case A => "A"
    case NS => "NS"
    case CNAME => "CNAME"
    case SOA => "SOA"
    case PTR => "PTR"
    case MX => "MX"
    case TXT => "TXT"
    case AAAA => "AAAA"
  }

  /** TYPE_HANDLERS[code]: an entry exactly for the eight supported codes. */
  function Handler(code: int): (r: Option<RecordType>)
    ensures r.Some? <==> code in {1, 2, 5, 6, 12, 15, 16, 28}
    ensures r.Some? ==> Code(r.value) == code
  {
    if code == 1 then Some(A)
    else if code == 2 then Some(NS)
    else if code == 5 then Some(CNAME)
    else if code == 6 then Some(SOA)
    else if code == 12 then Some(PTR)
    else if code == 15 then Some(MX)
    else if code == 16 then Some(TXT)
    else if code == 28 then Some(AAAA)
    else None
  }

  /** Every type is found under its own code, so no two types share one. */
  lemma HandlerCode(t: RecordType)
    ensures Handler(Code(t)) == Some(t)
  {
  }

  // ---------------------------------------------------------------------
  // A: Buffer.from(value.split('.').map(Number))

  /** Every integer below 2^53 is a double, so Number reads such a numeral exactly. */
  const ExactDoubles: nat := 0x20_0000_0000_0000

  /** Dotted parts of decimal digits, each below 2^53 so that Number does not round it. */
  predicate ReadableA(value: string)
  {
    forall k :: 0 <= k < |Split(value, '.')| ==>
      IsDigits(Split(value, '.')[k]) && Decimal(Split(value, '.')[k]) < ExactDoubles
  }

  /** One octet per dotted part; Buffer.from keeps the low octet of each number. */
  function FormatA(value: string): (r: seq<byte>)
    requires ReadableA(value)
  {
    var parts := Split(value, '.');
    seq(|parts|, k requires 0 <= k < |parts| => Decimal(parts[k]) % 0x100)
  }

  /** The decimal numerals of some octets. */
  function DecimalParts(b: seq<byte>): (parts: seq<string>)
    ensures |parts| == |b|
    ensures forall k :: 0 <= k < |b| ==> parts[k] == ShowDecimal(b[k])
  {
    seq(|b|, k requires 0 <= k < |b| => ShowDecimal(b[k]))
  }

  /** The dotted-decimal text of some octets. */
  function Dotted(b: seq<byte>): string
  {
    Join(DecimalParts(b), '.')
  }

  lemma DigitsNoDot(s: string)
    requires IsDigits(s)
    ensures '.' !in s && ' ' !in s && ':' !in s
  {
  }

  lemma DottedSplit(b: seq<byte>)
    requires |b| >= 1
    ensures Split(Dotted(b), '.') == DecimalParts(b)
  {
    var parts := DecimalParts(b);
    forall k | 0 <= k < |parts|
      ensures '.' !in parts[k]
    {
      DigitsNoDot(parts[k]);
    }
    SplitJoin(parts, '.');
  }

  lemma FormatAOfParts(value: string, b: seq<byte>)
    requires Split(value, '.') == DecimalParts(b)
    ensures ReadableA(value) && FormatA(value) == b
  {
    var parts := DecimalParts(b);
    forall k | 0 <= k < |b|
      ensures Decimal(parts[k]) == b[k]
    {
      DecimalShow(b[k]);
    }
    var r := FormatA(value);
    forall k | 0 <= k < |b|
      ensures r[k] == b[k]
    {
      assert r[k] == Decimal(parts[k]) % 0x100;
    }
  }

  /** Formatting the dotted-decimal text of octets gives the octets back. */
  lemma FormatADotted(b: seq<byte>)
    requires |b| >= 1
    ensures ReadableA(Dotted(b)) && FormatA(Dotted(b)) == b
  {
    DottedSplit(b);
    FormatAOfParts(Dotted(b), b);
  }

  lemma DecimalPartsVector(b: seq<byte>)
    requires b == [172, 66, 144, 113]
    ensures DecimalParts(b) == ["172", "66", "144", "113"]
  {
    assert ShowDecimal(1) == "1" && ShowDecimal(17) == "17" && ShowDecimal(172) == "172";
    assert ShowDecimal(6) == "6" && ShowDecimal(66) == "66";
    assert ShowDecimal(14) == "14" && ShowDecimal(144) == "144";
    assert ShowDecimal(11) == "11" && ShowDecimal(113) == "113";
  }

  lemma JoinVector(parts: seq<string>)
    requires parts == ["172", "66", "144", "113"]
    ensures Join(parts, '.') == "172.66.144.113"
  {
    assert parts[1..] == ["66", "144", "113"];
    assert parts[1..][1..] == ["144", "113"];
    assert parts[1..][1..][1..] == ["113"];
    assert Join(["113"], '.') == "113";
    assert Join(["144", "113"], '.') == "144" + "." + "113";
    assert Join(["66", "144", "113"], '.') == "66" + "." + "144.113";
    assert Join(parts, '.') == "172" + "." + "66.144.113";
  }

  /** The address of the store's own examples: 172.66.144.113 is four octets. */
  lemma FormatAVector(value: string)
    requires value == "172.66.144.113"
    ensures ReadableA(value) && FormatA(value) == [172, 66, 144, 113]
  {
    var b: seq<byte> := [172, 66, 144, 113];
    assert Dotted(b) == value by {
      DecimalPartsVector(b);
      JoinVector(DecimalParts(b));
    }
    assert ReadableA(Dotted(b)) && FormatA(Dotted(b)) == b by {
      FormatADotted(b);
    }
  }

  // ---------------------------------------------------------------------
  // NS, CNAME and PTR: buildQuestion([value, 1, 1])

  /**
   * The name in question form: the name encoding followed by QTYPE 1 and
   * QCLASS 1, where RFC 1035 section 3.3.1, 3.3.11 and 3.3.12 put the bare name.
   */
  function FormatName(value: string): (r: seq<byte>)
    requires IsAscii(value)
    ensures r == EncodeName(value) + [0, 1, 0, 1]
  {
    assert U16(1) == [0, 1];
    EncodeQuestion(Question(value, 1, 1))
  }

  /** The name comes back from the RDATA with the question parser. */
  lemma FormatNameParses(value: string)
    requires ValidName(value)
    ensures ParseQuestionAt(FormatName(value), 0) == Success(Parsed(Question(value, 1, 1), |FormatName(value)|))
  {
    var q := Question(value, 1, 1);
    assert FormatName(value) == [] + EncodeQuestion(q) + [];
    ParseEncoded([], q, []);
  }

  // ---------------------------------------------------------------------
  // TXT: [length] then the text

  /** One length octet (its low eight bits) and then the text. */
  function FormatTXT(value: string): (r: seq<byte>)
    requires IsAscii(value)
  {
    [|value| % 0x100] + AsciiBytes(value)
  }

  /** A text of at most 255 characters is a character-string that reads back. */
  lemma FormatTXTReads(value: string)
    requires IsAscii(value) && |value| <= 255
    ensures var r := FormatTXT(value);
      |r| == 1 + |value| && r[0] == |value| && DecodeAscii(r[1..]) == value
  {
    var r := FormatTXT(value);
    assert r[1..] == AsciiBytes(value);
    DecodeAsciiBytes(value);
  }

  // ---------------------------------------------------------------------
  // MX: "preference exchange"

  predicate ReadableMX(value: string)
  {
    IsAscii(value) && PlainNumeral(Split(value, ' ')[0])
  }

  /**
   * A 16-bit preference, then the exchange in question form. A preference
   * above 65535 makes writeUInt16BE throw; a value without a space leaves
   * the exchange undefined, and buildQuestion throws on it.
   */
  function FormatMX(value: string): (r: Result<seq<byte>, Exception>)
    requires ReadableMX(value)
    ensures r.Success? ==>
      var parts := Split(value, ' ');
      |parts| >= 2 && IsAscii(parts[1]) && |r.value| >= 2 &&
      ReadU16(r.value, 0) == ParseIntDecimal(parts[0]) &&
      r.value[2..] == EncodeQuestion(Question(parts[1], 1, 1))
  {
    var parts := Split(value, ' ');
    SplitAscii(value, ' ');
    var preference := ParseIntDecimal(parts[0]);
    if preference >= 0x1_0000 then Failure(RangeError)
    else if |parts| < 2 then Failure(TypeError)
    else Success(U16(preference) + EncodeQuestion(Question(parts[1], 1, 1)))
  }

  /** The failures: a preference out of range, else a missing exchange. */
  lemma FormatMXFails(value: string)
    requires ReadableMX(value)
    ensures FormatMX(value).Failure? <==>
      ParseIntDecimal(Split(value, ' ')[0]) >= 0x1_0000 || |Split(value, ' ')| < 2
  {
  }

  /** A preference and a valid exchange written as "preference exchange" come back from the RDATA. */
  lemma FormatMXRoundTrip(preference: u16, exchange: string)
    requires ValidName(exchange) && ' ' !in exchange
    ensures var value := ShowDecimal(preference) + " " + exchange;
      ReadableMX(value) && FormatMX(value).Success? &&
      ReadU16(FormatMX(value).value, 0) == preference &&
      ParseQuestionAt(FormatMX(value).value, 2) ==
        Success(Parsed(Question(exchange, 1, 1), |FormatMX(value).value| - 2))
  {
    var pre := ShowDecimal(preference);
    var value := pre + " " + exchange;
    assert Split(value, ' ') == [pre, exchange] && IsAscii(value) by {
      TwoWords(pre, exchange);
    }
    assert ParseIntDecimal(pre) == preference by {
      ParseIntShow(preference);
    }
    assert ReadableMX(value);
    var r := FormatMX(value).value;
    TailParses(r, exchange);
  }

  /** Octets whose tail is an exchange in question form parse back from offset 2. */
  lemma TailParses(r: seq<byte>, exchange: string)
    requires ValidName(exchange) && |r| >= 2 && r[2..] == EncodeQuestion(Question(exchange, 1, 1))
    ensures ParseQuestionAt(r, 2) == Success(Parsed(Question(exchange, 1, 1), |r| - 2))
  {
    var q := Question(exchange, 1, 1);
    assert r == r[..2] + EncodeQuestion(q) + [];
    ParseEncoded(r[..2], q, []);
  }

  lemma TwoWords(pre: string, exchange: string)
    requires IsDigits(pre) && IsAscii(exchange) && ' ' !in exchange
    ensures Split(pre + " " + exchange, ' ') == [pre, exchange]
    ensures IsAscii(pre + " " + exchange)
  {
    DigitsNoDot(pre);
    assert Join([pre, exchange], ' ') == pre + " " + exchange by {
      assert [pre, exchange][1..] == [exchange];
    }
    SplitJoin([pre, exchange], ' ');
  }

  // ---------------------------------------------------------------------
  // SOA: "mname rname serial refresh retry expire minimum"

  /** The five numbers; a missing one is parseInt(undefined), NaN, which writeUInt32BE stores as 0. */
  function SoaNumbers(parts: seq<string>): (r: seq<nat>)
    ensures |r| == 5
  {
    seq(5, j requires 0 <= j < 5 => if 2 + j < |parts| then ParseIntDecimal(parts[2 + j]) else 0)
  }

  predicate ReadableSOA(value: string)
  {
    var parts := Split(value, ' ');
    IsAscii(value) && forall k :: 2 <= k < |parts| && k < 7 ==> PlainNumeral(parts[k])
  }

  /** Five 32-bit words, most significant octet first. */
  function Words32(nums: seq<nat>): (r: seq<byte>)
    requires forall j :: 0 <= j < |nums| ==> nums[j] < 0x1_0000_0000
    ensures |r| == 4 * |nums|
  {
    if nums == [] then [] else U32(nums[0]) + Words32(nums[1..])
  }

  lemma {:induction false} Words32At(nums: seq<nat>, j: nat)
    requires forall i :: 0 <= i < |nums| ==> nums[i] < 0x1_0000_0000
    requires j < |nums|
    ensures ReadU32(Words32(nums), 4 * j) == nums[j]
  {
    var head, t := U32(nums[0]), Words32(nums[1..]);
    assert Words32(nums) == head + t;
    if j == 0 {
      ReadU32OfU32(nums[0], head + t, 0);
    } else {
      Words32At(nums[1..], j - 1);
      ReadU32Shift(head, t, 4 * (j - 1));
    }
  }

  /**
   * mname and rname in question form, then the five numbers as 32-bit
   * words. A missing rname is undefined and buildQuestion throws on it; a
   * number above 2^32 - 1 makes writeUInt32BE throw.
   */
  function FormatSOA(value: string): (r: Result<seq<byte>, Exception>)
    requires ReadableSOA(value)
    ensures r.Success? ==> |Split(value, ' ')| >= 2
  {
    var parts := Split(value, ' ');
    SplitAscii(value, ' ');
    SplitShape(value, ' ');
    var nums := SoaNumbers(parts);
    if |parts| < 2 then Failure(TypeError)
    else if exists j :: 0 <= j < 5 && nums[j] >= 0x1_0000_0000 then Failure(RangeError)
    else Success(EncodeQuestion(Question(parts[0], 1, 1)) + EncodeQuestion(Question(parts[1], 1, 1)) + Words32(nums))
  }

  /** A number above 32 bits among the five is a numeral above 32 bits in parts 2 to 6. */
  lemma SoaNumbersExceed(parts: seq<string>)
    ensures (exists j :: 0 <= j < 5 && SoaNumbers(parts)[j] >= 0x1_0000_0000) <==>
      exists k :: 2 <= k < |parts| && k < 7 && ParseIntDecimal(parts[k]) >= 0x1_0000_0000
  {
    var nums := SoaNumbers(parts);
    if exists k :: 2 <= k < |parts| && k < 7 && ParseIntDecimal(parts[k]) >= 0x1_0000_0000 {
      var k :| 2 <= k < |parts| && k < 7 && ParseIntDecimal(parts[k]) >= 0x1_0000_0000;
      assert nums[k - 2] >= 0x1_0000_0000;
    }
    if exists j :: 0 <= j < 5 && nums[j] >= 0x1_0000_0000 {
      var j :| 0 <= j < 5 && nums[j] >= 0x1_0000_0000;
      assert 2 + j < |parts| && ParseIntDecimal(parts[2 + j]) >= 0x1_0000_0000;
    }
  }

  /**
   * The SOA format fails exactly when rname is missing, with the TypeError
   * of buildQuestion, or when one of serial, refresh, retry, expire and
   * minimum exceeds 32 bits, with the RangeError of writeUInt32BE.
   */
  lemma FormatSOAFails(value: string)
    requires ReadableSOA(value)
    ensures var parts := Split(value, ' ');
      FormatSOA(value).Failure? <==>
        |parts| < 2 || exists k :: 2 <= k < |parts| && k < 7 && ParseIntDecimal(parts[k]) >= 0x1_0000_0000
    ensures FormatSOA(value).Failure? ==>
      (FormatSOA(value).error == TypeError <==> |Split(value, ' ')| < 2)
  {
    SoaNumbersExceed(Split(value, ' '));
  }

  /**
   * The layout of an SOA RDATA: mq from offset 0, rq right after it, then
   * one 32-bit word per number, each read back by readUInt32BE.
   */
  predicate SoaLayout(r: seq<byte>, mq: seq<byte>, rq: seq<byte>, nums: seq<nat>)
  {
    |r| == |mq| + |rq| + 4 * |nums| && r[..|mq|] == mq && r[|mq|..|mq| + |rq|] == rq &&
    forall j :: 0 <= j < |nums| ==> ReadU32(r, |mq| + |rq| + 4 * j) == nums[j]
  }

  /** On success the RDATA holds mname and rname in question form, then the five numbers. */
  lemma FormatSOALayout(value: string)
    requires ReadableSOA(value) && FormatSOA(value).Success?
    ensures var parts := Split(value, ' ');
      IsAscii(parts[0]) && IsAscii(parts[1]) &&
      SoaLayout(FormatSOA(value).value, EncodeQuestion(Question(parts[0], 1, 1)),
        EncodeQuestion(Question(parts[1], 1, 1)), SoaNumbers(parts))
  {
    var parts := Split(value, ' ');
    assert |parts| >= 2 && IsAscii(parts[0]) && IsAscii(parts[1]) by {
      SplitAscii(value, ' ');
    }
    var mq := EncodeQuestion(Question(parts[0], 1, 1));
    var rq := EncodeQuestion(Question(parts[1], 1, 1));
    var nums := SoaNumbers(parts);
    var r := FormatSOA(value).value;
    assert r == mq + rq + Words32(nums);
    Words32Reads(nums);
    PartsLayout(r, mq, rq, Words32(nums), nums);
  }

  lemma Words32Reads(nums: seq<nat>)
    requires forall i :: 0 <= i < |nums| ==> nums[i] < 0x1_0000_0000
    ensures forall j :: 0 <= j < |nums| ==> ReadU32(Words32(nums), 4 * j) == nums[j]
  {
    forall j | 0 <= j < |nums|
      ensures ReadU32(Words32(nums), 4 * j) == nums[j]
    {
      Words32At(nums, j);
    }
  }

  /** Two encodings followed by words are laid out in that order. */
  lemma PartsLayout(r: seq<byte>, mq: seq<byte>, rq: seq<byte>, w: seq<byte>, nums: seq<nat>)
    requires r == mq + rq + w && |w| == 4 * |nums|
    requires forall j :: 0 <= j < |nums| ==> ReadU32(w, 4 * j) == nums[j]
    ensures SoaLayout(r, mq, rq, nums)
  {
    forall j | 0 <= j < |nums|
      ensures ReadU32(r, |mq| + |rq| + 4 * j) == nums[j]
    {
      ReadU32Shift(mq + rq, w, 4 * j);
    }
    Slices3(mq, rq, w);
  }

  // ---------------------------------------------------------------------
  // AAAA: eight 16-bit groups, with the first empty group expanded

  /** parts.indexOf(''). */
  function FirstEmpty(parts: seq<string>): (r: Option<nat>)
    ensures r.Some? ==>
      r.value < |parts| && parts[r.value] == "" && forall k :: 0 <= k < r.value ==> parts[k] != ""
    ensures r.None? ==> forall k :: 0 <= k < |parts| ==> parts[k] != ""
  {
    if |parts| == 0 then None
    else if parts[0] == "" then Some(0)
    else match FirstEmpty(parts[1..])
      case None => None
      case Some(i) => Some(i + 1)
  }

  /** Array(n).fill('0'). */
  function Fill(n: nat): (r: seq<string>)
    ensures |r| == n && forall k :: 0 <= k < n ==> r[k] == "0"
  {
    seq(n, _ => "0")
  }

  /**
   * The splice: the first empty group becomes 8 - (parts - 1) groups "0";
   * a negative count makes Array throw a RangeError.
   */
  function Expand(parts: seq<string>): (r: Result<seq<string>, Exception>)
  {
    match FirstEmpty(parts)
    case None => Success(parts)
    case Some(e) =>
      var missing := 8 - (|parts| - 1);
      if missing < 0 then Failure(RangeError)
      else Success(parts[..e] + Fill(missing) + parts[e + 1..])
  }

  /**
   * An address with an empty group expands to exactly eight groups; one
   * with more than nine parts is refused; one without is left as it is.
   */
  lemma ExpandShape(parts: seq<string>)
    ensures FirstEmpty(parts).Some? && |parts| <= 9 ==> Expand(parts).Success? && |Expand(parts).value| == 8
    ensures FirstEmpty(parts).Some? && |parts| > 9 ==> Expand(parts) == Failure(RangeError)
    ensures FirstEmpty(parts).None? ==> Expand(parts) == Success(parts)
  {
  }

  predicate ReadableAAAA(value: string)
  {
    forall k :: 0 <= k < |Split(value, ':')| ==> PlainNumeral(Split(value, ':')[k])
  }

  /** parseInt(part, 16) || 0 for every group fits 16 bits. */
  predicate GroupsFit(groups: seq<string>)
  {
    forall k {:trigger ParseIntHex(groups[k])} :: 0 <= k < |groups| ==> ParseIntHex(groups[k]) < 0x1_0000
  }

  /** The groups as big-endian 16-bit words, in order. */
  function Words(groups: seq<string>): (r: seq<byte>)
    requires GroupsFit(groups)
    ensures |r| == 2 * |groups|
  {
    if groups == [] then [] else Words(groups[..|groups| - 1]) + U16(ParseIntHex(groups[|groups| - 1]))
  }

  lemma {:induction false} WordsAt(groups: seq<string>, k: nat)
    requires GroupsFit(groups) && k < |groups|
    ensures ReadU16(Words(groups), 2 * k) == ParseIntHex(groups[k])
  {
    var init := groups[..|groups| - 1];
    var w := Words(groups);
    if k == |groups| - 1 {
      assert w[2 * k..2 * k + 2] == U16(ParseIntHex(groups[k]));
      ReadU16OfU16(ParseIntHex(groups[k]), w, 2 * k);
    } else {
      assert GroupsFit(init);
      WordsAt(init, k);
      assert init[k] == groups[k];
      assert w[2 * k] == Words(init)[2 * k] && w[2 * k + 1] == Words(init)[2 * k + 1];
    }
  }

  /**
   * The 16-octet buffer: each group written at twice its index, the rest
   * left zero. More than eight groups write past the buffer, and a group
   * above 0xffff is out of range; both throw.
   */
  function FormatAAAASpec(value: string): (r: Result<seq<byte>, Exception>)
    requires ReadableAAAA(value)
    ensures r.Success? ==> |r.value| == 16
    ensures r.Failure? ==> r.error == RangeError
  {
    match Expand(Split(value, ':'))
    case Failure(e) => Failure(e)
    case Success(groups) =>
      if |groups| <= 8 && GroupsFit(groups) then Success(Words(groups) + Zeros(16 - 2 * |groups|))
      else Failure(RangeError)
  }

  /** On success, group k of the expanded address is the word at offset 2k, and the octets past the groups are zero. */
  lemma FormatAAAAGroups(value: string)
    requires ReadableAAAA(value) && FormatAAAASpec(value).Success?
    ensures var groups := Expand(Split(value, ':')).value;
      var r := FormatAAAASpec(value).value;
      |groups| <= 8 &&
      (forall k :: 0 <= k < |groups| ==> GroupsFit(groups) && ReadU16(r, 2 * k) == ParseIntHex(groups[k])) &&
      forall j :: 2 * |groups| <= j < 16 ==> r[j] == 0
  {
    var groups := Expand(Split(value, ':')).value;
    var r := FormatAAAASpec(value).value;
    var w := Words(groups);
    forall k | 0 <= k < |groups|
      ensures ReadU16(r, 2 * k) == ParseIntHex(groups[k])
    {
      WordsAt(groups, k);
      assert r[2 * k] == w[2 * k] && r[2 * k + 1] == w[2 * k + 1];
    }
  }

  /** The buffer after k groups: their words, then zeros. */
  lemma WordsStep(groups: seq<string>, k: nat)
    requires k < |groups| && GroupsFit(groups[..k + 1])
    ensures GroupsFit(groups[..k]) && Words(groups[..k + 1]) == Words(groups[..k]) + U16(ParseIntHex(groups[k]))
  {
    assert groups[..k + 1][..k] == groups[..k];
  }

  /** The format's result once the splice has produced the groups. */
  lemma FormatOfGroups(value: string, groups: seq<string>)
    requires ReadableAAAA(value) && Expand(Split(value, ':')) == Success(groups)
    ensures FormatAAAASpec(value) ==
      if |groups| <= 8 && GroupsFit(groups) then Success(Words(groups) + Zeros(16 - 2 * |groups|))
      else Failure(RangeError)
  {
  }

  /** A group out of range, or a ninth group, refuses the whole address. */
  lemma GroupRefused(groups: seq<string>, k: nat)
    requires k < |groups| && (ParseIntHex(groups[k]) >= 0x1_0000 || k >= 8)
    ensures !(|groups| <= 8 && GroupsFit(groups))
  {
  }

  /** The buffer after the first k groups: their words, then zeros. */
  predicate Written(groups: seq<string>, k: nat, buf: seq<byte>)
  {
    k <= |groups| && k <= 8 && GroupsFit(groups[..k]) && buf == Words(groups[..k]) + Zeros(16 - 2 * k)
  }

  lemma WrittenNone(groups: seq<string>, buf: seq<byte>)
    requires buf == Zeros(16)
    ensures Written(groups, 0, buf)
  {
    assert groups[..0] == [];
  }

  /** Writing group k's word at offset 2k extends the buffer by that word. */
  lemma WriteStep(groups: seq<string>, k: nat, before: seq<byte>, after: seq<byte>, n: u16)
    requires Written(groups, k, before) && k < |groups| && k < 8 && n == ParseIntHex(groups[k])
    requires after == before[2 * k := n / 0x100][2 * k + 1 := n % 0x100]
    ensures Written(groups, k + 1, after)
  {
    assert GroupsFit(groups[..k + 1]) by {
      assert forall j :: 0 <= j < k ==> groups[..k + 1][j] == groups[..k][j];
    }
    WordsStep(groups, k);
    var w := Words(groups[..k]);
    assert after == w + U16(n) + Zeros(16 - 2 * k - 2);
  }

  lemma WrittenAll(groups: seq<string>, buf: seq<byte>)
    requires Written(groups, |groups|, buf)
    ensures |groups| <= 8 && GroupsFit(groups) && buf == Words(groups) + Zeros(16 - 2 * |groups|)
  {
    assert groups[..|groups|] == groups;
  }

  /** buf.writeUInt16BE(n, offset): the high octet at offset, the low one after it. */
  method WriteU16BE(buf: array<byte>, offset: nat, n: u16)
    requires offset + 2 <= buf.Length
    modifies buf
    ensures buf[..] == old(buf[..])[offset := n / 0x100][offset + 1 := n % 0x100]
  {
    buf[offset] := n / 0x100;
    buf[offset + 1] := n % 0x100;
  }

  /**
   * The write loop of the format: each group into a zeroed 16-octet buffer,
   * two octets at a time; writeUInt16BE throws on a value above 0xffff or
   * on a ninth group, which would land past the buffer.
   */
  method WriteGroups(groups: seq<string>) returns (r: Result<seq<byte>, Exception>)
    ensures r == if |groups| <= 8 && GroupsFit(groups) then Success(Words(groups) + Zeros(16 - 2 * |groups|))
      else Failure(RangeError)
  {
    var buf := new byte[16](_ => 0);
    var offset := 0;
    WrittenNone(groups, buf[..]);
    for k := 0 to |groups|
      invariant offset == 2 * k && Written(groups, k, buf[..])
    {
      var n := ParseIntHex(groups[k]);
      if n >= 0x1_0000 || offset + 2 > 16 {
        GroupRefused(groups, k);
        return Failure(RangeError);
      }
      ghost var before: seq<byte> := buf[..];
      WriteU16BE(buf, offset, n);
      WriteStep(groups, k, before, buf[..], n);
      offset := offset + 2;
    }
    WrittenAll(groups, buf[..]);
    r := Success(buf[..]);
  }

  /**
   * The format function itself: split on ':', splice the zero groups in
   * for the first empty one, then write the groups.
   */
  method FormatAAAA(value: string) returns (r: Result<seq<byte>, Exception>)
    requires ReadableAAAA(value)
    ensures r == FormatAAAASpec(value)
  {
    var parts := Split(value, ':');
    var emptyIndex := FirstEmpty(parts);
    if emptyIndex.Some? {
      var missing := 8 - (|parts| - 1);
      if missing < 0 {
        return Failure(RangeError);
      }
      parts := parts[..emptyIndex.value] + Fill(missing) + parts[emptyIndex.value + 1..];
    }
    FormatOfGroups(value, parts);
    r := WriteGroups(parts);
  }

  /** The octets of an address written out in eight full groups come back from the format. */
  lemma FormatAAAAFull(g: seq<u16>)
    requires |g| == 8
    ensures var value := Join(seq(8, k requires 0 <= k < 8 => ShowHex(g[k])), ':');
      ReadableAAAA(value) && FormatAAAASpec(value).Success? &&
      forall k :: 0 <= k < 8 ==> ReadU16(FormatAAAASpec(value).value, 2 * k) == g[k]
  {
    var parts := seq(8, k requires 0 <= k < 8 => ShowHex(g[k]));
    var value := Join(parts, ':');
    forall k | 0 <= k < 8
      ensures ':' !in parts[k] && parts[k] != "" && PlainNumeral(parts[k]) && ParseIntHex(parts[k]) == g[k]
    {
      ParseIntShow(g[k]);
      assert IsHexDigit(':') == false;
    }
    SplitJoin(parts, ':');
    assert FirstEmpty(parts).None?;
    FormatAAAAGroups(value);
  }

  /** Groups that all read as zero are written as zero octets. */
  lemma {:induction false} WordsOfZeros(groups: seq<string>)
    requires forall k :: 0 <= k < |groups| ==> ParseIntHex(groups[k]) == 0
    ensures GroupsFit(groups) && Words(groups) == Zeros(2 * |groups|)
  {
    if groups != [] {
      var init := groups[..|groups| - 1];
      assert forall k :: 0 <= k < |init| ==> init[k] == groups[k];
      WordsOfZeros(init);
      assert U16(0) == [0, 0];
    }
  }

  /** "::1" splits into two empty parts and "1", and the first empty part becomes six zero groups. */
  lemma LoopbackParts(value: string)
    requires value == "::1"
    ensures Split(value, ':') == ["", "", "1"]
  {
    var parts := ["", "", "1"];
    assert Join(parts, ':') == value by {
      assert parts[1..] == ["", "1"] && parts[1..][1..] == ["1"];
    }
    SplitJoin(parts, ':');
  }

  lemma LoopbackReadable(value: string)
    requires value == "::1"
    ensures ReadableAAAA(value)
  {
    LoopbackParts(value);
  }

  lemma LoopbackGroups(value: string)
    requires value == "::1"
    ensures Expand(Split(value, ':')) == Success(["0", "0", "0", "0", "0", "0", "", "1"])
  {
    var parts := ["", "", "1"];
    LoopbackParts(value);
    assert parts[..0] + Fill(6) + parts[1..] == ["0", "0", "0", "0", "0", "0", "", "1"];
  }

  lemma LoopbackWords(groups: seq<string>)
    requires groups == ["0", "0", "0", "0", "0", "0", "", "1"]
    ensures GroupsFit(groups) && Words(groups) == Zeros(14) + [0, 1]
  {
    assert ParseIntHex("0") == 0 && ParseIntHex("") == 0 && ParseIntHex("1") == 1;
    WordsOfZeros(groups[..7]);
    assert U16(1) == [0, 1];
  }

  /** The loopback address of the store's seed rows: "::1" is seven zero groups and then 1. */
  lemma FormatAAAALoopback(value: string)
    requires value == "::1"
    ensures ReadableAAAA(value) && FormatAAAASpec(value) == Success(Zeros(14) + [0, 1])
  {
    var groups := ["0", "0", "0", "0", "0", "0", "", "1"];
    LoopbackReadable(value);
    LoopbackGroups(value);
    LoopbackWords(groups);
    FormatOfGroups(value, groups);
    assert Words(groups) + Zeros(16 - 2 * |groups|) == Words(groups);
  }

  lemma GroupsFitJoin(a: seq<string>, b: seq<string>)
    requires GroupsFit(a) && GroupsFit(b)
    ensures GroupsFit(a + b)
  {
    forall k | 0 <= k < |a + b|
      ensures ParseIntHex((a + b)[k]) < 0x1_0000
    {
      if k < |a| {
        assert (a + b)[k] == a[k];
      } else {
        assert (a + b)[k] == b[k - |a|];
      }
    }
  }

  lemma GroupsFitInit(b: seq<string>)
    requires GroupsFit(b) && b != []
    ensures GroupsFit(b[..|b| - 1])
  {
    assert forall k :: 0 <= k < |b| - 1 ==> b[..|b| - 1][k] == b[k];
  }

  /** Two runs of groups are written one after the other. */
  lemma {:induction false} WordsAppend(a: seq<string>, b: seq<string>)
    requires GroupsFit(a) && GroupsFit(b)
    ensures GroupsFit(a + b) && Words(a + b) == Words(a) + Words(b)
    decreases |b|
  {
    GroupsFitJoin(a, b);
    if b == [] {
      assert a + b == a;
    } else {
      var init := b[..|b| - 1];
      GroupsFitInit(b);
      assert (a + b)[..|a + b| - 1] == a + init;
      WordsAppend(a, init);
      Assoc(Words(a), Words(init), U16(ParseIntHex(b[|b| - 1])));
    }
  }

  lemma DocumentationParts(value: string)
    requires value == "2001:db8::1"
    ensures Split(value, ':') == ["2001", "db8", "", "1"]
  {
    var parts := ["2001", "db8", "", "1"];
    assert Join(parts, ':') == value by {
      assert parts[1..] == ["db8", "", "1"] && parts[1..][1..] == ["", "1"] && parts[1..][1..][1..] == ["1"];
    }
    SplitJoin(parts, ':');
  }

  lemma DocumentationReadable(value: string)
    requires value == "2001:db8::1"
    ensures ReadableAAAA(value)
  {
    DocumentationParts(value);
  }

  /** "2001:db8::1" splits into four parts, and the empty one becomes five zero groups. */
  lemma DocumentationGroups(value: string)
    requires value == "2001:db8::1"
    ensures Expand(Split(value, ':')) == Success(["2001", "db8"] + Fill(5) + ["1"])
  {
    var parts := ["2001", "db8", "", "1"];
    DocumentationParts(value);
    assert FirstEmpty(parts) == Some(2);
    assert parts[..2] == ["2001", "db8"] && parts[3..] == ["1"];
  }

  lemma HexGroup2001()
    ensures ParseIntHex("2001") == 0x2001
  {
    LeadingHexOfHex("2001");
    assert "2001"[..3] == "200" && "200"[..2] == "20" && "20"[..1] == "2" && "2"[..0] == "";
  }

  lemma HexGroupDb8()
    ensures ParseIntHex("db8") == 0xdb8
  {
    LeadingHexOfHex("db8");
    assert "db8"[..2] == "db" && "db"[..1] == "d" && "d"[..0] == "";
  }

  lemma FrontWords(front: seq<string>)
    requires front == ["2001", "db8"]
    ensures GroupsFit(front) && Words(front) == [0x20, 0x01, 0x0d, 0xb8]
  {
    HexGroup2001();
    HexGroupDb8();
    assert front[..1] == ["2001"] && front[..1][..0] == [];
  }

  lemma DocumentationWords(groups: seq<string>)
    requires groups == ["2001", "db8"] + Fill(5) + ["1"]
    ensures GroupsFit(groups) && Words(groups) == [0x20, 0x01, 0x0d, 0xb8] + Zeros(10) + [0, 1]
  {
    var front: seq<string> := ["2001", "db8"];
    FrontWords(front);
    assert ParseIntHex("1") == 1 && ParseIntHex("0") == 0;
    WordsOfZeros(Fill(5));
    WordsAppend(front, Fill(5));
    var last: seq<string> := ["1"];
    assert last[..0] == [];
    assert Words(last) == [0, 1];
    WordsAppend(front + Fill(5), last);
  }

  /** The example of the AAAA format: "2001:db8::1" is 20 01 0d b8, ten zero octets, then 00 01. */
  lemma FormatAAAADocumentation(value: string)
    requires value == "2001:db8::1"
    ensures ReadableAAAA(value) && FormatAAAASpec(value) == Success([0x20, 0x01, 0x0d, 0xb8] + Zeros(10) + [0, 1])
  {
    var groups := ["2001", "db8"] + Fill(5) + ["1"];
    DocumentationReadable(value);
    DocumentationGroups(value);
    DocumentationWords(groups);
    FormatOfGroups(value, groups);
    assert Words(groups) + Zeros(16 - 2 * |groups|) == Words(groups);
  }

  // ---------------------------------------------------------------------
  // The table

  predicate Readable(t: RecordType, value: string)
  {
    match t
    case A => ReadableA(value)
    case NS => IsAscii(value)
    case CNAME => IsAscii(value)
    case PTR => IsAscii(value)
    case MX => ReadableMX(value)
    case TXT => IsAscii(value)
    case SOA => ReadableSOA(value)
    case AAAA => ReadableAAAA(value)
  }

  /** handler.format(value) for the entry of type t. */
  function Format(t: RecordType, value: string): (r: Result<seq<byte>, Exception>)
    requires Readable(t, value)
  {
    match t
    case A => Success(FormatA(value))
    case NS => Success(FormatName(value))
    case CNAME => Success(FormatName(value))
    case PTR => Success(FormatName(value))
    case MX => FormatMX(value)
    case TXT => Success(FormatTXT(value))
    case SOA => FormatSOA(value)
    case AAAA => FormatAAAASpec(value)
  }

  /** Only MX, SOA and AAAA can throw, and only built-in errors: never one of the DNS kinds. */
  lemma FormatThrows(t: RecordType, value: string)
    requires Readable(t, value) && Format(t, value).Failure?
    ensures t in {MX, SOA, AAAA}
    ensures Format(t, value).error in {TypeError, RangeError}
  {
  }

  /** handler.format(value): the AAAA entry runs its write loop, the others are expressions. */
  method Apply(t: RecordType, value: string) returns (r: Result<seq<byte>, Exception>)
    requires Readable(t, value)
    ensures r == Format(t, value)
  {
    if t == AAAA {
      r := FormatAAAA(value);
    } else {
      r := Format(t, value);
    }
  }
}
