/**
 * Domain names and question entries (RFC 1035 sections 3.1 and 4.1.2), as
 * written by app/helpers/build_question.js and read by
 * app/helpers/parse_question.js. Names are written in full: no compression
 * on either side, and the reader does not follow compressed names (RFC 1035 section 4.1.4).
 */
module Question {
  import opened Wire
  import opened Text

  /** [domainName, qtype, qclass] */
  datatype Question = Question(name: string, qtype: u16, qclass: u16)

  /** What parseQuestion returns: the question and the bytes it spans. */
  datatype Parsed = Parsed(question: Question, bytesRead: nat)

  datatype QuestionError =
    | LabelPastEnd   // a length octet or label runs past the buffer
    | FieldPastEnd   // readUInt16BE of QTYPE or QCLASS past the buffer

  // ---------------------------------------------------------------------
  // Encoding

  predicate AllAscii(labels: seq<string>)
  {
    forall k :: 0 <= k < |labels| ==> IsAscii(labels[k])
  }

  lemma SplitAscii(s: string, d: char)
    requires IsAscii(s)
    ensures AllAscii(Split(s, d))
    decreases |s|
  {
    match IndexOf(s, d)
    case None =>
    case Some(i) =>
      assert IsAscii(s[i + 1..]);
      SplitAscii(s[i + 1..], d);
  }

  /**
   * Each label as one length octet and its bytes; Buffer.from([len]) keeps
   * only the low octet of the length.
   */
  function EncodeLabels(labels: seq<string>): (r: seq<byte>)
    requires AllAscii(labels)
  {
    if labels == [] then []
    else [|labels[0]| % 0x100] + AsciiBytes(labels[0]) + EncodeLabels(labels[1..])
  }

  /** The dot-separated labels of the name, then a single zero octet. */
  function EncodeName(name: string): (r: seq<byte>)
    requires IsAscii(name)
  {
    SplitAscii(name, '.');
    EncodeLabels(Split(name, '.')) + [0]
  }

  /** The name encoding, then QTYPE and QCLASS as big-endian 16-bit words. */
  function EncodeQuestion(q: Question): (r: seq<byte>)
    requires IsAscii(q.name)
    ensures |r| == |EncodeName(q.name)| + 4
  {
    EncodeName(q.name) + U16(q.qtype) + U16(q.qclass)
  }

  /** The encoded size of a label list: one length octet per label plus its bytes. */
  function LabelsSize(labels: seq<string>): nat
  {
    if labels == [] then 0 else 1 + |labels[0]| + LabelsSize(labels[1..])
  }

  lemma {:induction false} EncodeLabelsLength(labels: seq<string>)
    requires AllAscii(labels)
    ensures |EncodeLabels(labels)| == LabelsSize(labels)
  {
    if labels != [] {
      EncodeLabelsLength(labels[1..]);
    }
  }

  /** |encoding| = sum over labels of (1 + length), plus the terminator, plus 4. */
  lemma QuestionLength(q: Question)
    requires IsAscii(q.name)
    ensures |EncodeQuestion(q)| == LabelsSize(Split(q.name, '.')) + 1 + 4
  {
    SplitAscii(q.name, '.');
    EncodeLabelsLength(Split(q.name, '.'));
  }

  lemma {:induction false} EncodeLabelsAppend(a: seq<string>, b: seq<string>)
    requires AllAscii(a) && AllAscii(b)
    ensures AllAscii(a + b)
    ensures EncodeLabels(a + b) == EncodeLabels(a) + EncodeLabels(b)
  {
    if a == [] {
      assert a + b == b;
    } else {
      var h := [|a[0]| % 0x100] + AsciiBytes(a[0]);
      assert (a + b)[0] == a[0] && (a + b)[1..] == a[1..] + b;
      EncodeLabelsAppend(a[1..], b);
      assert EncodeLabels(a + b) == h + (EncodeLabels(a[1..]) + EncodeLabels(b));
      Assoc(h, EncodeLabels(a[1..]), EncodeLabels(b));
    }
  }

  lemma EncodeLabelsSnoc(labels: seq<string>, k: nat)
    requires AllAscii(labels) && k < |labels|
    ensures EncodeLabels(labels[..k + 1]) ==
      EncodeLabels(labels[..k]) + ([|labels[k]| % 0x100] + AsciiBytes(labels[k]))
  {
    assert EncodeLabels([labels[k]]) == [|labels[k]| % 0x100] + AsciiBytes(labels[k]) + EncodeLabels([]);
    EncodeLabelsAppend(labels[..k], [labels[k]]);
    assert labels[..k + 1] == labels[..k] + [labels[k]];
  }

  /**
   * buildQuestion([domainName, qtype, qclass]): the label loop pushes a
   * length buffer and a label buffer per label, then the terminator and the
   * two words are pushed and everything is concatenated.
   */
  method BuildQuestion(q: Question) returns (r: seq<byte>)
    requires IsAscii(q.name)
    ensures r == EncodeQuestion(q)
  {
    var labels := Split(q.name, '.');
    SplitAscii(q.name, '.');
    var parts: seq<seq<byte>> := [];
    for k := 0 to |labels|
      invariant Concat(parts) == EncodeLabels(labels[..k])
    {
      var len := |labels[k]| % 0x100;
      var bytes := AsciiBytes(labels[k]);
      ConcatAppend(parts, [[len], bytes]);
      Concat2([len], bytes);
      EncodeLabelsSnoc(labels, k);
      parts := parts + [[len], bytes];
    }
    assert labels[..|labels|] == labels;
    var tail := [[0], U16(q.qtype), U16(q.qclass)];
    ConcatAppend(parts, tail);
    Concat3([0], U16(q.qtype), U16(q.qclass));
    parts := parts + tail;
    r := Concat(parts);
  }

  // ---------------------------------------------------------------------
  // Decoding

  /**
   * The label loop of parseQuestion from cursor i: the labels read and the
   * cursor just past the zero octet. As written the loop reads buf[i] past
   * the end as undefined and never stops; here that is a failure.
   */
  function ReadLabels(buf: seq<byte>, i: nat): (r: Result<(seq<string>, nat), QuestionError>)
    ensures r.Success? ==> i < r.value.1 <= |buf| && buf[r.value.1 - 1] == 0
    ensures r.Success? ==> AllAscii(r.value.0)
    decreases |buf| - i
  {
    if i >= |buf| then Failure(LabelPastEnd)
    else if buf[i] == 0 then Success(([], i + 1))
    else if i + 1 + buf[i] > |buf| then Failure(LabelPastEnd)
    else
      match ReadLabels(buf, i + 1 + buf[i])
      case Failure(e) => Failure(e)
      case Success((rest, j)) => Success(([DecodeAscii(buf[i + 1..i + 1 + buf[i]])] + rest, j))
  }

  lemma {:induction false} JoinAscii(labels: seq<string>, d: char)
    requires AllAscii(labels) && d < 128 as char
    ensures IsAscii(Join(labels, d))
  {
    if |labels| > 1 {
      JoinAscii(labels[1..], d);
    }
  }

  /**
   * parseQuestion(buf, offset): the labels joined with '.', then QTYPE and
   * QCLASS read big-endian right after the terminator.
   */
  function ParseQuestionAt(buf: seq<byte>, offset: nat): (r: Result<Parsed, QuestionError>)
    ensures r.Success? ==> 5 <= r.value.bytesRead && offset + r.value.bytesRead <= |buf|
    ensures r.Success? ==> IsAscii(r.value.question.name)
    ensures r.Success? ==> buf[offset + r.value.bytesRead - 5] == 0
    ensures r.Success? ==>
      r.value.question.qtype == ReadU16(buf, offset + r.value.bytesRead - 4) &&
      r.value.question.qclass == ReadU16(buf, offset + r.value.bytesRead - 2)
  {
    match ReadLabels(buf, offset)
    case Failure(e) => Failure(e)
    case Success((labels, i)) =>
      if i + 4 > |buf| then Failure(FieldPastEnd)
      else
        JoinAscii(labels, '.');
        Success(Parsed(Question(Join(labels, '.'), ReadU16(buf, i), ReadU16(buf, i + 2)), i + 4 - offset))
  }

  /** The labels read so far in front of what the rest of the loop reads. */
  function Prefixed(labels: seq<string>, r: Result<(seq<string>, nat), QuestionError>): Result<(seq<string>, nat), QuestionError>
  {
    match r
    case Failure(e) => Failure(e)
    case Success((rest, j)) => Success((labels + rest, j))
  }

  lemma PrefixedSuccess(labels: seq<string>, rest: seq<string>, j: nat)
    ensures Prefixed(labels, Success((rest, j))) == Success((labels + rest, j))
  {
  }

  lemma PrefixedNone(r: Result<(seq<string>, nat), QuestionError>)
    ensures Prefixed([], r) == r
  {
    if r.Success? {
      assert [] + r.value.0 == r.value.0;
    }
  }

  lemma PrefixedPrefixed(a: seq<string>, b: seq<string>, r: Result<(seq<string>, nat), QuestionError>)
    ensures Prefixed(a, Prefixed(b, r)) == Prefixed(a + b, r)
  {
    if r.Success? {
      assert a + (b + r.value.0) == (a + b) + r.value.0;
    }
  }

  /** What parseQuestion does once the label loop has stopped at cursor i. */
  lemma FieldsAfterLabels(buf: seq<byte>, offset: nat, labels: seq<string>, i: nat)
    requires 0 < i <= |buf| && buf[i - 1] == 0
    requires ReadLabels(buf, offset) == Prefixed(labels, ReadLabels(buf, i - 1))
    ensures ParseQuestionAt(buf, offset) ==
      if i + 4 > |buf| then Failure(FieldPastEnd)
      else Success(Parsed(Question(Join(labels, '.'), ReadU16(buf, i), ReadU16(buf, i + 2)), i + 4 - offset))
  {
    assert labels + [] == labels;
  }

  /** The label loop stops with a failure when the length octet or its label lies past the end. */
  lemma LabelPastEndAt(buf: seq<byte>, offset: nat, labels: seq<string>, i: nat)
    requires ReadLabels(buf, offset) == Prefixed(labels, ReadLabels(buf, i))
    requires i >= |buf| || (buf[i] != 0 && i + 1 + buf[i] > |buf|)
    ensures ReadLabels(buf, offset) == Failure(LabelPastEnd)
  {
  }

  /** One more label read by the loop joins the labels read so far. */
  lemma LabelAt(buf: seq<byte>, offset: nat, labels: seq<string>, i: nat, part: string)
    requires ReadLabels(buf, offset) == Prefixed(labels, ReadLabels(buf, i))
    requires i < |buf| && buf[i] != 0 && i + 1 + buf[i] <= |buf|
    requires part == DecodeAscii(buf[i + 1..i + 1 + buf[i]])
    ensures ReadLabels(buf, offset) == Prefixed(labels + [part], ReadLabels(buf, i + buf[i] + 1))
  {
    ReadLabelsStep(buf, i, i + buf[i] + 1, part);
    PrefixedPrefixed(labels, [part], ReadLabels(buf, i + buf[i] + 1));
  }

  /** parseQuestion: the while (true) label loop, then two cursor advances of 2. */
  method ParseQuestion(buf: seq<byte>, offset: nat) returns (r: Result<Parsed, QuestionError>)
    ensures r == ParseQuestionAt(buf, offset)
  {
    var labels: seq<string> := [];
    var i := offset;
    PrefixedNone(ReadLabels(buf, offset));
    while true
      invariant offset <= i
      invariant ReadLabels(buf, offset) == Prefixed(labels, ReadLabels(buf, i))
      decreases |buf| - i
    {
      if i >= |buf| {
        LabelPastEndAt(buf, offset, labels, i);
        return Failure(LabelPastEnd);
      }
      var len := buf[i];
      if len == 0 {
        i := i + 1;
        break;
      }
      if i + 1 + len > |buf| {
        LabelPastEndAt(buf, offset, labels, i);
        return Failure(LabelPastEnd);
      }
      var part := DecodeAscii(buf[i + 1..i + 1 + len]);
      LabelAt(buf, offset, labels, i, part);
      labels := labels + [part];
      i := i + len + 1;
    }
    FieldsAfterLabels(buf, offset, labels, i);
    var domainName := Join(labels, '.');
    var bytesRead := i - offset;
    var curser := offset + bytesRead;
    if curser + 2 > |buf| {
      return Failure(FieldPastEnd);
    }
    var qtype := ReadU16(buf, curser);
    curser := curser + 2;
    if curser + 2 > |buf| {
      return Failure(FieldPastEnd);
    }
    var qclass := ReadU16(buf, curser);
    curser := curser + 2;
    r := Success(Parsed(Question(domainName, qtype, qclass), curser - offset));
  }

  // ---------------------------------------------------------------------
  // Round trip

  /** A host name the protocol allows: ASCII labels of 1 to 63 bytes (RFC 1035 section 3.1). */
  predicate ValidLabels(labels: seq<string>)
  {
    forall k :: 0 <= k < |labels| ==> IsAscii(labels[k]) && 1 <= |labels[k]| <= 63
  }

  predicate ValidName(name: string)
  {
    IsAscii(name) && ValidLabels(Split(name, '.'))
  }

  /** One turn of the label loop: a label of len bytes, then the rest. */
  lemma ReadLabelsStep(buf: seq<byte>, i: nat, next: nat, part: string)
    requires i < |buf| && buf[i] != 0 && next == i + 1 + buf[i] && next <= |buf|
    requires part == DecodeAscii(buf[i + 1..next])
    ensures ReadLabels(buf, i) == Prefixed([part], ReadLabels(buf, next))
  {
  }

  /** Labels encoded from cursor i, closed by the terminator, are read back and the cursor ends past it. */
  lemma {:induction false} ReadEncodedLabels(buf: seq<byte>, i: nat, labels: seq<string>)
    requires ValidLabels(labels) && At(buf, i, EncodeLabels(labels) + [0])
    ensures ReadLabels(buf, i) == Success((labels, i + |EncodeLabels(labels)| + 1))
    decreases labels, 1
  {
    if labels == [] {
      NoLabels(buf, i, labels);
    } else {
      ReadEncodedCons(buf, i, labels);
    }
  }

  /** The same for a non-empty list: the first label, then the rest by induction. */
  lemma {:induction false} ReadEncodedCons(buf: seq<byte>, i: nat, labels: seq<string>)
    requires ValidLabels(labels) && labels != [] && At(buf, i, EncodeLabels(labels) + [0])
    ensures ReadLabels(buf, i) == Success((labels, i + |EncodeLabels(labels)| + 1))
    decreases labels, 0
  {
    var l, tail := labels[0], labels[1..];
    var h := [|l|] + AsciiBytes(l);
    var j := i + |h|;
    EncodeHead(labels, h, tail);
    FirstLabel(buf, i, l, tail, h, j);
    ReadEncodedLabels(buf, j, tail);
    ComposeLabels(ReadLabels(buf, i), ReadLabels(buf, j), labels, j + |EncodeLabels(tail)| + 1);
  }

  lemma NoLabels(buf: seq<byte>, i: nat, labels: seq<string>)
    requires labels == [] && At(buf, i, EncodeLabels(labels) + [0])
    ensures ReadLabels(buf, i) == Success((labels, i + |EncodeLabels(labels)| + 1))
  {
  }

  lemma ComposeLabels(r: Result<(seq<string>, nat), QuestionError>, rest: Result<(seq<string>, nat), QuestionError>,
                      labels: seq<string>, n: nat)
    requires labels != [] && r == Prefixed([labels[0]], rest) && rest == Success((labels[1..], n))
    ensures r == Success((labels, n))
  {
    assert [labels[0]] + labels[1..] == labels;
  }

  /** The first label of an encoding read back, and the rest of the encoding right after it. */
  lemma FirstLabel(buf: seq<byte>, i: nat, l: string, tail: seq<string>, h: seq<byte>, j: nat)
    requires IsAscii(l) && 1 <= |l| <= 63 && AllAscii(tail)
    requires h == [|l|] + AsciiBytes(l) && j == i + |h|
    requires At(buf, i, (h + EncodeLabels(tail)) + [0])
    ensures At(buf, j, EncodeLabels(tail) + [0])
    ensures ReadLabels(buf, i) == Prefixed([l], ReadLabels(buf, j))
  {
    Assoc(h, EncodeLabels(tail), [0]);
    LabelStep(buf, i, l, EncodeLabels(tail) + [0]);
  }

  /** The encoding of a non-empty valid label list: the first label, then the rest. */
  lemma EncodeHead(labels: seq<string>, h: seq<byte>, tail: seq<string>)
    requires ValidLabels(labels) && labels != [] && tail == labels[1..]
    requires h == [|labels[0]|] + AsciiBytes(labels[0])
    ensures ValidLabels(tail) && EncodeLabels(labels) == h + EncodeLabels(tail)
  {
    assert |labels[0]| % 0x100 == |labels[0]|;
  }

  /** A label written as its length and its bytes is read back, and the loop goes on after it. */
  lemma LabelStep(buf: seq<byte>, i: nat, l: string, e: seq<byte>)
    requires IsAscii(l) && 1 <= |l| <= 63 && At(buf, i, [|l|] + AsciiBytes(l) + e)
    ensures At(buf, i + 1 + |l|, e)
    ensures ReadLabels(buf, i) == Prefixed([l], ReadLabels(buf, i + 1 + |l|))
  {
    AtSplit(buf, i, [|l|] + AsciiBytes(l), e);
    AtSplit(buf, i, [|l|], AsciiBytes(l));
    AtSlice(buf, i + 1, AsciiBytes(l));
    DecodeAsciiBytes(l);
    ReadLabelsStep(buf, i, i + 1 + |l|, l);
  }

  /**
   * A question with a valid name encoded at some offset of a buffer parses
   * back there and spans exactly its encoding.
   */
  lemma ParseEncodedAt(buf: seq<byte>, offset: nat, q: Question)
    requires ValidName(q.name) && At(buf, offset, EncodeQuestion(q))
    ensures ParseQuestionAt(buf, offset) == Success(Parsed(q, |EncodeQuestion(q)|))
  {
    var labels := Split(q.name, '.');
    NameParts(q);
    AtSplit(buf, offset, EncodeLabels(labels) + [0], U16(q.qtype) + U16(q.qclass));
    ParseLabelsAt(buf, offset, labels, q.name, q.qtype, q.qclass);
  }

  /** The pieces of a question encoding: its labels, the terminator, the two words. */
  lemma NameParts(q: Question)
    requires ValidName(q.name)
    ensures var labels := Split(q.name, '.');
      ValidLabels(labels) && Join(labels, '.') == q.name &&
      EncodeQuestion(q) == (EncodeLabels(labels) + [0]) + (U16(q.qtype) + U16(q.qclass)) &&
      |EncodeQuestion(q)| == |EncodeLabels(labels)| + 5
  {
    var labels := Split(q.name, '.');
    SplitAscii(q.name, '.');
    Assoc(EncodeLabels(labels) + [0], U16(q.qtype), U16(q.qclass));
    JoinSplit(q.name, '.');
  }

  /** The same, on the labels of the name and the two words after them. */
  lemma ParseLabelsAt(buf: seq<byte>, offset: nat, labels: seq<string>, name: string, qtype: u16, qclass: u16)
    requires ValidLabels(labels) && Join(labels, '.') == name
    requires At(buf, offset, EncodeLabels(labels) + [0])
    requires At(buf, offset + |EncodeLabels(labels) + [0]|, U16(qtype) + U16(qclass))
    ensures ParseQuestionAt(buf, offset) == Success(Parsed(Question(name, qtype, qclass), |EncodeLabels(labels)| + 5))
  {
    var k := offset + |EncodeLabels(labels) + [0]|;
    ReadEncodedLabels(buf, offset, labels);
    FieldsAt(buf, k, qtype, qclass);
    ParseAfterLabels(buf, offset, labels, k, Question(name, qtype, qclass));
  }

  /** Labels read up to cursor k and the two words there make the question. */
  lemma ParseAfterLabels(buf: seq<byte>, offset: nat, labels: seq<string>, k: nat, q: Question)
    requires ReadLabels(buf, offset) == Success((labels, k)) && Join(labels, '.') == q.name
    requires k + 4 <= |buf| && ReadU16(buf, k) == q.qtype && ReadU16(buf, k + 2) == q.qclass
    ensures ParseQuestionAt(buf, offset) == Success(Parsed(q, k + 4 - offset))
  {
  }

  /** QTYPE and QCLASS written at cursor i read back there. */
  lemma FieldsAt(buf: seq<byte>, i: nat, qtype: u16, qclass: u16)
    requires At(buf, i, U16(qtype) + U16(qclass))
    ensures i + 4 <= |buf| && ReadU16(buf, i) == qtype && ReadU16(buf, i + 2) == qclass
  {
    AtSplit(buf, i, U16(qtype), U16(qclass));
    AtSlice(buf, i, U16(qtype));
    AtSlice(buf, i + 2, U16(qclass));
    ReadU16OfU16(qtype, buf, i);
    ReadU16OfU16(qclass, buf, i + 2);
  }

  /** The same, with the bytes before and after the encoding written out. */
  lemma ParseEncoded(prefix: seq<byte>, q: Question, suffix: seq<byte>)
    requires ValidName(q.name)
    ensures ParseQuestionAt(prefix + EncodeQuestion(q) + suffix, |prefix|) ==
      Success(Parsed(q, |EncodeQuestion(q)|))
  {
    AtMiddle(prefix, EncodeQuestion(q), suffix);
    ParseEncodedAt(prefix + EncodeQuestion(q) + suffix, |prefix|, q);
  }

  /** The encoding keeps every character: distinct valid questions encode differently (no case folding). */
  lemma EncodeInjective(a: Question, b: Question)
    requires ValidName(a.name) && ValidName(b.name)
    requires EncodeQuestion(a) == EncodeQuestion(b)
    ensures a == b
  {
    ParseEncoded([], a, []);
    ParseEncoded([], b, []);
    assert [] + EncodeQuestion(a) + [] == EncodeQuestion(a);
    assert [] + EncodeQuestion(b) + [] == EncodeQuestion(b);
  }

  lemma CodecraftersLabels(name: string)
    requires name == "codecrafters.io"
    ensures Split(name, '.') == ["codecrafters", "io"]
  {
    assert Join(["codecrafters", "io"], '.') == name;
    SplitJoin(["codecrafters", "io"], '.');
  }

  /** The 17 octets of codecrafters.io in the test vectors. */
  const CodecraftersIo: seq<byte> := [12, 99, 111, 100, 101, 99, 114, 97, 102, 116, 101, 114, 115, 2, 105, 111, 0]

  lemma CodecraftersBytes(cc: string)
    requires cc == "codecrafters"
    ensures IsAscii(cc) && AsciiBytes(cc) == [99, 111, 100, 101, 99, 114, 97, 102, 116, 101, 114, 115]
  {
  }

  lemma CodecraftersEncoding(cc: string, io: string)
    requires cc == "codecrafters" && io == "io"
    ensures EncodeLabels([cc, io]) + [0] == CodecraftersIo
  {
    CodecraftersBytes(cc);
    assert AsciiBytes(io) == [105, 111];
    assert [cc, io][1..] == [io];
    assert EncodeLabels([io]) == [2] + AsciiBytes(io) + EncodeLabels([]);
  }

  /** The name of the codec's own tests, codecrafters.io, as 17 bytes. */
  lemma CodecraftersName(name: string)
    requires name == "codecrafters.io"
    ensures IsAscii(name) && EncodeName(name) == CodecraftersIo
  {
    CodecraftersLabels(name);
    CodecraftersEncoding("codecrafters", "io");
  }

  /** A question of type A and class IN ends in 0 1 0 1. */
  lemma ClassInTypeA(q: Question, n: seq<byte>)
    requires IsAscii(q.name) && EncodeName(q.name) == n && q.qtype == 1 && q.qclass == 1
    ensures EncodeQuestion(q) == n + [0, 1, 0, 1]
  {
    assert U16(1) == [0, 1];
  }

  /** The question of the codec's own test, codecrafters.io / A / IN, as 21 bytes. */
  lemma EncodeQuestionVector(name: string)
    requires name == "codecrafters.io"
    ensures EncodeQuestion(Question(name, 1, 1)) == CodecraftersIo + [0, 1, 0, 1]
  {
    CodecraftersName(name);
    ClassInTypeA(Question(name, 1, 1), CodecraftersIo);
  }

  // ---------------------------------------------------------------------
  // The label loop as written

  /** The label loop's cursor in JavaScript: an index, or NaN once undefined has been added to it. */
  datatype Cursor = Index(n: nat) | NotANumber

  /**
   * One turn of the while (true) loop of parseQuestion as written: None at
   * the zero octet's break, otherwise the cursor after i += len + 1. Past
   * the end or at a NaN index, buf[i] is undefined, which is not 0, and
   * undefined + 1 makes the cursor NaN.
   */
  function TurnAsWritten(buf: seq<byte>, c: Cursor): (next: Option<Cursor>)
  {
    match c
    case NotANumber => Some(NotANumber)
    case Index(i) =>
      if i >= |buf| then Some(NotANumber)
      else if buf[i] == 0 then None
      else Some(Index(i + buf[i] + 1))
  }

  /** The cursor after k turns while the loop still runs; None once it has broken out. */
  function TurnsAsWritten(buf: seq<byte>, c: Cursor, k: nat): (r: Option<Cursor>)
    decreases k
  {
    if k == 0 then Some(c)
    else
      match TurnAsWritten(buf, c)
      case None => None
      case Some(next) => TurnsAsWritten(buf, next, k - 1)
  }

  /** Once the cursor is NaN the loop never breaks. */
  lemma {:induction false} NaNNeverBreaks(buf: seq<byte>, k: nat)
    ensures TurnsAsWritten(buf, NotANumber, k) == Some(NotANumber)
  {
    if k > 0 {
      NaNNeverBreaks(buf, k - 1);
    }
  }

  /** A cursor past the end turns NaN and the loop never breaks. */
  lemma PastEndNeverBreaks(buf: seq<byte>, i: nat, k: nat)
    requires i >= |buf|
    ensures TurnsAsWritten(buf, Index(i), k).Some?
  {
    if k > 0 {
      NaNNeverBreaks(buf, k - 1);
    }
  }

  /**
   * Where the label loop fails here, the loop as written runs forever: no
   * number of turns reaches the break.
   */
  lemma {:induction false} HangsWhereReadFails(buf: seq<byte>, i: nat, k: nat)
    requires ReadLabels(buf, i).Failure?
    ensures TurnsAsWritten(buf, Index(i), k).Some?
    decreases k
  {
    if k > 0 {
      if i >= |buf| {
        NaNNeverBreaks(buf, k - 1);
      } else {
        var next := i + buf[i] + 1;
        if next > |buf| {
          PastEndNeverBreaks(buf, next, k - 1);
        } else {
          HangsWhereReadFails(buf, next, k - 1);
        }
      }
    }
  }

  /**
   * Where the label loop succeeds here, the loop as written takes one turn
   * per label and breaks at the same zero octet.
   */
  lemma {:induction false} AgreesWhereReadSucceeds(buf: seq<byte>, i: nat)
    requires ReadLabels(buf, i).Success?
    ensures var (labels, j) := ReadLabels(buf, i).value;
      TurnsAsWritten(buf, Index(i), |labels|) == Some(Index(j - 1)) && TurnAsWritten(buf, Index(j - 1)) == None
    decreases |buf| - i
  {
    if buf[i] != 0 {
      AgreesWhereReadSucceeds(buf, i + 1 + buf[i]);
    }
  }

  /** The smallest case: a label of 3 octets with only 2 present makes the loop spin. */
  lemma TruncatedLabelHangs(k: nat)
    ensures ReadLabels([3, 97, 98], 0) == Failure(LabelPastEnd)
    ensures TurnsAsWritten([3, 97, 98], Index(0), k + 2) == Some(NotANumber)
  {
    NaNNeverBreaks([3, 97, 98], k + 1);
  }
}
