/**
 * A query as app/dns/helpers/parse_request.js reads it: the header first,
 * then qdcount questions, the cursor starting at 12 and each question
 * beginning where the previous one's bytesRead ended.
 */
module Request {
  import opened Wire
  import opened Text
  import opened Header
  import opened Question

  /** The header tuple and the questions; the scalar fields the source also returns are its elements. */
  datatype Request = Request(header: Fields, questions: seq<Question>)

  datatype RequestError =
    | HeaderFailed(header: HeaderError)
    | QuestionFailed(question: QuestionError)

  predicate AsciiNames(qs: seq<Question>)
  {
    forall k :: 0 <= k < |qs| ==> IsAscii(qs[k].name)
  }

  predicate ValidNames(qs: seq<Question>)
    ensures ValidNames(qs) ==> AsciiNames(qs)
  {
    forall k :: 0 <= k < |qs| ==> ValidName(qs[k].name)
  }

  /** The first n questions, read one after another from offset 12, and the cursor after the last. */
  function ParseQuestions(buf: seq<byte>, n: nat): (r: Result<(seq<Question>, nat), QuestionError>)
    ensures r.Success? ==> |r.value.0| == n
    decreases n
  {
    if n == 0 then Success(([], 12))
    else
      match ParseQuestions(buf, n - 1)
      case Failure(e) => Failure(e)
      case Success((qs, offset)) =>
        match ParseQuestionAt(buf, offset)
        case Failure(e) => Failure(e)
        case Success(p) => Success((qs + [p.question], offset + p.bytesRead))
  }

  /** The questions read have ASCII names, and the cursor never leaves the buffer once a question is read. */
  lemma {:induction false} ParsedQuestions(buf: seq<byte>, n: nat)
    requires ParseQuestions(buf, n).Success?
    ensures AsciiNames(ParseQuestions(buf, n).value.0)
    ensures 12 <= ParseQuestions(buf, n).value.1 && (n > 0 ==> ParseQuestions(buf, n).value.1 <= |buf|)
  {
    if n > 0 {
      ParsedQuestions(buf, n - 1);
    }
  }

  /** One more turn of the loop: the next question is read at the cursor. */
  lemma QuestionsStep(buf: seq<byte>, n: nat, qs: seq<Question>, offset: nat, p: Parsed)
    requires ParseQuestions(buf, n) == Success((qs, offset))
    requires ParseQuestionAt(buf, offset) == Success(p)
    ensures ParseQuestions(buf, n + 1) == Success((qs + [p.question], offset + p.bytesRead))
  {
  }

  /** Once a question fails to parse, the request fails with its error. */
  lemma {:induction false} FailureStays(buf: seq<byte>, i: nat, n: nat)
    requires i <= n && ParseQuestions(buf, i).Failure?
    ensures ParseQuestions(buf, n) == Failure(ParseQuestions(buf, i).error)
    decreases n
  {
    if n > i {
      FailureStays(buf, i, n - 1);
    }
  }

  /**
   * A question loop that fails on a label past the end fails at one
   * question: the questions before it parse, and its label loop fails.
   */
  lemma {:induction false} LabelFailureAt(buf: seq<byte>, n: nat)
    requires ParseQuestions(buf, n) == Failure(LabelPastEnd)
    ensures exists i :: 0 <= i < n && ParseQuestions(buf, i).Success? && ReadLabels(buf, ParseQuestions(buf, i).value.1).Failure?
    decreases n
  {
    var before := ParseQuestions(buf, n - 1);
    if before.Failure? {
      LabelFailureAt(buf, n - 1);
    } else {
      assert ParseQuestionAt(buf, before.value.1) == Failure(LabelPastEnd);
    }
  }

  /** parseRequest: a short buffer fails in parseHeader before any question is read. */
  function ParseRequestAt(buf: seq<byte>): (r: Result<Request, RequestError>)
    ensures |buf| < 12 ==> r == Failure(HeaderFailed(BufferTooShort))
    ensures r.Success? ==>
      ParseHeader(buf) == Success(r.value.header) &&
      |r.value.questions| == r.value.header.qdcount && AsciiNames(r.value.questions)
  {
    match ParseHeader(buf)
    case Failure(e) => Failure(HeaderFailed(e))
    case Success(h) =>
      match ParseQuestions(buf, h.qdcount)
      case Failure(e) => Failure(QuestionFailed(e))
      case Success((qs, _)) =>
        ParsedQuestions(buf, h.qdcount);
        Success(Request(h, qs))
  }

  // ---------------------------------------------------------------------
  // The loop

  /** parseRequest: parseHeader, then the question loop from offset 12. */
  method ParseRequest(buf: seq<byte>) returns (r: Result<Request, RequestError>)
    ensures r == ParseRequestAt(buf)
  {
    var header := ParseHeader(buf);
    if header.Failure? {
      return Failure(HeaderFailed(header.error));
    }
    var h := header.value;
    var questions := ReadQuestions(buf, h.qdcount);
    if questions.Failure? {
      return Failure(QuestionFailed(questions.error));
    }
    r := Success(Request(h, questions.value.0));
  }

  /** The for loop of parseRequest: push each question and advance the offset by its bytesRead. */
  method ReadQuestions(buf: seq<byte>, qdcount: nat) returns (r: Result<(seq<Question>, nat), QuestionError>)
    ensures r == ParseQuestions(buf, qdcount)
  {
    var offset: nat := 12;
    var questions: seq<Question> := [];
    for i := 0 to qdcount
      invariant ParseQuestions(buf, i) == Success((questions, offset))
    {
      var p := ParseQuestion(buf, offset);
      if p.Failure? {
        FailureStays(buf, i + 1, qdcount);
        return Failure(p.error);
      }
      questions := questions + [p.value.question];
      offset := offset + p.value.bytesRead;
    }
    r := Success((questions, offset));
  }

  // ---------------------------------------------------------------------
  // Round trip

  /** The questions as buildQuestion writes them, one buffer each. */
  function QuestionBuffers(qs: seq<Question>): (r: seq<seq<byte>>)
    requires AsciiNames(qs)
    ensures |r| == |qs| && forall k :: 0 <= k < |qs| ==> r[k] == EncodeQuestion(qs[k])
  {
    seq(|qs|, k requires 0 <= k < |qs| => EncodeQuestion(qs[k]))
  }

  function EncodeQuestions(qs: seq<Question>): seq<byte>
    requires AsciiNames(qs)
  {
    Concat(QuestionBuffers(qs))
  }

  lemma EncodeQuestionsSplit(qs: seq<Question>, k: nat)
    requires AsciiNames(qs) && k <= |qs|
    ensures AsciiNames(qs[..k]) && AsciiNames(qs[k..])
    ensures EncodeQuestions(qs) == EncodeQuestions(qs[..k]) + EncodeQuestions(qs[k..])
  {
    assert AsciiNames(qs[..k]) && AsciiNames(qs[k..]);
    assert QuestionBuffers(qs) == QuestionBuffers(qs[..k]) + QuestionBuffers(qs[k..]);
    ConcatAppend(QuestionBuffers(qs[..k]), QuestionBuffers(qs[k..]));
  }

  lemma EncodeQuestionsSnoc(qs: seq<Question>, k: nat)
    requires AsciiNames(qs) && k < |qs|
    ensures AsciiNames(qs[..k]) && AsciiNames(qs[..k + 1])
    ensures EncodeQuestions(qs[..k + 1]) == EncodeQuestions(qs[..k]) + EncodeQuestion(qs[k])
  {
    assert AsciiNames(qs[..k]) && AsciiNames(qs[..k + 1]);
    assert QuestionBuffers(qs[..k + 1]) == QuestionBuffers(qs[..k]) + [EncodeQuestion(qs[k])];
    ConcatPush(QuestionBuffers(qs[..k]), EncodeQuestion(qs[k]));
  }

  /** Where the encoded questions sit from offset 12, question k starts after the first k. */
  lemma QuestionSlot(buf: seq<byte>, qs: seq<Question>, k: nat)
    requires AsciiNames(qs) && k < |qs|
    requires At(buf, 12, EncodeQuestions(qs))
    ensures AsciiNames(qs[..k]) && AsciiNames(qs[..k + 1])
    ensures var o, e := 12 + |EncodeQuestions(qs[..k])|, EncodeQuestion(qs[k]);
      |EncodeQuestions(qs[..k + 1])| == |EncodeQuestions(qs[..k])| + |e| && At(buf, o, e)
  {
    EncodeQuestionsSnoc(qs, k);
    EncodeQuestionsSplit(qs, k + 1);
    var a, e := EncodeQuestions(qs[..k]), EncodeQuestion(qs[k]);
    AtSplit(buf, 12, a + e, EncodeQuestions(qs[k + 1..]));
    AtSplit(buf, 12, a, e);
  }

  /** Where the first j encoded questions end, counting from offset 12. */
  function PrefixEnd(qs: seq<Question>, j: nat): nat
    requires AsciiNames(qs) && j <= |qs|
  {
    assert AsciiNames(qs[..j]);
    12 + |EncodeQuestions(qs[..j])|
  }

  lemma SlotFacts(buf: seq<byte>, qs: seq<Question>, k: nat)
    requires ValidNames(qs) && k < |qs|
    requires At(buf, 12, EncodeQuestions(qs))
    ensures ValidName(qs[k].name) && At(buf, PrefixEnd(qs, k), EncodeQuestion(qs[k]))
    ensures PrefixEnd(qs, k + 1) == PrefixEnd(qs, k) + |EncodeQuestion(qs[k])|
  {
    QuestionSlot(buf, qs, k);
  }

  /** Question k of an encoding sits between the ends of the first k and the first k + 1. */
  lemma QuestionAtSlot(buf: seq<byte>, qs: seq<Question>, k: nat)
    requires ValidNames(qs) && k < |qs|
    requires At(buf, 12, EncodeQuestions(qs))
    ensures PrefixEnd(qs, k) < PrefixEnd(qs, k + 1)
    ensures ParseQuestionAt(buf, PrefixEnd(qs, k)) ==
      Success(Parsed(qs[k], PrefixEnd(qs, k + 1) - PrefixEnd(qs, k)))
  {
    SlotFacts(buf, qs, k);
    ParseEncodedAt(buf, PrefixEnd(qs, k), qs[k]);
  }

  /**
   * Questions that parse one after another at the cursors offs, the first
   * at 12, are what the loop reads: after k turns, the first k.
   */
  lemma {:induction false} ChainParses(buf: seq<byte>, qs: seq<Question>, offs: seq<nat>, k: nat)
    requires |offs| == |qs| + 1 && offs[0] == 12 && k <= |qs|
    requires forall j :: 0 <= j < |qs| ==>
      offs[j] < offs[j + 1] && ParseQuestionAt(buf, offs[j]) == Success(Parsed(qs[j], offs[j + 1] - offs[j]))
    ensures ParseQuestions(buf, k) == Success((qs[..k], offs[k]))
  {
    if k > 0 {
      ChainParses(buf, qs, offs, k - 1);
      TakeSnoc(qs, k - 1);
      QuestionsStep(buf, k - 1, qs[..k - 1], offs[k - 1], Parsed(qs[k - 1], offs[k] - offs[k - 1]));
    }
  }

  /** Encoded questions from offset 12 read back one by one. */
  lemma EncodedQuestionsParse(buf: seq<byte>, qs: seq<Question>)
    requires ValidNames(qs) && At(buf, 12, EncodeQuestions(qs))
    ensures ParseQuestions(buf, |qs|) == Success((qs, 12 + |EncodeQuestions(qs)|))
  {
    var offs := seq(|qs| + 1, j requires 0 <= j <= |qs| => PrefixEnd(qs, j));
    forall j | 0 <= j < |qs|
      ensures offs[j] < offs[j + 1] &&
        ParseQuestionAt(buf, offs[j]) == Success(Parsed(qs[j], offs[j + 1] - offs[j]))
    {
      QuestionAtSlot(buf, qs, j);
    }
    assert offs[0] == 12 by {
      assert EncodeQuestions(qs[..0]) == [] by {
        assert QuestionBuffers(qs[..0]) == [];
      }
    }
    ChainParses(buf, qs, offs, |qs|);
    assert qs[..|qs|] == qs;
  }

  /**
   * A header whose qdcount is the number of questions, followed by those
   * questions, parses back to the header and the questions; trailing
   * octets are not read.
   */
  lemma RequestRoundTrip(h: Fields, qs: seq<Question>, suffix: seq<byte>)
    requires InRange(h) && h.qdcount == |qs| && ValidNames(qs)
    ensures ParseRequestAt(BuildHeader(h) + EncodeQuestions(qs) + suffix) == Success(Request(h, qs))
  {
    var e := EncodeQuestions(qs);
    var buf := BuildHeader(h) + e + suffix;
    assert buf == BuildHeader(h) + (e + suffix);
    ParseBuild(h, e + suffix);
    assert |BuildHeader(h)| == 12;
    AtMiddle(BuildHeader(h), e, suffix);
    EncodedQuestionsParse(buf, qs);
  }
}
