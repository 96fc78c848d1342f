/**
 * The older responder of app/helpers/build_response.js. It echoes the
 * questions after a header whose ANCOUNT is always QDCOUNT, and, when the
 * RCODE is 0, adds one canned A answer (TTL 60, 172.66.144.113) for each
 * question of type A. An exception while building gives a bare fallback
 * header with RCODE 2 and every count 0.
 */
module LegacyResponse {
  import opened Wire
  import opened Text
  import opened Header
  import opened Question
  import opened Answer
  import opened Request

  /** The header fields the legacy responder writes: ANCOUNT is qdcount, whatever answers follow. */
  function LegacyHeader(txid: u16, opcode: nat, rd: nat, rcode: nat, qdcount: u16): Fields
  {
    Fields(txid, 1, opcode, 0, 0, rd, 0, 0, rcode, qdcount, qdcount, 0, 0)
  }

  /** The header written by the catch block: RCODE 2 and no entries of any kind. */
  function FallbackHeader(txid: u16, opcode: nat, rd: nat): Fields
  {
    Fields(txid, 1, opcode, 0, 0, rd, 0, 0, 2, 0, 0, 0, 0)
  }

  /** The address every A question is answered with. */
  const CannedAddress: seq<byte> := [172, 66, 144, 113]

  /** The answer fields for question q: its name, type and class, TTL 60 and the 4-octet address. */
  function CannedRecord(q: Question): Record
  {
    Record(q.name, q.qtype, q.qclass, 60, 4, CannedAddress)
  }

  /** The answers for the first n questions: one canned answer per question of type A, in question order. */
  function CannedAnswers(qs: seq<Question>, n: nat): (r: seq<seq<byte>>)
    requires AsciiNames(qs) && n <= |qs|
  {
    if n == 0 then []
    else if qs[n - 1].qtype == 1 then CannedAnswers(qs, n - 1) + [EncodeAnswer(CannedRecord(qs[n - 1]))]
    else CannedAnswers(qs, n - 1)
  }

  /** The number of questions of type A among the first n. */
  function ACount(qs: seq<Question>, n: nat): (c: nat)
    requires n <= |qs|
    ensures c <= n
  {
    if n == 0 then 0 else ACount(qs, n - 1) + (if qs[n - 1].qtype == 1 then 1 else 0)
  }

  /** What the legacy buildResponse returns when every encoder works. */
  function LegacySpec(txid: u16, opcode: nat, rd: nat, rcode: nat, qdcount: u16, qs: seq<Question>): (r: seq<byte>)
    requires AsciiNames(qs) && opcode < 16 && rd < 2 && rcode < 16
  {
    BuildHeader(LegacyHeader(txid, opcode, rd, rcode, qdcount)) + EncodeQuestions(qs) +
    (if rcode == 0 then Concat(CannedAnswers(qs, |qs|)) else [])
  }

  // ---------------------------------------------------------------------
  // The loops

  /**
   * buildResponse: the header, then each question concatenated onto the
   * response, then, for RCODE 0, each A question's answer concatenated on.
   */
  method LegacyBuildResponse(txid: u16, opcode: nat, rd: nat, rcode: nat, qdcount: u16, questions: seq<Question>)
    returns (response: seq<byte>)
    requires AsciiNames(questions) && opcode < 16 && rd < 2 && rcode < 16
    ensures response == LegacySpec(txid, opcode, rd, rcode, qdcount, questions)
  {
    var header := BuildHeader(LegacyHeader(txid, opcode, rd, rcode, qdcount));
    response := EchoQuestions(header, questions);
    if rcode == 0 {
      response := AddCannedAnswers(response, questions);
    }
  }

  /** The question loop: each question's encoding concatenated onto the response. */
  method EchoQuestions(header: seq<byte>, questions: seq<Question>) returns (response: seq<byte>)
    requires AsciiNames(questions)
    ensures response == header + EncodeQuestions(questions)
  {
    response := header;
    EchoedNone(header, questions);
    for i := 0 to |questions|
      invariant Echoed(header, questions, i, response)
    {
      var questionBuf := BuildQuestion(questions[i]);
      EchoStep(header, questions, i, response, questionBuf);
      response := Concat([response, questionBuf]);
    }
    EchoedAll(header, questions, response);
  }

  /** The answer loop: the canned answer of each A question concatenated onto the response. */
  method AddCannedAnswers(echoed: seq<byte>, questions: seq<Question>) returns (response: seq<byte>)
    requires AsciiNames(questions)
    ensures response == echoed + Concat(CannedAnswers(questions, |questions|))
  {
    response := echoed;
    CannedNone(echoed, questions);
    for i := 0 to |questions|
      invariant Canned(echoed, questions, i, response)
    {
      if questions[i].qtype == 1 {
        var answerBuf := BuildAnswer(CannedRecord(questions[i]));
        CannedStep(echoed, questions, i, response, answerBuf);
        response := Concat([response, answerBuf]);
      } else {
        CannedSkip(echoed, questions, i, response);
      }
    }
    CannedAll(echoed, questions, response);
  }

  /** After i turns of the question loop: the header and the first i question encodings. */
  predicate Echoed(header: seq<byte>, qs: seq<Question>, i: nat, response: seq<byte>)
    requires AsciiNames(qs)
  {
    i <= |qs| && response == header + Concat(QuestionBuffers(qs)[..i])
  }

  lemma EchoedNone(header: seq<byte>, qs: seq<Question>)
    requires AsciiNames(qs)
    ensures Echoed(header, qs, 0, header)
  {
    assert QuestionBuffers(qs)[..0] == [];
  }

  lemma EchoStep(header: seq<byte>, qs: seq<Question>, i: nat, response: seq<byte>, questionBuf: seq<byte>)
    requires AsciiNames(qs) && i < |qs| && Echoed(header, qs, i, response)
    requires questionBuf == EncodeQuestion(qs[i])
    ensures Echoed(header, qs, i + 1, Concat([response, questionBuf]))
  {
    var bufs := QuestionBuffers(qs);
    TakeSnoc(bufs, i);
    ConcatPush(bufs[..i], bufs[i]);
    Concat2(response, questionBuf);
  }

  lemma EchoedAll(header: seq<byte>, qs: seq<Question>, response: seq<byte>)
    requires AsciiNames(qs) && Echoed(header, qs, |qs|, response)
    ensures response == header + EncodeQuestions(qs)
  {
    TakeAll(QuestionBuffers(qs));
  }

  /** After i turns of the answer loop: the echoed message and the answers of the first i questions. */
  predicate Canned(echoed: seq<byte>, qs: seq<Question>, i: nat, response: seq<byte>)
    requires AsciiNames(qs)
  {
    i <= |qs| && response == echoed + Concat(CannedAnswers(qs, i))
  }

  lemma CannedNone(echoed: seq<byte>, qs: seq<Question>)
    requires AsciiNames(qs)
    ensures Canned(echoed, qs, 0, echoed)
  {
  }

  lemma CannedStep(echoed: seq<byte>, qs: seq<Question>, i: nat, response: seq<byte>, answerBuf: seq<byte>)
    requires AsciiNames(qs) && i < |qs| && Canned(echoed, qs, i, response) && qs[i].qtype == 1
    requires answerBuf == EncodeAnswer(CannedRecord(qs[i]))
    ensures Canned(echoed, qs, i + 1, Concat([response, answerBuf]))
  {
    ConcatGrow(echoed, CannedAnswers(qs, i), answerBuf, response);
  }

  lemma CannedSkip(echoed: seq<byte>, qs: seq<Question>, i: nat, response: seq<byte>)
    requires AsciiNames(qs) && i < |qs| && Canned(echoed, qs, i, response) && qs[i].qtype != 1
    ensures Canned(echoed, qs, i + 1, response)
  {
  }

  lemma CannedAll(echoed: seq<byte>, qs: seq<Question>, response: seq<byte>)
    requires AsciiNames(qs) && Canned(echoed, qs, |qs|, response)
    ensures response == echoed + Concat(CannedAnswers(qs, |qs|))
  {
  }

  // ---------------------------------------------------------------------
  // Properties

  /**
   * The message parses back as its header, ANCOUNT equal to QDCOUNT, and
   * the questions in order; the answers follow the questions.
   */
  lemma LegacyParses(txid: u16, opcode: nat, rd: nat, rcode: nat, qs: seq<Question>)
    requires ValidNames(qs) && opcode < 16 && rd < 2 && rcode < 16 && |qs| < 0x1_0000
    ensures ParseRequestAt(LegacySpec(txid, opcode, rd, rcode, |qs|, qs)) ==
      Success(Request(LegacyHeader(txid, opcode, rd, rcode, |qs|), qs))
  {
    var h := LegacyHeader(txid, opcode, rd, rcode, |qs|);
    RequestRoundTrip(h, qs, if rcode == 0 then Concat(CannedAnswers(qs, |qs|)) else []);
  }

  /** One canned answer per A question and none for any other type. */
  lemma {:induction false} CannedCount(qs: seq<Question>, n: nat)
    requires AsciiNames(qs) && n <= |qs|
    ensures |CannedAnswers(qs, n)| == ACount(qs, n)
  {
    if n > 0 {
      CannedCount(qs, n - 1);
    }
  }

  /** With a question of another type, the message carries fewer answers than its ANCOUNT announces. */
  lemma {:induction false} AncountOvercounts(qs: seq<Question>, n: nat, k: nat)
    requires AsciiNames(qs) && k < n <= |qs| && qs[k].qtype != 1
    ensures ACount(qs, n) < n
  {
    if k < n - 1 {
      AncountOvercounts(qs, n - 1, k);
    }
  }

  /** Answer k of the answers is the canned answer of the k-th A question. */
  lemma {:induction false} CannedInOrder(qs: seq<Question>, n: nat, j: nat)
    requires AsciiNames(qs) && j < n <= |qs| && qs[j].qtype == 1
    ensures ACount(qs, j) < |CannedAnswers(qs, n)|
    ensures CannedAnswers(qs, n)[ACount(qs, j)] == EncodeAnswer(CannedRecord(qs[j]))
  {
    CannedCount(qs, n);
    if j < n - 1 {
      CannedInOrder(qs, n - 1, j);
    } else {
      CannedCount(qs, j);
    }
  }

  /** Each canned answer: TYPE A, the question's class, TTL 60, RDLENGTH 4 and the address as RDATA. */
  lemma CannedLayout(q: Question)
    requires IsAscii(q.name) && q.qtype == 1
    ensures var a, n := EncodeAnswer(CannedRecord(q)), |EncodeName(q.name)|;
      |a| == n + 14 && a[..n] == EncodeName(q.name) &&
      ReadU16(a, n) == 1 && ReadU16(a, n + 2) == q.qclass &&
      ReadU32(a, n + 4) == 60 && ReadU16(a, n + 8) == 4 && a[n + 10..] == [172, 66, 144, 113]
  {
    AnswerLayout(CannedRecord(q));
  }

  /** A non-zero RCODE leaves the answers out: the message is the header and the echoed questions. */
  lemma ErrorCodeNoAnswers(txid: u16, opcode: nat, rd: nat, rcode: nat, qdcount: u16, qs: seq<Question>)
    requires AsciiNames(qs) && opcode < 16 && rd < 2 && 0 < rcode < 16
    ensures |LegacySpec(txid, opcode, rd, rcode, qdcount, qs)| == 12 + |EncodeQuestions(qs)|
  {
  }

  // ---------------------------------------------------------------------
  // As written

  /**
   * The responder as the repository ships it. app/helpers/build_question.js
   * assigns its function to module.export, not module.exports, so the
   * require at app/helpers/build_response.js:22 yields an empty object and
   * the first buildQuestion call throws a TypeError: any message with a
   * question falls through to the fallback header. Without questions no
   * encoder is called at all.
   */
  function LegacyAsWritten(txid: u16, opcode: nat, rd: nat, rcode: nat, qdcount: u16, qs: seq<Question>): (r: seq<byte>)
    requires opcode < 16 && rd < 2 && rcode < 16
  {
    if qs != [] then BuildHeader(FallbackHeader(txid, opcode, rd))
    else BuildHeader(LegacyHeader(txid, opcode, rd, rcode, qdcount))
  }

  /** As written, a message with a question gets a bare 12-octet header with RCODE 2 and no counts. */
  lemma LegacyAsWrittenFallback(txid: u16, opcode: nat, rd: nat, rcode: nat, qdcount: u16, qs: seq<Question>)
    requires opcode < 16 && rd < 2 && rcode < 16 && qs != []
    ensures |LegacyAsWritten(txid, opcode, rd, rcode, qdcount, qs)| == 12
    ensures ParseHeader(LegacyAsWritten(txid, opcode, rd, rcode, qdcount, qs)) == Success(FallbackHeader(txid, opcode, rd))
  {
    ParseBuild(FallbackHeader(txid, opcode, rd), []);
    assert BuildHeader(FallbackHeader(txid, opcode, rd)) + [] == BuildHeader(FallbackHeader(txid, opcode, rd));
  }

  /** As written, every message with a question differs from what the responder evidently means to send. */
  lemma LegacyAsWrittenDiffers(txid: u16, opcode: nat, rd: nat, rcode: nat, qdcount: u16, qs: seq<Question>)
    requires AsciiNames(qs) && opcode < 16 && rd < 2 && rcode < 16 && qs != []
    ensures LegacyAsWritten(txid, opcode, rd, rcode, qdcount, qs) != LegacySpec(txid, opcode, rd, rcode, qdcount, qs)
  {
    EncodeQuestionsSplit(qs, 1);
    assert QuestionBuffers(qs[..1]) == [EncodeQuestion(qs[0])];
    assert Concat([EncodeQuestion(qs[0])]) == EncodeQuestion(qs[0]) + Concat([]);
  }
}
