/**
 * The responder of app/dns/helpers/build_response.js over the records
 * table of app/db/index.js: every question is echoed, the rows stored
 * under its name and type are turned into answers by the type handlers,
 * and the first DNS error or built-in error met aborts the whole message.
 */
module Response {
  import opened Wire
  import opened Text
  import opened Header
  import opened Question
  import opened Answer
  import opened Errors
  import opened TypeMappings
  import opened Request

  // ---------------------------------------------------------------------
  // The records table

  /** A row of the records table: the columns the responder reads. */
  datatype Row = Row(domain: string, rtype: int, value: string, ttl: int)

  /** getRecords(domain, type): the rows whose domain and type match exactly, in table order. */
  function GetRecords(table: seq<Row>, domain: string, rtype: int): (rows: seq<Row>)
    ensures |rows| <= |table|
  {
    if table == [] then []
    else
      var rest := GetRecords(table[1..], domain, rtype);
      if table[0].domain == domain && table[0].rtype == rtype then [table[0]] + rest else rest
  }

  /** Every row found is a row of the table with the asked domain and type. */
  lemma {:induction false} GetRecordsSound(table: seq<Row>, domain: string, rtype: int, k: nat)
    requires k < |GetRecords(table, domain, rtype)|
    ensures GetRecords(table, domain, rtype)[k] in table
    ensures GetRecords(table, domain, rtype)[k].domain == domain && GetRecords(table, domain, rtype)[k].rtype == rtype
  {
    var rest := GetRecords(table[1..], domain, rtype);
    if table[0].domain == domain && table[0].rtype == rtype {
      if k > 0 {
        GetRecordsSound(table[1..], domain, rtype, k - 1);
      }
    } else {
      GetRecordsSound(table[1..], domain, rtype, k);
    }
  }

  /** Every row of the table with the asked domain and type is found. */
  lemma {:induction false} GetRecordsComplete(table: seq<Row>, domain: string, rtype: int, row: Row)
    requires row in table && row.domain == domain && row.rtype == rtype
    ensures row in GetRecords(table, domain, rtype)
  {
    if row != table[0] {
      assert row in table[1..];
      GetRecordsComplete(table[1..], domain, rtype, row);
    }
  }

  /** domainExists(domain): some row, of any type, has that domain. */
  function DomainExists(table: seq<Row>, domain: string): (b: bool)
  {
    if table == [] then false
    else table[0].domain == domain || DomainExists(table[1..], domain)
  }

  /** DomainExists holds exactly when some row of the table carries the domain. */
  lemma {:induction false} DomainExistsIff(table: seq<Row>, domain: string)
    ensures DomainExists(table, domain) <==> exists row :: row in table && row.domain == domain
  {
    if table != [] {
      DomainExistsIff(table[1..], domain);
      assert forall row :: row in table <==> row == table[0] || row in table[1..];
    }
  }

  /** A name with rows of some type exists. */
  lemma RecordsExist(table: seq<Row>, domain: string, rtype: int)
    requires GetRecords(table, domain, rtype) != []
    ensures DomainExists(table, domain)
  {
    GetRecordsSound(table, domain, rtype, 0);
    DomainExistsIff(table, domain);
  }

  /** The rows the model can format: every row whose type has a handler holds text its format reads. */
  predicate WellFormed(table: seq<Row>)
  {
    forall row :: row in table && Handler(row.rtype).Some? ==> Readable(Handler(row.rtype).value, row.value)
  }

  predicate RowsReadable(t: RecordType, rows: seq<Row>)
  {
    forall k :: 0 <= k < |rows| ==> Readable(t, rows[k].value)
  }

  /** The rows found for a type with a handler are readable by that handler. */
  lemma FoundReadable(table: seq<Row>, domain: string, rtype: int, t: RecordType)
    requires WellFormed(table) && Handler(rtype) == Some(t)
    ensures RowsReadable(t, GetRecords(table, domain, rtype))
  {
    var rows := GetRecords(table, domain, rtype);
    forall k | 0 <= k < |rows|
      ensures Readable(t, rows[k].value)
    {
      GetRecordsSound(table, domain, rtype, k);
    }
  }

  // ---------------------------------------------------------------------
  // Answers

  /**
   * One row of question q as an answer: handler.format(record.value), then
   * buildAnswer with the question's name, type and class, the row's TTL
   * and the length of RDATA. writeUInt32BE and writeUInt16BE throw a
   * RangeError on a TTL outside 32 bits or RDATA of 64 KiB or more.
   */
  function RowAnswer(q: Question, t: RecordType, row: Row): (r: Result<seq<byte>, Exception>)
    requires IsAscii(q.name) && Readable(t, row.value)
  {
    match Format(t, row.value)
    case Failure(e) => Failure(e)
    case Success(rdata) =>
      if row.ttl < 0 || row.ttl >= 0x1_0000_0000 || |rdata| >= 0x1_0000 then Failure(RangeError)
      else Success(EncodeAnswer(Record(q.name, q.qtype, q.qclass, row.ttl, |rdata|, rdata)))
  }

  /** What each row found for question q gives, in row order. */
  function RowResults(q: Question, t: RecordType, rows: seq<Row>): (rs: seq<Result<seq<byte>, Exception>>)
    requires IsAscii(q.name) && RowsReadable(t, rows)
  {
    seq(|rows|, k requires 0 <= k < |rows| => RowAnswer(q, t, rows[k]))
  }

  /** The answers of the rows in row order; the first failing row aborts. */
  function RowAnswers(q: Question, t: RecordType, rows: seq<Row>): (r: Result<seq<seq<byte>>, Exception>)
    requires IsAscii(q.name) && RowsReadable(t, rows)
  {
    Collect(RowResults(q, t, rows), |rows|)
  }

  /**
   * What question q adds to the message, or the exception that aborts it:
   * no rows and an unknown name is NXDOMAIN, no rows under a known name
   * adds nothing, rows of a type without a handler are NOTIMP.
   */
  function QuestionAnswers(table: seq<Row>, q: Question): (r: Result<seq<seq<byte>>, Exception>)
    requires WellFormed(table) && IsAscii(q.name)
  {
    var rows := GetRecords(table, q.name, q.qtype);
    if rows == [] then
      if !DomainExists(table, q.name) then Failure(Raised(NXDOMAIN)) else Success([])
    else
      match Handler(q.qtype)
      case None => Failure(Raised(NOTIMP))
      case Some(t) =>
        FoundReadable(table, q.name, q.qtype, t);
        RowAnswers(q, t, rows)
  }

  /** What each question gives, in question order. */
  function QuestionResults(table: seq<Row>, qs: seq<Question>): (rs: seq<Result<seq<seq<byte>>, Exception>>)
    requires WellFormed(table) && AsciiNames(qs)
  {
    seq(|qs|, k requires 0 <= k < |qs| => QuestionAnswers(table, qs[k]))
  }

  /** The answers of all the questions in order; the first failing question decides the outcome. */
  function Answers(table: seq<Row>, qs: seq<Question>): (r: Result<seq<seq<byte>>, Exception>)
    requires WellFormed(table) && AsciiNames(qs)
  {
    Gather(QuestionResults(table, qs), |qs|)
  }

  // ---------------------------------------------------------------------
  // The message

  /** What buildResponse returns. */
  datatype Response = Response(response: seq<byte>, ancount: nat, questionBuffers: seq<seq<byte>>, answerBuffers: seq<seq<byte>>)

  /** The success header: QR set, OPCODE and RD echoed, RCODE 0, no authority or additional records. */
  function SuccessHeader(txid: u16, opcode: nat, rd: nat, qdcount: u16, ancount: nat): Fields
  {
    Fields(txid, 1, opcode, 0, 0, rd, 0, 0, 0, qdcount, ancount, 0, 0)
  }

  /**
   * buildResponse: the header, the questions and then the answers; ancount
   * counts the answers and must fit the 16-bit ANCOUNT word.
   */
  function BuildResponseSpec(table: seq<Row>, txid: u16, opcode: nat, rd: nat, qdcount: u16, qs: seq<Question>)
    : (r: Result<Response, Exception>)
    requires WellFormed(table) && AsciiNames(qs) && opcode < 16 && rd < 2
  {
    match Answers(table, qs)
    case Failure(e) => Failure(e)
    case Success(ans) =>
      if |ans| >= 0x1_0000 then Failure(RangeError)
      else
        Success(Response(BuildHeader(SuccessHeader(txid, opcode, rd, qdcount, |ans|)) + EncodeQuestions(qs) + Concat(ans),
                         |ans|, QuestionBuffers(qs), ans))
  }

  /** The error header: the given RCODE, the questions echoed, no records. */
  function ErrorHeader(txid: u16, opcode: nat, rd: nat, rcode: nat, qdcount: u16): Fields
  {
    Fields(txid, 1, opcode, 0, 0, rd, 0, 0, rcode, qdcount, 0, 0, 0)
  }

  /** buildErrorResponse: the error header, then the questions. */
  function BuildErrorResponseSpec(txid: u16, opcode: nat, rd: nat, rcode: nat, qdcount: u16, qs: seq<Question>)
    : (r: seq<byte>)
    requires AsciiNames(qs) && opcode < 16 && rd < 2 && rcode < 16
  {
    BuildHeader(ErrorHeader(txid, opcode, rd, rcode, qdcount)) + EncodeQuestions(qs)
  }

  // ---------------------------------------------------------------------
  // The loops

  /** The body of the inner loop for one record: format it, then build its answer. */
  method AnswerRow(q: Question, t: RecordType, record: Row) returns (r: Result<seq<byte>, Exception>)
    requires IsAscii(q.name) && Readable(t, record.value)
    ensures r == RowAnswer(q, t, record)
  {
    var rdata := Apply(t, record.value);
    if rdata.Failure? {
      return Failure(rdata.error);
    }
    if record.ttl < 0 || record.ttl >= 0x1_0000_0000 || |rdata.value| >= 0x1_0000 {
      return Failure(RangeError);
    }
    var answerBuf := BuildAnswer(Record(q.name, q.qtype, q.qclass, record.ttl, |rdata.value|, rdata.value));
    r := Success(answerBuf);
  }

  /** The inner loop: each row formatted, built into an answer, pushed, and counted. */
  method PushAnswers(q: Question, t: RecordType, records: seq<Row>, answerBuffers: seq<seq<byte>>, ancount: nat)
    returns (r: Result<(seq<seq<byte>>, nat), Exception>)
    requires IsAscii(q.name) && RowsReadable(t, records) && ancount == |answerBuffers|
    ensures r == Pushing(RowAnswers(q, t, records), answerBuffers, ancount)
  {
    var buffers, count := answerBuffers, ancount;
    PushedNone(q, t, records, answerBuffers, ancount);
    for j := 0 to |records|
      invariant Pushed(q, t, records, j, answerBuffers, ancount, buffers, count)
    {
      var answer := AnswerRow(q, t, records[j]);
      if answer.Failure? {
        RowFails(q, t, records, j, answer.error, answerBuffers, ancount);
        return Failure(answer.error);
      }
      RowStep(q, t, records, j, answerBuffers, ancount, buffers, count, answer.value);
      buffers := buffers + [answer.value];
      count := count + 1;
    }
    PushedAll(q, t, records, answerBuffers, ancount, buffers, count);
    r := Success((buffers, count));
  }

  function Pushing(answers: Result<seq<seq<byte>>, Exception>, answerBuffers: seq<seq<byte>>, ancount: nat)
    : (r: Result<(seq<seq<byte>>, nat), Exception>)
  {
    match answers
    case Failure(e) => Failure(e)
    case Success(v) => Success((answerBuffers + v, ancount + |v|))
  }

  lemma PushedAll(q: Question, t: RecordType, records: seq<Row>, answerBuffers: seq<seq<byte>>, ancount: nat, buffers: seq<seq<byte>>, count: nat)
    requires IsAscii(q.name) && RowsReadable(t, records)
    requires Pushed(q, t, records, |records|, answerBuffers, ancount, buffers, count)
    ensures Pushing(RowAnswers(q, t, records), answerBuffers, ancount) == Success((buffers, count))
  {
  }

  /** After j turns of the inner loop: the answers of the first j rows pushed and counted. */
  predicate Pushed(q: Question, t: RecordType, records: seq<Row>, j: nat,
                   answerBuffers: seq<seq<byte>>, ancount: nat, buffers: seq<seq<byte>>, count: nat)
    requires IsAscii(q.name) && RowsReadable(t, records)
  {
    j <= |records| && Collect(RowResults(q, t, records), j).Success? &&
    buffers == answerBuffers + Collect(RowResults(q, t, records), j).value && count == ancount + j
  }

  lemma PushedNone(q: Question, t: RecordType, records: seq<Row>, answerBuffers: seq<seq<byte>>, ancount: nat)
    requires IsAscii(q.name) && RowsReadable(t, records)
    ensures Pushed(q, t, records, 0, answerBuffers, ancount, answerBuffers, ancount)
  {
    assert answerBuffers + [] == answerBuffers;
  }

  /** One more row answered extends the answers of the rows before it. */
  lemma RowStep(q: Question, t: RecordType, records: seq<Row>, j: nat,
                answerBuffers: seq<seq<byte>>, ancount: nat, buffers: seq<seq<byte>>, count: nat, a: seq<byte>)
    requires IsAscii(q.name) && RowsReadable(t, records) && j < |records|
    requires Pushed(q, t, records, j, answerBuffers, ancount, buffers, count)
    requires RowAnswer(q, t, records[j]) == Success(a)
    ensures Pushed(q, t, records, j + 1, answerBuffers, ancount, buffers + [a], count + 1)
  {
    var rs := RowResults(q, t, records);
    assert rs[j] == Success(a);
    Assoc2(answerBuffers, Collect(rs, j).value, [a]);
  }

  lemma Assoc2(a: seq<seq<byte>>, b: seq<seq<byte>>, c: seq<seq<byte>>)
    ensures a + b + c == a + (b + c)
  {
  }

  /** A failing row, after rows that all succeeded, aborts the rows' answers with its exception. */
  lemma RowFails(q: Question, t: RecordType, records: seq<Row>, j: nat, e: Exception, answerBuffers: seq<seq<byte>>, ancount: nat)
    requires IsAscii(q.name) && RowsReadable(t, records) && j < |records|
    requires Collect(RowResults(q, t, records), j).Success?
    requires RowAnswer(q, t, records[j]) == Failure(e)
    ensures Pushing(RowAnswers(q, t, records), answerBuffers, ancount) == Failure(e)
  {
    var rs := RowResults(q, t, records);
    assert rs[j] == Failure(e);
    CollectFailStays(rs, j + 1, |records|);
  }

  /**
   * buildResponse: the question loop pushes every question encoding, the
   * answer loop looks each question up and pushes its answers, and the
   * header is written last, once ancount is known.
   */
  method BuildResponse(table: seq<Row>, txid: u16, opcode: nat, rd: nat, qdcount: u16, questions: seq<Question>)
    returns (r: Result<Response, Exception>)
    requires WellFormed(table) && AsciiNames(questions) && opcode < 16 && rd < 2
    ensures r == BuildResponseSpec(table, txid, opcode, rd, qdcount, questions)
  {
    var questionBuffers := BuildQuestions(questions);
    var answered := AnswerAll(table, questions);
    Unpushed(Answers(table, questions), answered);
    if answered.Failure? {
      return Failure(answered.error);
    }
    var (answerBuffers, ancount) := answered.value;
    if ancount >= 0x1_0000 {
      return Failure(RangeError);
    }
    var header := BuildHeader(SuccessHeader(txid, opcode, rd, qdcount, ancount));
    var response := Concat([header] + questionBuffers + answerBuffers);
    MessageConcat(header, questionBuffers, answerBuffers);
    r := Success(Response(response, ancount, questionBuffers, answerBuffers));
  }

  /** The answer loop: every question answered in turn, the answers pushed and counted. */
  method AnswerAll(table: seq<Row>, questions: seq<Question>) returns (r: Result<(seq<seq<byte>>, nat), Exception>)
    requires WellFormed(table) && AsciiNames(questions)
    ensures r == Pushing(Answers(table, questions), [], 0)
  {
    var answerBuffers: seq<seq<byte>> := [];
    var ancount := 0;
    for i := 0 to |questions|
      invariant Answered(table, questions, i, answerBuffers, ancount)
    {
      var pushed := AnswerQuestion(table, questions[i], answerBuffers, ancount);
      if pushed.Failure? {
        QuestionFails(table, questions, i, answerBuffers, ancount, pushed);
        return Failure(pushed.error);
      }
      QuestionStep(table, questions, i, answerBuffers, ancount, pushed);
      answerBuffers, ancount := pushed.value.0, pushed.value.1;
    }
    AnsweredAll(table, questions, answerBuffers, ancount);
    r := Success((answerBuffers, ancount));
  }

  /** After i turns of the answer loop: the answers of the first i questions pushed and counted. */
  predicate Answered(table: seq<Row>, qs: seq<Question>, i: nat, answerBuffers: seq<seq<byte>>, ancount: nat)
    requires WellFormed(table) && AsciiNames(qs)
  {
    i <= |qs| && Gather(QuestionResults(table, qs), i) == Success(answerBuffers) && ancount == |answerBuffers|
  }

  lemma AnsweredAll(table: seq<Row>, qs: seq<Question>, answerBuffers: seq<seq<byte>>, ancount: nat)
    requires WellFormed(table) && AsciiNames(qs)
    requires Answered(table, qs, |qs|, answerBuffers, ancount)
    ensures Pushing(Answers(table, qs), [], 0) == Success((answerBuffers, ancount))
  {
    NothingBefore(answerBuffers);
  }

  lemma NothingBefore(s: seq<seq<byte>>)
    ensures [] + s == s
  {
  }

  /** What the answer loop hands back is the lookup's outcome, its answers counted. */
  lemma Unpushed(answers: Result<seq<seq<byte>>, Exception>, r: Result<(seq<seq<byte>>, nat), Exception>)
    requires r == Pushing(answers, [], 0)
    ensures r.Failure? ==> answers == Failure(r.error)
    ensures r.Success? ==> answers == Success(r.value.0) && r.value.1 == |r.value.0|
  {
    if answers.Success? {
      assert [] + answers.value == answers.value;
    }
  }

  /** The body of the answer loop for one question: look its rows up, then push their answers. */
  method AnswerQuestion(table: seq<Row>, q: Question, answerBuffers: seq<seq<byte>>, ancount: nat)
    returns (r: Result<(seq<seq<byte>>, nat), Exception>)
    requires WellFormed(table) && IsAscii(q.name) && ancount == |answerBuffers|
    ensures r == Pushing(QuestionAnswers(table, q), answerBuffers, ancount)
  {
    var records := GetRecords(table, q.name, q.qtype);
    if |records| == 0 {
      if !DomainExists(table, q.name) {
        return Failure(Raised(NXDOMAIN));
      }
      assert answerBuffers + [] == answerBuffers;
      return Success((answerBuffers, ancount));
    }
    var handler := Handler(q.qtype);
    if handler.None? {
      return Failure(Raised(NOTIMP));
    }
    FoundReadable(table, q.name, q.qtype, handler.value);
    r := PushAnswers(q, handler.value, records, answerBuffers, ancount);
  }

  /** One more question answered extends the answers of the questions before it. */
  lemma QuestionStep(table: seq<Row>, qs: seq<Question>, i: nat, acc: seq<seq<byte>>, ancount: nat,
                     pushed: Result<(seq<seq<byte>>, nat), Exception>)
    requires WellFormed(table) && AsciiNames(qs) && i < |qs|
    requires Answered(table, qs, i, acc, ancount)
    requires pushed == Pushing(QuestionAnswers(table, qs[i]), acc, ancount) && pushed.Success?
    ensures Answered(table, qs, i + 1, pushed.value.0, pushed.value.1)
  {
    assert QuestionResults(table, qs)[i] == QuestionAnswers(table, qs[i]);
  }

  /** A failing question, after questions that all succeeded, aborts the lookup with its exception. */
  lemma QuestionFails(table: seq<Row>, qs: seq<Question>, i: nat, acc: seq<seq<byte>>, ancount: nat,
                      pushed: Result<(seq<seq<byte>>, nat), Exception>)
    requires WellFormed(table) && AsciiNames(qs) && i < |qs|
    requires Answered(table, qs, i, acc, ancount)
    requires pushed == Pushing(QuestionAnswers(table, qs[i]), acc, ancount) && pushed.Failure?
    ensures Pushing(Answers(table, qs), [], 0) == Failure(pushed.error)
  {
    GatherAborts(QuestionResults(table, qs), i);
  }

  /** The question loop shared by both builders: one buildQuestion buffer per question. */
  method BuildQuestions(questions: seq<Question>) returns (questionBuffers: seq<seq<byte>>)
    requires AsciiNames(questions)
    ensures questionBuffers == QuestionBuffers(questions)
  {
    questionBuffers := [];
    for i := 0 to |questions|
      invariant questionBuffers == QuestionBuffers(questions)[..i]
    {
      var questionBuf := BuildQuestion(questions[i]);
      TakeSnoc(QuestionBuffers(questions), i);
      questionBuffers := questionBuffers + [questionBuf];
    }
  }

  /** Buffer.concat([header, ...questionBuffers, ...answerBuffers]). */
  lemma MessageConcat(header: seq<byte>, qb: seq<seq<byte>>, ab: seq<seq<byte>>)
    ensures Concat([header] + qb + ab) == header + Concat(qb) + Concat(ab)
  {
    ConcatAppend([header] + qb, ab);
    ConcatAppend([header], qb);
    assert Concat([header]) == header + Concat([]);
  }

  /** buildErrorResponse: the question loop, then the error header in front. */
  method BuildErrorResponse(txid: u16, opcode: nat, rd: nat, rcode: nat, qdcount: u16, questions: seq<Question>)
    returns (r: seq<byte>)
    requires AsciiNames(questions) && opcode < 16 && rd < 2 && rcode < 16
    ensures r == BuildErrorResponseSpec(txid, opcode, rd, rcode, qdcount, questions)
  {
    var questionBuffers := BuildQuestions(questions);
    var header := BuildHeader(ErrorHeader(txid, opcode, rd, rcode, qdcount));
    r := Concat([header] + questionBuffers);
    MessageConcat(header, questionBuffers, []);
    assert [header] + questionBuffers + [] == [header] + questionBuffers;
  }

  // ---------------------------------------------------------------------
  // Properties

  /** An answer carries the question's name, type and class, the row's TTL, and RDATA with its length. */
  lemma RowAnswerFields(q: Question, t: RecordType, row: Row, a: seq<byte>)
    requires IsAscii(q.name) && Readable(t, row.value) && RowAnswer(q, t, row) == Success(a)
    ensures Format(t, row.value).Success?
    ensures var rdata, n := Format(t, row.value).value, |EncodeName(q.name)|;
      |a| == n + 10 + |rdata| && a[..n] == EncodeName(q.name) &&
      ReadU16(a, n) == q.qtype && ReadU16(a, n + 2) == q.qclass &&
      ReadU32(a, n + 4) == row.ttl && ReadU16(a, n + 8) == |rdata| && a[n + 10..] == rdata
  {
    var rdata := Format(t, row.value).value;
    AnswerLayout(Record(q.name, q.qtype, q.qclass, row.ttl, |rdata|, rdata));
  }

  /** A row fails only with the built-in errors of its handler or of the buffer writes, never with a DNS error. */
  lemma RowAnswerThrows(q: Question, t: RecordType, row: Row)
    requires IsAscii(q.name) && Readable(t, row.value) && RowAnswer(q, t, row).Failure?
    ensures RowAnswer(q, t, row).error in {TypeError, RangeError}
  {
    if Format(t, row.value).Failure? {
      FormatThrows(t, row.value);
    }
  }

  /** The rows' answers fail only with a built-in error. */
  lemma RowAnswersThrow(q: Question, t: RecordType, rows: seq<Row>)
    requires IsAscii(q.name) && RowsReadable(t, rows) && RowAnswers(q, t, rows).Failure?
    ensures RowAnswers(q, t, rows).error in {TypeError, RangeError}
  {
    var rs := RowResults(q, t, rows);
    forall k | 0 <= k < |rows| && rs[k].Failure?
      ensures rs[k].error in {TypeError, RangeError}
    {
      RowAnswerThrows(q, t, rows[k]);
    }
    CollectErrors(rs, |rows|, {TypeError, RangeError});
  }

  /** Answer k of a successful run of rows is the answer of row k: row order is kept, nothing dropped. */
  lemma RowAnswersInOrder(q: Question, t: RecordType, rows: seq<Row>, k: nat)
    requires IsAscii(q.name) && RowsReadable(t, rows) && RowAnswers(q, t, rows).Success? && k < |rows|
    ensures |RowAnswers(q, t, rows).value| == |rows|
    ensures RowAnswer(q, t, rows[k]) == Success(RowAnswers(q, t, rows).value[k])
  {
    CollectInOrder(RowResults(q, t, rows), |rows|, k);
  }

  /** A question is NXDOMAIN exactly when its name has no rows of that type and no rows at all. */
  lemma QuestionNxDomain(table: seq<Row>, q: Question)
    requires WellFormed(table) && IsAscii(q.name)
    ensures QuestionAnswers(table, q) == Failure(Raised(NXDOMAIN)) <==>
      GetRecords(table, q.name, q.qtype) == [] && !DomainExists(table, q.name)
  {
    var rows := GetRecords(table, q.name, q.qtype);
    if rows != [] && Handler(q.qtype).Some? {
      FoundReadable(table, q.name, q.qtype, Handler(q.qtype).value);
      if RowAnswers(q, Handler(q.qtype).value, rows).Failure? {
        RowAnswersThrow(q, Handler(q.qtype).value, rows);
      }
    }
  }

  /** A question is NOTIMP exactly when rows exist under its name and type but the type has no handler. */
  lemma QuestionNotImp(table: seq<Row>, q: Question)
    requires WellFormed(table) && IsAscii(q.name)
    ensures QuestionAnswers(table, q) == Failure(Raised(NOTIMP)) <==>
      GetRecords(table, q.name, q.qtype) != [] && Handler(q.qtype).None?
  {
    var rows := GetRecords(table, q.name, q.qtype);
    if rows != [] && Handler(q.qtype).Some? {
      FoundReadable(table, q.name, q.qtype, Handler(q.qtype).value);
      if RowAnswers(q, Handler(q.qtype).value, rows).Failure? {
        RowAnswersThrow(q, Handler(q.qtype).value, rows);
      }
    }
  }

  /** A known name without rows of the asked type adds nothing, whether or not the type has a handler. */
  lemma QuestionSkipped(table: seq<Row>, q: Question)
    requires WellFormed(table) && IsAscii(q.name)
    requires GetRecords(table, q.name, q.qtype) == [] && DomainExists(table, q.name)
    ensures QuestionAnswers(table, q) == Success([])
  {
  }

  /** A question that succeeds adds one answer per row found. */
  lemma QuestionCount(table: seq<Row>, q: Question)
    requires WellFormed(table) && IsAscii(q.name) && QuestionAnswers(table, q).Success?
    ensures |QuestionAnswers(table, q).value| == |GetRecords(table, q.name, q.qtype)|
  {
  }

  /** The number of rows found for each question. */
  function RowCounts(table: seq<Row>, qs: seq<Question>): (counts: seq<nat>)
    ensures |counts| == |qs|
  {
    seq(|qs|, k requires 0 <= k < |qs| => |GetRecords(table, qs[k].name, qs[k].qtype)|)
  }

  /** ancount: a successful lookup yields exactly as many answers as rows were found for all the questions. */
  lemma AnswersCount(table: seq<Row>, qs: seq<Question>)
    requires WellFormed(table) && AsciiNames(qs) && Answers(table, qs).Success?
    ensures |Answers(table, qs).value| == Sum(RowCounts(table, qs), |qs|)
  {
    var rs, counts := QuestionResults(table, qs), RowCounts(table, qs);
    forall k | 0 <= k < |rs| && rs[k].Success?
      ensures |rs[k].value| == counts[k]
    {
      QuestionCount(table, qs[k]);
    }
    GatherLength(rs, counts, |qs|);
  }

  /** The lookup succeeds exactly when every question succeeds. */
  lemma AnswersSucceed(table: seq<Row>, qs: seq<Question>)
    requires WellFormed(table) && AsciiNames(qs)
    ensures Answers(table, qs).Success? <==> forall j :: 0 <= j < |qs| ==> QuestionAnswers(table, qs[j]).Success?
  {
    var rs := QuestionResults(table, qs);
    GatherSucceeds(rs, |qs|);
    assert forall j :: 0 <= j < |qs| ==> rs[j] == QuestionAnswers(table, qs[j]);
  }

  /** The first failing question decides the outcome, whatever the questions after it hold. */
  lemma FirstFailureDecides(table: seq<Row>, qs: seq<Question>, i: nat)
    requires WellFormed(table) && AsciiNames(qs) && i < |qs|
    requires forall j :: 0 <= j < i ==> QuestionAnswers(table, qs[j]).Success?
    requires QuestionAnswers(table, qs[i]).Failure?
    ensures Answers(table, qs) == Failure(QuestionAnswers(table, qs[i]).error)
  {
    var rs := QuestionResults(table, qs);
    assert forall j :: 0 <= j <= i ==> rs[j] == QuestionAnswers(table, qs[j]);
    GatherFirstFailure(rs, i);
  }

  /**
   * A response parses back as a request with its success header and the
   * questions asked, and the answers follow the questions.
   */
  lemma ResponseParses(table: seq<Row>, txid: u16, opcode: nat, rd: nat, qs: seq<Question>, resp: Response)
    requires WellFormed(table) && ValidNames(qs) && opcode < 16 && rd < 2 && |qs| < 0x1_0000
    requires BuildResponseSpec(table, txid, opcode, rd, |qs|, qs) == Success(resp)
    ensures resp.ancount == |resp.answerBuffers| < 0x1_0000
    ensures ParseRequestAt(resp.response) == Success(Request(SuccessHeader(txid, opcode, rd, |qs|, resp.ancount), qs))
    ensures resp.response[12 + |EncodeQuestions(qs)|..] == Concat(resp.answerBuffers)
  {
    var h := SuccessHeader(txid, opcode, rd, |qs|, resp.ancount);
    RequestRoundTrip(h, qs, Concat(resp.answerBuffers));
    assert |BuildHeader(h) + EncodeQuestions(qs)| == 12 + |EncodeQuestions(qs)|;
  }

  /** An error response parses back with its RCODE, the questions asked, and no records. */
  lemma ErrorResponseParses(txid: u16, opcode: nat, rd: nat, rcode: nat, qs: seq<Question>)
    requires ValidNames(qs) && opcode < 16 && rd < 2 && rcode < 16 && |qs| < 0x1_0000
    ensures ParseRequestAt(BuildErrorResponseSpec(txid, opcode, rd, rcode, |qs|, qs)) ==
      Success(Request(ErrorHeader(txid, opcode, rd, rcode, |qs|), qs))
  {
    RequestRoundTrip(ErrorHeader(txid, opcode, rd, rcode, |qs|), qs, []);
    assert BuildErrorResponseSpec(txid, opcode, rd, rcode, |qs|, qs) ==
      BuildHeader(ErrorHeader(txid, opcode, rd, rcode, |qs|)) + EncodeQuestions(qs) + [];
  }
}
