/**
 * The "message" handler of app/dns/server.js, without the socket: a
 * datagram is parsed, a non-zero OPCODE is refused with NOTIMP, the
 * response is built from the records table, and any failure becomes an
 * error response whose RCODE is the DNS error's own code, or 2 for every
 * other exception. The bytes handed to udpSocket.send are returned.
 *
 * transactionID, opcode, rd and qdcount are module-level variables, and
 * questions becomes an implicit global at the first successful parse:
 * they keep the last parsed request across datagrams, so a datagram that
 * fails to parse is answered from the previous request's fields, and
 * before any request has parsed, reading questions throws a
 * ReferenceError that the inner catch swallows: nothing is sent.
 */
module Server {
  import opened Wire
  import opened Header
  import opened Question
  import opened Errors
  import opened Request
  import opened Response

  /** What the handler leaves behind in its module-level variables. */
  datatype Context = Context(txid: u16, opcode: nat, rd: nat, qdcount: u16, questions: seq<Question>)

  /** A context as a successful parse leaves it: in-range fields and ASCII names. */
  predicate ContextValid(c: Context)
  {
    c.opcode < 16 && c.rd < 2 && AsciiNames(c.questions)
  }

  /** The variables the destructuring assignment of line 49 sets from a parsed request. */
  function ContextOf(r: Request): (c: Context)
    requires InRange(r.header) && AsciiNames(r.questions)
    ensures ContextValid(c)
  {
    Context(r.header.txid, r.header.opcode, r.header.rd, r.header.qdcount, r.questions)
  }

  /** The RCODE of a failure: a DNS error's own code, 2 for any other exception. */
  function FailureRcode(e: Exception): (rcode: nat)
    ensures 0 < rcode < 16
    ensures e.Raised? ==> rcode == Rcode(e.kind)
    ensures !e.Raised? ==> rcode == 2
  {
    match e
    case Raised(kind) => RcodeInField(kind); Rcode(kind)
    case _ => 2
  }

  /** The error reply built from the context, or nothing when there is no context yet. */
  function ErrorReply(ctx: Option<Context>, rcode: nat): (sent: Option<seq<byte>>)
    requires rcode < 16 && (ctx.Some? ==> ContextValid(ctx.value))
    ensures sent.Some? <==> ctx.Some?
  {
    match ctx
    case None => None
    case Some(c) => Some(BuildErrorResponseSpec(c.txid, c.opcode, c.rd, rcode, c.qdcount, c.questions))
  }

  /**
   * A datagram whose labels run past its end: parse_question.js spins in its
   * while (true) loop with a NaN cursor, so the handler never returns and
   * the event loop handles no later datagram.
   */
  predicate Hangs(buf: seq<byte>)
  {
    ParseRequestAt(buf) == Failure(QuestionFailed(LabelPastEnd))
  }

  /**
   * One datagram: the context afterwards, the bytes sent if any, and
   * whether the handler hangs.
   */
  function Dispatch(ctx: Option<Context>, buf: seq<byte>, table: seq<Row>): (r: (Option<Context>, Option<seq<byte>>, bool))
    requires WellFormed(table) && (ctx.Some? ==> ContextValid(ctx.value))
    ensures r.0.Some? ==> ContextValid(r.0.value)
    ensures r.2 <==> Hangs(buf)
    ensures r.2 ==> r.0 == ctx && r.1.None?
  {
    match ParseRequestAt(buf)
    case Failure(e) =>
      if e == QuestionFailed(LabelPastEnd) then (ctx, None, true)
      else (ctx, ErrorReply(ctx, 2), false)
    case Success(req) =>
      var c := ContextOf(req);
      if c.opcode != 0 then (Some(c), ErrorReply(Some(c), Rcode(NOTIMP)), false)
      else
        match BuildResponseSpec(table, c.txid, c.opcode, c.rd, c.qdcount, c.questions)
        case Success(resp) => (Some(c), Some(resp.response), false)
        case Failure(e) => (Some(c), ErrorReply(Some(c), FailureRcode(e)), false)
  }

  /** The server's state between datagrams. */
  class Dispatcher {
    var context: Option<Context>
    /** Set once a datagram has made the handler spin: nothing is handled after it. */
    var halted: bool

    ghost predicate Valid()
      reads this
    {
      context.Some? ==> ContextValid(context.value)
    }

    /** At start-up no request has been parsed. */
    constructor()
      ensures context == None && !halted && Valid()
    {
      context := None;
      halted := false;
    }

    /** The handler body for one datagram, with the records table as the store. */
    method OnMessage(buf: seq<byte>, table: seq<Row>) returns (sent: Option<seq<byte>>)
      requires WellFormed(table) && Valid()
      modifies this
      ensures Valid()
      ensures old(halted) ==> context == old(context) && halted && sent.None?
      ensures !old(halted) ==> (context, sent, halted) == Dispatch(old(context), buf, table)
    {
      if halted {
        return None;
      }
      var parsed := ParseRequest(buf);
      if parsed.Failure? {
        if parsed.error == QuestionFailed(LabelPastEnd) {
          halted := true;
          return None;
        }
        sent := SendError(2);
        return;
      }
      var req := parsed.value;
      context := Some(ContextOf(req));
      if req.header.opcode != 0 {
        sent := SendError(Rcode(NOTIMP));
        return;
      }
      var built := BuildResponse(table, req.header.txid, req.header.opcode, req.header.rd, req.header.qdcount, req.questions);
      if built.Failure? {
        sent := SendError(FailureRcode(built.error));
        return;
      }
      sent := Some(built.value.response);
    }

    /** The catch blocks: the error response from the current variables, or nothing without them. */
    method SendError(rcode: nat) returns (sent: Option<seq<byte>>)
      requires rcode < 16 && Valid()
      ensures sent == ErrorReply(context, rcode)
    {
      if context.None? {
        return None;
      }
      var c := context.value;
      var response := BuildErrorResponse(c.txid, c.opcode, c.rd, rcode, c.qdcount, c.questions);
      sent := Some(response);
    }
  }

  // ---------------------------------------------------------------------
  // Properties

  /** An error reply carries the context's identifier, OPCODE, RD and QDCOUNT, the RCODE, and no records. */
  lemma ErrorReplyHeader(c: Context, rcode: nat)
    requires ContextValid(c) && rcode < 16
    ensures ErrorReply(Some(c), rcode).Some?
    ensures ParseHeader(ErrorReply(Some(c), rcode).value) == Success(ErrorHeader(c.txid, c.opcode, c.rd, rcode, c.qdcount))
    ensures ErrorReply(Some(c), rcode).value[12..] == EncodeQuestions(c.questions)
  {
    var h := ErrorHeader(c.txid, c.opcode, c.rd, rcode, c.qdcount);
    ParseBuild(h, EncodeQuestions(c.questions));
  }

  /**
   * A datagram that does not parse, and does not make the handler spin, is
   * answered with RCODE 2 from the previous request's variables.
   */
  lemma StaleContext(c: Context, buf: seq<byte>, table: seq<Row>)
    requires WellFormed(table) && ContextValid(c) && ParseRequestAt(buf).Failure? && !Hangs(buf)
    ensures Dispatch(Some(c), buf, table).0 == Some(c)
    ensures Dispatch(Some(c), buf, table).1.Some?
    ensures ParseHeader(Dispatch(Some(c), buf, table).1.value) == Success(ErrorHeader(c.txid, c.opcode, c.rd, 2, c.qdcount))
  {
    ErrorReplyHeader(c, 2);
  }

  /** Before any request has parsed, a datagram that does not parse gets no reply at all. */
  lemma NoContextNoReply(buf: seq<byte>, table: seq<Row>)
    requires WellFormed(table) && ParseRequestAt(buf).Failure?
    ensures Dispatch(None, buf, table).0 == None && Dispatch(None, buf, table).1 == None
  {
  }

  /**
   * A datagram that hangs the handler: a header with QDCOUNT questions, of
   * which the ones before some question i parse while question i's label
   * loop, as written, has not broken out after any number k of turns.
   * Nothing is sent and the context stays.
   */
  lemma DatagramHangs(ctx: Option<Context>, buf: seq<byte>, table: seq<Row>, k: nat)
    requires WellFormed(table) && (ctx.Some? ==> ContextValid(ctx.value)) && Hangs(buf)
    ensures Dispatch(ctx, buf, table) == (ctx, None, true)
    ensures ParseHeader(buf).Success?
    ensures exists i ::
              0 <= i < ParseHeader(buf).value.qdcount && ParseQuestions(buf, i).Success? &&
              TurnsAsWritten(buf, Index(ParseQuestions(buf, i).value.1), k).Some?
  {
    var h := ParseHeader(buf).value;
    LabelFailureAt(buf, h.qdcount);
    var i :| 0 <= i < h.qdcount && ParseQuestions(buf, i).Success? &&
      ReadLabels(buf, ParseQuestions(buf, i).value.1).Failure?;
    HangsWhereReadFails(buf, ParseQuestions(buf, i).value.1, k);
  }

  /** The smallest datagram that hangs: one question whose 3-octet label has 2 octets. */
  lemma TruncatedDatagramHangs(buf: seq<byte>)
    requires buf == [0, 1, 0, 0, 0, 1, 0, 0, 0, 0, 0, 0, 3, 97, 98]
    ensures Hangs(buf)
  {
    var h := ParseHeader(buf).value;
    assert h.qdcount == 1;
    assert ReadLabels(buf, 12) == Failure(LabelPastEnd);
    assert ParseQuestions(buf, 1) == Failure(LabelPastEnd);
  }

  /** A request that parses replaces the context, whatever the outcome of its response. */
  lemma ContextReplaced(ctx: Option<Context>, buf: seq<byte>, table: seq<Row>)
    requires WellFormed(table) && (ctx.Some? ==> ContextValid(ctx.value)) && ParseRequestAt(buf).Success?
    ensures Dispatch(ctx, buf, table).0 == Some(ContextOf(ParseRequestAt(buf).value))
  {
  }

  /** A non-zero OPCODE is refused with NOTIMP's RCODE 4, the OPCODE, RD and questions echoed. */
  lemma OpcodeRefused(ctx: Option<Context>, buf: seq<byte>, table: seq<Row>)
    requires WellFormed(table) && (ctx.Some? ==> ContextValid(ctx.value))
    requires ParseRequestAt(buf).Success? && ParseRequestAt(buf).value.header.opcode != 0
    ensures var req, sent := ParseRequestAt(buf).value, Dispatch(ctx, buf, table).1;
      var h := req.header;
      sent.Some? &&
      ParseHeader(sent.value) == Success(ErrorHeader(h.txid, h.opcode, h.rd, 4, h.qdcount)) &&
      sent.value[12..] == EncodeQuestions(req.questions)
  {
    ErrorReplyHeader(ContextOf(ParseRequestAt(buf).value), 4);
  }

  /** A standard query whose response builds is answered with that response. */
  lemma ResponseSent(ctx: Option<Context>, buf: seq<byte>, table: seq<Row>)
    requires WellFormed(table) && (ctx.Some? ==> ContextValid(ctx.value))
    requires ParseRequestAt(buf).Success? && ParseRequestAt(buf).value.header.opcode == 0
    requires var h, qs := ParseRequestAt(buf).value.header, ParseRequestAt(buf).value.questions;
      BuildResponseSpec(table, h.txid, 0, h.rd, h.qdcount, qs).Success?
    ensures var h, qs := ParseRequestAt(buf).value.header, ParseRequestAt(buf).value.questions;
      Dispatch(ctx, buf, table).1 == Some(BuildResponseSpec(table, h.txid, 0, h.rd, h.qdcount, qs).value.response)
  {
  }

  /** A standard query whose response fails is answered with the failure's RCODE, the questions echoed. */
  lemma FailureAnswered(ctx: Option<Context>, buf: seq<byte>, table: seq<Row>)
    requires WellFormed(table) && (ctx.Some? ==> ContextValid(ctx.value))
    requires ParseRequestAt(buf).Success? && ParseRequestAt(buf).value.header.opcode == 0
    requires var h, qs := ParseRequestAt(buf).value.header, ParseRequestAt(buf).value.questions;
      BuildResponseSpec(table, h.txid, 0, h.rd, h.qdcount, qs).Failure?
    ensures var req, sent := ParseRequestAt(buf).value, Dispatch(ctx, buf, table).1;
      var h := req.header;
      var e := BuildResponseSpec(table, h.txid, 0, h.rd, h.qdcount, req.questions).error;
      sent.Some? &&
      ParseHeader(sent.value) == Success(ErrorHeader(h.txid, 0, h.rd, FailureRcode(e), h.qdcount)) &&
      sent.value[12..] == EncodeQuestions(req.questions)
  {
    var req := ParseRequestAt(buf).value;
    var e := BuildResponseSpec(table, req.header.txid, 0, req.header.rd, req.header.qdcount, req.questions).error;
    ErrorReplyHeader(ContextOf(req), FailureRcode(e));
  }

  /** Whenever a request parses, the reply carries its transaction identifier. */
  lemma ReplyEchoesId(ctx: Option<Context>, buf: seq<byte>, table: seq<Row>)
    requires WellFormed(table) && (ctx.Some? ==> ContextValid(ctx.value)) && ParseRequestAt(buf).Success?
    ensures Dispatch(ctx, buf, table).1.Some?
    ensures |Dispatch(ctx, buf, table).1.value| >= 12
    ensures ReadU16(Dispatch(ctx, buf, table).1.value, 0) == ReadU16(buf, 0)
  {
    var req := ParseRequestAt(buf).value;
    var h := req.header;
    var c := ContextOf(req);
    if h.opcode != 0 {
      ErrorReplyHeader(c, 4);
    } else {
      var built := BuildResponseSpec(table, h.txid, 0, h.rd, h.qdcount, req.questions);
      if built.Success? {
        ResponseId(table, h.txid, h.rd, h.qdcount, req.questions);
      } else {
        ErrorReplyHeader(c, FailureRcode(built.error));
      }
    }
  }

  /** A built response starts with the request's transaction identifier. */
  lemma ResponseId(table: seq<Row>, txid: u16, rd: nat, qdcount: u16, qs: seq<Question>)
    requires WellFormed(table) && AsciiNames(qs) && rd < 2
    requires BuildResponseSpec(table, txid, 0, rd, qdcount, qs).Success?
    ensures |BuildResponseSpec(table, txid, 0, rd, qdcount, qs).value.response| >= 12
    ensures ReadU16(BuildResponseSpec(table, txid, 0, rd, qdcount, qs).value.response, 0) == txid
  {
    ReadU16OfU16(txid, BuildResponseSpec(table, txid, 0, rd, qdcount, qs).value.response, 0);
  }
}
