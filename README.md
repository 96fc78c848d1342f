# LordDNS wire format and responders in Dafny

LordDNS is a small authoritative DNS server written in JavaScript. A UDP
datagram is decoded into a 12-octet header and its questions. Each question
is looked up by name and type in a SQLite table of records, and each row
found is formatted as RDATA by a per-type handler. The reply is the header,
the questions echoed back and one answer per row. A failure anywhere becomes
an error reply whose RCODE is the failure's code.

This project models that core and proves properties of the model:

- the header codec (`Header`): flags packing and unpacking, in both directions;
- the question codec (`Question`): length-prefixed labels, the terminator, QTYPE and QCLASS;
- the record encoder (`Answer`);
- the RDATA type handlers (`TypeMappings`): A, AAAA with `::` expansion, NS, CNAME, PTR, MX, TXT and SOA;
- the ten error kinds (`Errors`);
- the request parser (`Request`);
- the database-backed responder (`Response`);
- the older responder with its hard-coded answer (`LegacyResponse`);
- the per-datagram handler of the server, which keeps its request context between datagrams (`Server`).

`Wire` and `Text` hold the byte and string vocabulary the codecs share:
big-endian words, concatenation, and JavaScript's `split` and `join`, the
`'ascii'` conversions, `Number` and `parseInt`.

The model follows the form of the code. What the source computes with
expressions becomes functions. Each loop becomes a `method` with a loop
(`for` or `while`, as in the source). That method is proved equal to a specification function, and the
properties are proved about the function:

- `BuildQuestion`, `ParseQuestion`, `BuildAnswer`, `ReadQuestions`, `ParseRequest`;
- the AAAA write loop over an `array` of 16 octets;
- the two `buildResponse` loops and `buildErrorResponse`;
- the legacy responder's two loops.

The server's module-level variables are the field of a `Dispatcher` class,
and the handler is its `OnMessage` method. JavaScript exceptions are the
`Failure` side of a `Result`. `Exception` has three cases: one of the ten DNS
kinds, `TypeError` or `RangeError`.

The records table is a sequence of rows. `getRecords` and `domainExists` are
exact-match functions over it.

Three modelling choices:

- **Which codecs `app/dns/helpers/` uses.** The files there require `./parse_header`, `./build_question` and `./build_answer`, and those copies are not part of this model. The `app/helpers/` codecs stand in for them, in the form their tests fix. `app/helpers/build_question.js` and `app/helpers/build_answer.js` cannot run as written; see Findings.
- **How `buildQuestion` is called.** It is declared with three parameters, but every caller and test passes a single `[domainName, qtype, qclass]` array. The model takes the array form that is exercised.
- **What the code does at its edges.**
  - The question parser does not follow compressed names (RFC 1035 section 4.1.4).
  - A known name with no rows of the asked type adds no answer, whatever the type, and the response goes on (`Response.QuestionSkipped`).
  - A datagram that fails to parse is answered from the previous request's context, with RCODE 2 and that request's questions echoed. Before any request has parsed, nothing is sent (`Server.StaleContext`, `Server.NoContextNoReply`).
  - The handler keeps that context between datagrams, in its module-level variables.
  - A datagram whose labels run past its end makes the label loop spin for ever: nothing is sent and no later datagram is handled (`Server.DatagramHangs`).

## Model

| member | source | states |
|---|---|---|
| Header.BuildHeader | app/helpers/build_header.js:45-53 | the header is exactly 12 octets: the transaction id at 0-1, the flags word at 2-3, QDCOUNT, ANCOUNT, NSCOUNT and ARCOUNT big-endian at 4, 6, 8 and 10 |
| Header.PackFlags | app/helpers/build_header.js:35-43 | definition: QR, OPCODE, AA, TC, RD, RA, Z and RCODE shifted to bits 15, 11, 10, 9, 8, 7, 4 and 0 and combined; its properties are UnpackPack and PackUnpack |
| Header.UnpackFlags | app/helpers/parse_header.js:29-36 | every decoded sub-field lies within its width: QR, AA, TC, RD and RA below 2, OPCODE and RCODE below 16, Z below 8 |
| Header.ParseHeader | app/helpers/parse_header.js:19-42 | fails exactly when the buffer is shorter than 12 octets; on success every field is in range and the five words are the big-endian words at 0, 4, 6, 8 and 10 |
| Header.UnpackPack | app/helpers/build_header.js:35-43 | for in-range sub-fields, shift and mask recover each one from the packed flags word (QR bit 15, OPCODE 11-14, AA 10, TC 9, RD 8, RA 7, Z 4-6, RCODE 0-3) |
| Header.PackUnpack | app/helpers/parse_header.js:27-36 | packing the unpacked sub-fields gives back any 16-bit flags word: the masks cover all 16 bits |
| Header.ParseBuild | app/helpers/parse_header.js:24-46 | decoding an encoded in-range header gives the 13 fields back, whatever octets follow it |
| Header.BuildParse | app/helpers/parse_header.js:24-46 | re-encoding the header decoded from any buffer of 12 or more octets reproduces its first 12 octets |
| Header.ParseReadsTwelve | app/helpers/parse_header.js:24-42 | buffers that agree on octets 0-11 decode alike: trailing octets are never read |
| Header.BuildHeaderVector | __tests__/helpers.test.js:32-60 | the fields `[1234,1,0,0,0,0,0,0,0,1,1,0,0]` encode as `04 d2 80 00 00 01 00 01 00 00 00 00` |
| Errors.Rcode | app/dns/helpers/error_classes.js:18-87 | every kind's code lies in 1-10 |
| Errors.FromRcode | app/dns/helpers/error_classes.js:18-87 | a kind exists for a code exactly when the code is in 1-10, and it carries that code |
| Errors.FromRcodeRcode | app/dns/helpers/error_classes.js:18-87 | reading a kind's code back gives the kind |
| Errors.RcodeInjective | app/dns/helpers/error_classes.js:22-85 | no two kinds share a code |
| Errors.RcodeInField | app/dns/helpers/error_classes.js:22-85 | no code is NOERROR, and every code fits the 4-bit RCODE field |
| Errors.NameInjective | app/dns/helpers/error_classes.js:21-84 | distinct kinds carry distinct names |
| Errors.Name | app/dns/helpers/error_classes.js:21-84 | definition: the `name` each error class sets, its class name; distinct by NameInjective |
| Text.DecodeAscii | app/helpers/parse_question.js:29 | `toString('ascii')` gives one ASCII character per octet, its low seven bits |
| Text.DecodeAsciiBytes | app/helpers/build_question.js:24 | the octets `Buffer.from(s, 'ascii')` writes for ASCII text decode back to the text with `toString('ascii')`: the conversion loses no character |
| Text.IndexOf | app/dns/helpers/type_mappings.js:26 | `indexOf` gives the first position of the character, or none exactly when it does not occur |
| Text.Split | app/helpers/build_question.js:19 | `split` always gives at least one part |
| Text.LeadingDigits | app/dns/helpers/type_mappings.js:46 | the digits `parseInt` reads are the longest run of decimal digits that starts the string |
| Text.JoinSplit | app/helpers/parse_question.js:32 | joining the pieces of a split with the same separator gives the string back |
| Text.SplitJoin | app/helpers/build_question.js:19 | splitting a join of pieces that do not contain the separator gives the pieces back |
| Text.ParseIntShow | app/dns/helpers/type_mappings.js:33 | `parseInt` reads a rendered decimal or hexadecimal numeral back as its value |
| Question.EncodeQuestion | app/helpers/build_question.js:28-36 | a question takes its name encoding plus four octets |
| Question.EncodeName | app/helpers/build_question.js:19-26 | definition: each dot-separated label as a length octet and its ASCII octets, then a zero octet; read back by ParseEncodedAt |
| Question.QuestionLength | app/helpers/build_question.js:19-36 | the encoded length is the sum over labels of one plus the label's length, plus the terminator, plus 4 |
| Question.BuildQuestion | app/helpers/build_question.js:19-36 | the label loop, the terminator and the two words give exactly the question encoding |
| Question.ClassInTypeA | __tests__/main.test.js:160-209 | a question of type A and class IN ends in `00 01 00 01` after its name |
| Question.CodecraftersName | __tests__/helpers.test.js:12-18 | codecrafters.io is ASCII and its name encoding is `0c` codecrafters `02` io `00` |
| Question.EncodeQuestionVector | __tests__/helpers.test.js:12-18 | codecrafters.io / A / IN encodes as the 21 octets of the codec's own test |
| Question.EncodeInjective | app/helpers/build_question.js:22-24 | distinct questions with valid names encode differently, so case and every character are kept |
| Question.ReadLabels | app/helpers/parse_question.js:22-31 | a label loop that succeeds stops inside the buffer just past a zero octet, and the labels it read are ASCII |
| Question.ParseQuestionAt | app/helpers/parse_question.js:18-46 | on success `bytesRead` is at least 5 and ends inside the buffer; the name is ASCII; the terminator sits 5 octets before the end; QTYPE and QCLASS are the two words after it |
| Question.ParseQuestion | app/helpers/parse_question.js:18-46 | the `while (true)` loop and the two cursor advances compute exactly `ParseQuestionAt`, failures included |
| Question.ReadEncodedLabels | app/helpers/parse_question.js:22-31 | encoded valid labels followed by the terminator are read back, and the cursor ends just past the terminator |
| Question.ParseEncodedAt | app/helpers/parse_question.js:18-45 | a question with a valid name, encoded at any offset of a buffer, parses back there with `bytesRead` equal to its encoding length |
| Question.ParseEncoded | app/helpers/parse_question.js:20 | the same with any octets before and after: the result does not depend on the prefix |
| Question.NaNNeverBreaks | app/helpers/parse_question.js:23-30 | once the cursor is NaN the loop as written never reaches its break |
| Question.PastEndNeverBreaks | app/helpers/parse_question.js:23-30 | a cursor past the end of the buffer makes the loop as written run forever |
| Question.HangsWhereReadFails | app/helpers/parse_question.js:22-31 | wherever the guarded label loop fails, the loop as written does not stop after any number of turns |
| Question.AgreesWhereReadSucceeds | app/helpers/parse_question.js:22-31 | wherever the guarded label loop succeeds, the loop as written takes one turn per label and breaks at the same zero octet |
| Question.TruncatedLabelHangs | app/helpers/parse_question.js:22-31 | for `[3, 97, 98]` the guarded loop fails with LabelPastEnd, and the loop as written has a NaN cursor from the second turn on |
| Request.ParseQuestions | app/dns/helpers/parse_request.js:33-39 | a successful question loop returns exactly `qdcount` questions |
| Request.ParsedQuestions | app/dns/helpers/parse_request.js:33-39 | the questions read have ASCII names, and the cursor starts at 12 and stays inside the buffer once a question is read |
| Request.QuestionsStep | app/dns/helpers/parse_request.js:36-38 | each turn reads the next question at the cursor and advances the cursor by its `bytesRead` |
| Request.FailureStays | app/dns/helpers/parse_request.js:35-38 | once a question fails to parse, the request fails with that question's error |
| Request.LabelFailureAt | app/dns/helpers/parse_request.js:35-38 | a question loop that fails on a label past the end has a first failing question: the ones before it parse and its label loop fails |
| Request.ParseRequestAt | app/dns/helpers/parse_request.js:25-41 | fewer than 12 octets fail in the header parser; on success the header is `parseHeader`'s, there are exactly `qdcount` questions, and their names are ASCII |
| Request.ParseRequest | app/dns/helpers/parse_request.js:25-41 | the method computes exactly `ParseRequestAt` |
| Request.ReadQuestions | app/dns/helpers/parse_request.js:33-39 | the `for` loop with its pushes and offset advances computes exactly `ParseQuestions` |
| Request.QuestionBuffers | app/dns/helpers/build_response.js:47-50 | one buffer per question, in order, each buffer that question's encoding |
| Request.EncodeQuestionsSplit | app/dns/helpers/build_response.js:76 | the concatenated questions split at any question boundary |
| Request.QuestionAtSlot | app/dns/helpers/parse_request.js:33-38 | in a buffer holding encoded questions from offset 12, question k parses where the first k end and spans exactly its own encoding |
| Request.ChainParses | app/dns/helpers/parse_request.js:33-38 | questions that parse back to back from offset 12 are what the loop returns after each turn, with the cursor where the last one ends |
| Request.EncodedQuestionsParse | app/dns/helpers/parse_request.js:33-39 | encoded questions from offset 12 read back in wire order, the cursor ending after the last one |
| Request.RequestRoundTrip | app/dns/helpers/parse_request.js:25-41 | a header whose `qdcount` equals the number of questions, followed by those questions with valid names, parses back to that header and those questions, whatever follows |
| Answer.BuildAnswer | app/helpers/build_answer.js:30-63 | the name loop and the field pushes give exactly the record encoding |
| Answer.EncodeAnswer | app/helpers/build_answer.js:27-61 | definition: the record layout the tests fix (name, TYPE, CLASS, 32-bit TTL, RDLENGTH, RDATA); its offsets are stated by AnswerLayout |
| Answer.AnswerLayout | app/helpers/build_answer.js:24-61 | after a name of n octets come TYPE at n, CLASS at n+2, the 32-bit TTL at n+4 and RDLENGTH at n+8 (the caller's value, not recomputed); RDATA is the trailing octets verbatim; the length is n+10+\|RDATA\| |
| Answer.AnswerNameParses | app/helpers/build_answer.js:30-38 | a record's owner name, type and class read back with the question parser |
| Answer.AnswersLength | __tests__/main.test.js:290-298 | concatenated records take the sum of their sizes |
| Answer.ExampleComOffsets | __tests__/main.test.js:226-266 | for example.com, TYPE is at 13, CLASS at 15, TTL at 17 and RDLENGTH at 21 |
| Answer.FixedFieldsVector | __tests__/helpers.test.js:24-27 | TYPE A, CLASS IN, TTL 60 and RDLENGTH 4 are the ten octets `00 01 00 01 00 00 00 3c 00 04` |
| Answer.EncodeAnswerVector | __tests__/helpers.test.js:20-29 | the test's record (codecrafters.io, A, IN, TTL 60, 172.66.144.113) encodes as its 31 octets |
| Answer.BuildAnswerAsWritten | app/helpers/build_answer.js:31 | as written, every call throws a TypeError before anything is written |
| Answer.SlotsAsWritten | app/helpers/build_answer.js:41-61 | definition: the octets lines 41-61 write once the name is split, with the class slot, TTL slot and 4-octet RDLENGTH as written; compared with the layout by SlotsAsWrittenDiffer |
| Answer.SlotsAsWrittenDiffer | app/helpers/build_answer.js:46-58 | as written, the class slot repeats TYPE, the TTL slot holds RDLENGTH in its high half, RDLENGTH takes 4 octets, and the record is 2 octets longer than the layout, so it never equals the encoding |
| Answer.SlotsAsWrittenVector | app/helpers/build_answer.js:50-53 | on the test's record the TTL slot as written reads 262144, not 60, and the record has 33 octets |
| TypeMappings.Handler | app/dns/helpers/type_mappings.js:19-74 | an entry exists exactly for codes 1, 2, 5, 6, 12, 15, 16 and 28, and it is the entry of that code |
| TypeMappings.HandlerCode | app/dns/helpers/type_mappings.js:19-74 | every type is found under its own code |
| TypeMappings.FormatA | app/dns/helpers/type_mappings.js:20 | definition: one octet per dotted part, the part's number modulo 256; its round trip is FormatADotted |
| TypeMappings.FormatADotted | app/dns/helpers/type_mappings.js:20 | the A format of any dotted-decimal text gives one octet per part: the octets it was written from |
| TypeMappings.FormatAVector | app/dns/helpers/type_mappings.js:20 | "172.66.144.113" gives `[172, 66, 144, 113]` |
| TypeMappings.FormatName | app/dns/helpers/type_mappings.js:40-42 | NS, CNAME and PTR RDATA is the name encoding followed by `00 01 00 01`, not the bare name of RFC 1035 sections 3.3.1, 3.3.11 and 3.3.12 |
| TypeMappings.FormatTXT | app/dns/helpers/type_mappings.js:50-54 | definition: the text's length modulo 256 in one octet, then the text's octets; read back by FormatTXTReads |
| TypeMappings.FormatNameParses | app/dns/helpers/type_mappings.js:55-57 | a valid name comes back from that RDATA with the question parser |
| TypeMappings.FormatTXTReads | app/dns/helpers/type_mappings.js:50-54 | text of at most 255 characters becomes one length octet and then the text, and reads back |
| TypeMappings.FormatMX | app/dns/helpers/type_mappings.js:43-49 | on success there is an exchange; the first word is the preference read by `parseInt`; then comes the exchange in question form |
| TypeMappings.FormatMXFails | app/dns/helpers/type_mappings.js:44-47 | the format fails exactly when the preference exceeds 16 bits or there is no exchange |
| TypeMappings.FormatMXRoundTrip | app/dns/helpers/type_mappings.js:43-49 | "preference exchange" gives RDATA from which both the preference and the exchange read back |
| TypeMappings.FormatSOA | app/dns/helpers/type_mappings.js:58-70 | on success the value had at least mname and rname |
| TypeMappings.SoaNumbers | app/dns/helpers/type_mappings.js:64-68 | always five numbers: parts 2 to 6 read by `parseInt`, 0 where the part is missing |
| TypeMappings.FormatSOAFails | app/dns/helpers/type_mappings.js:58-70 | the SOA format fails exactly when rname is missing or one of the five numbers exceeds 32 bits; the error is a TypeError exactly in the first case |
| TypeMappings.FormatSOALayout | app/dns/helpers/type_mappings.js:58-70 | on success the RDATA is mname and rname in question form, then five 32-bit words that read back as serial, refresh, retry, expire and minimum (0 when missing); its length is \|m\|+\|r\|+20 |
| TypeMappings.FirstEmpty | app/dns/helpers/type_mappings.js:26 | `indexOf('')`: the first empty part, or none when no part is empty |
| TypeMappings.Expand | app/dns/helpers/type_mappings.js:26-30 | definition: the first empty part replaced by 8 - (parts - 1) groups "0", a RangeError when that count is negative; its shape is ExpandShape |
| TypeMappings.ExpandShape | app/dns/helpers/type_mappings.js:26-30 | with an empty part and at most nine parts, the splice gives exactly eight groups; more than nine parts throw a RangeError; without an empty part nothing changes |
| TypeMappings.FormatAAAASpec | app/dns/helpers/type_mappings.js:21-38 | for groups `parseInt` reads as plain numerals, the result is always 16 octets, and the only failure is a RangeError |
| TypeMappings.FormatAAAAGroups | app/dns/helpers/type_mappings.js:32-36 | group k of the expanded address is the big-endian word at offset 2k (an unparseable group reads 0), and the octets after the groups stay zero |
| TypeMappings.GroupRefused | app/dns/helpers/type_mappings.js:33-34 | a group above 0xffff, or a ninth group, refuses the whole address |
| TypeMappings.WriteU16BE | app/dns/helpers/type_mappings.js:34 | `writeUInt16BE` puts the high octet at the offset and the low octet after it, and changes nothing else |
| TypeMappings.WriteGroups | app/dns/helpers/type_mappings.js:23-37 | the write loop over the 16-octet array gives the groups' words and then zeros, or a RangeError for a ninth group or a group out of range |
| TypeMappings.FormatAAAA | app/dns/helpers/type_mappings.js:21-38 | the method (split, splice, write loop) computes exactly `FormatAAAASpec` |
| TypeMappings.FormatAAAAFull | app/dns/helpers/type_mappings.js:21-38 | eight 16-bit groups written in hexadecimal come back as the eight words |
| TypeMappings.FormatAAAALoopback | app/db/index.js:67 | "::1" gives fifteen zero octets and then 1 |
| TypeMappings.FormatAAAADocumentation | app/dns/helpers/type_mappings.js:26-36 | "2001:db8::1" gives `20 01 0d b8`, ten zero octets, then `00 01` |
| TypeMappings.FormatThrows | app/dns/helpers/type_mappings.js:19-74 | only MX, SOA and AAAA can fail, and only with TypeError or RangeError, never a DNS error kind |
| TypeMappings.Format | app/dns/helpers/type_mappings.js:19-74 | definition: the format of each table entry (A, NS, CNAME, PTR, MX, TXT, SOA, AAAA); its failures are FormatThrows |
| TypeMappings.Apply | app/dns/helpers/type_mappings.js:19-74 | `handler.format(value)` for each entry, AAAA by its write loop, computes exactly the type's format |
| Response.GetRecords | app/db/index.js:39-41 | the rows found are at most the table's rows |
| Response.GetRecordsSound | app/db/index.js:40 | every row found is a row of the table with exactly the asked domain and type |
| Response.GetRecordsComplete | app/db/index.js:40 | every row of the table with the asked domain and type is found |
| Response.DomainExists | app/db/index.js:45-49 | definition: some row, of any type, carries the domain; characterised by DomainExistsIff |
| Response.DomainExistsIff | app/db/index.js:45-49 | `domainExists` holds exactly when some row of any type has the domain |
| Response.FoundReadable | app/dns/helpers/build_response.js:54-67 | in a well-formed table, every row found under a handled type holds text that type's format can read |
| Response.RecordsExist | app/dns/helpers/build_response.js:54-56 | a name with rows of some type exists |
| Response.RowAnswer | app/dns/helpers/build_response.js:66-69 | definition: the row's value formatted, then a RangeError for a TTL outside 32 bits or RDATA of 2^16 octets or more, else the record with the question's name, type and class; its fields are RowAnswerFields |
| Response.QuestionAnswers | app/dns/helpers/build_response.js:53-71 | definition: no rows and an unknown name is NXDOMAIN, no rows under a known name adds nothing, rows under a type without a handler are NOTIMP, otherwise the rows' answers; characterised by QuestionNxDomain, QuestionSkipped, QuestionNotImp and QuestionCount |
| Response.RowAnswerFields | app/dns/helpers/build_response.js:66-69 | an answer carries the question's name, type and class, the row's TTL, RDLENGTH equal to the formatted RDATA's length, and that RDATA |
| Response.RowAnswerThrows | app/dns/helpers/build_response.js:66-69 | a row fails only with TypeError or RangeError, never with a DNS error kind |
| Response.RowAnswersThrow | app/dns/helpers/build_response.js:66-71 | the same for all the rows of a question |
| Response.RowAnswersInOrder | app/dns/helpers/build_response.js:66-71 | on success there is one answer per row, and answer k is row k's answer: order kept, nothing dropped |
| Response.QuestionNxDomain | app/dns/helpers/build_response.js:55-58 | a question is NXDOMAIN exactly when its name has no rows of that type and no rows of any type |
| Response.QuestionSkipped | app/dns/helpers/build_response.js:55-60 | a known name without rows of the asked type adds nothing and does not fail, whatever the type |
| Response.QuestionNotImp | app/dns/helpers/build_response.js:62-65 | a question is NOTIMP exactly when it has rows but its type has no handler |
| Response.QuestionCount | app/dns/helpers/build_response.js:66-71 | a question that succeeds adds one answer per row found |
| Response.RowCounts | app/dns/helpers/build_response.js:54 | one row count per question |
| Response.AnswersCount | app/dns/helpers/build_response.js:45-71 | a successful lookup yields exactly as many answers as rows were found, summed over all the questions |
| Response.AnswersSucceed | app/dns/helpers/build_response.js:52-72 | the lookup succeeds exactly when every question succeeds |
| Response.FirstFailureDecides | app/dns/helpers/build_response.js:52-72 | the first failing question decides the outcome, whatever the questions after it hold |
| Response.AnswerRow | app/dns/helpers/build_response.js:67-69 | formatting a row and building its answer computes exactly `RowAnswer` |
| Response.PushAnswers | app/dns/helpers/build_response.js:66-71 | the inner loop pushes the rows' answers after those already pushed and counts them, or stops at the first failing row |
| Response.AnswerQuestion | app/dns/helpers/build_response.js:53-71 | one turn of the answer loop pushes the question's answers, or stops with its NXDOMAIN, NOTIMP or the failing row's error |
| Response.AnswerAll | app/dns/helpers/build_response.js:52-72 | the answer loop yields all the questions' answers in question-then-row order with `ancount` equal to their number, or the first failure |
| Response.BuildQuestions | app/dns/helpers/build_response.js:47-50 | the question loop yields each question's encoding, in order |
| Response.BuildResponse | app/dns/helpers/build_response.js:41-78 | the method computes exactly `BuildResponseSpec` |
| Response.BuildErrorResponse | app/dns/helpers/build_response.js:79-93 | the method computes exactly `BuildErrorResponseSpec` |
| Response.MessageConcat | app/dns/helpers/build_response.js:76 | `Buffer.concat([header, ...questionBuffers, ...answerBuffers])` is the header, then the questions, then the answers |
| Response.BuildResponseSpec | app/dns/helpers/build_response.js:41-78 | definition: the success header, the questions and the answers, a RangeError when there are 2^16 answers or more; its reading back is ResponseParses |
| Response.BuildErrorResponseSpec | app/dns/helpers/build_response.js:79-93 | definition: the error header, then the questions; its reading back is ErrorResponseParses |
| Response.ResponseParses | app/dns/helpers/build_response.js:73-77 | under the response's success header (QR 1, OPCODE and RD echoed, RCODE 0, QDCOUNT the number of questions, ANCOUNT the number of answers, below 2^16) the response parses back with the questions asked, and the answers follow the questions |
| Response.ErrorResponseParses | app/dns/helpers/build_response.js:79-92 | an error response parses back under its error header (the given RCODE, ANCOUNT, NSCOUNT and ARCOUNT 0) with the questions asked |
| LegacyResponse.ACount | app/helpers/build_response.js:40-48 | at most one A question per question |
| LegacyResponse.LegacyHeader | app/helpers/build_response.js:29 | definition: the header fields with ANCOUNT set to qdcount; see AncountOvercounts |
| LegacyResponse.FallbackHeader | app/helpers/build_response.js:50-52 | definition: the catch block's header, RCODE 2 and every count 0 |
| LegacyResponse.CannedAnswers | app/helpers/build_response.js:40-48 | definition: one canned answer per A question, in question order; see CannedCount and CannedInOrder |
| LegacyResponse.LegacySpec | app/helpers/build_response.js:25-49 | definition: the header, the questions and, for RCODE 0, the canned answers, once the question encoder is exported and called with its array and buildAnswer splits the name; its reading back is LegacyParses |
| LegacyResponse.LegacyAsWritten | app/helpers/build_response.js:25-55 | definition: as shipped, the fallback header whenever there is a question; see LegacyAsWrittenFallback and LegacyAsWrittenDiffers |
| LegacyResponse.LegacyBuildResponse | app/helpers/build_response.js:25-49 | when every encoder works, the response is the header, the questions, and for RCODE 0 the canned answers |
| LegacyResponse.EchoQuestions | app/helpers/build_response.js:33-36 | the question loop concatenates each question's encoding onto the header, in order |
| LegacyResponse.AddCannedAnswers | app/helpers/build_response.js:40-48 | the answer loop concatenates the canned answer of each A question, in order |
| LegacyResponse.LegacyParses | app/helpers/build_response.js:29-36 | the message parses back under a header whose ANCOUNT equals QDCOUNT, with the questions in order |
| LegacyResponse.CannedCount | app/helpers/build_response.js:43 | one canned answer per A question and none for any other type |
| LegacyResponse.AncountOvercounts | app/helpers/build_response.js:29 | with a question of another type, fewer answers are written than ANCOUNT announces |
| LegacyResponse.CannedInOrder | app/helpers/build_response.js:40-47 | the answer of the k-th A question is the k-th answer |
| LegacyResponse.CannedLayout | app/helpers/build_response.js:44 | each canned answer is TYPE A, the question's class, TTL 60, RDLENGTH 4 and RDATA 172.66.144.113 |
| LegacyResponse.ErrorCodeNoAnswers | app/helpers/build_response.js:38 | a non-zero RCODE leaves the answers out: the message is the header and the echoed questions |
| LegacyResponse.LegacyAsWrittenFallback | app/helpers/build_response.js:50-54 | as shipped, a message with a question is the 12-octet fallback header: RCODE 2 and every count 0 |
| LegacyResponse.LegacyAsWrittenDiffers | app/helpers/build_question.js:18 | as shipped, every message with a question differs from the intended response |
| Server.ContextOf | app/dns/server.js:49 | the variables a successful parse sets are in range and their names are ASCII |
| Server.FailureRcode | app/dns/server.js:67-88 | a DNS error kind's failure gives that kind's code, and any other failure gives 2; either way the code is non-zero and fits 4 bits |
| Server.ErrorReply | app/dns/server.js:70-87 | an error reply is sent exactly when there is a context to build it from |
| Server.Dispatch | app/dns/server.js:43-89 | the datagram hangs the handler exactly when a question's labels run past the end, and then nothing is sent and the context stays; a context left behind is always a valid one |
| Server.Dispatcher.constructor | app/dns/server.js:37 | before the first datagram no request context exists and the handler is not stuck |
| Server.Dispatcher.OnMessage | app/dns/server.js:43-89 | handling a datagram updates the context, the stuck flag and the reply exactly as `Dispatch` gives; once stuck, no datagram is handled and nothing is sent |
| Server.Dispatcher.SendError | app/dns/server.js:67-88 | the catch blocks send the error reply for the current context, or nothing without one |
| Server.ErrorReplyHeader | app/dns/helpers/build_response.js:79-92 | an error reply carries the context's transaction id, OPCODE, RD and QDCOUNT with the given RCODE, and then exactly the context's questions |
| Server.StaleContext | app/dns/server.js:37-49 | a datagram that does not parse, and does not hang the label loop, leaves the context as it was and is answered with RCODE 2 under the previous request's header fields |
| Server.NoContextNoReply | app/dns/server.js:75-87 | before any request has parsed, a datagram that does not parse gets no reply |
| Server.DatagramHangs | app/helpers/parse_question.js:22-31 | a datagram whose labels run past its end sends nothing and keeps the context, and it has a question, after the ones that parse, where the label loop as written has not broken out after any number of turns |
| Server.TruncatedDatagramHangs | app/helpers/parse_question.js:22-31 | the 15-octet datagram with QDCOUNT 1 and a 3-octet label holding 2 octets hangs the handler |
| Server.ContextReplaced | app/dns/server.js:49 | a request that parses replaces the context, whatever the outcome of its response |
| Server.OpcodeRefused | app/dns/server.js:55-57 | a non-zero OPCODE is answered with RCODE 4, the OPCODE, RD and questions echoed |
| Server.ResponseSent | app/dns/server.js:60-65 | a standard query whose response builds is answered with that response |
| Server.FailureAnswered | app/dns/server.js:67-81 | a standard query whose response fails is answered with the failure's RCODE and the questions echoed |
| Server.ReplyEchoesId | app/dns/server.js:49-81 | whenever a request parses, a reply is sent and it carries the request's transaction id |
| Server.ResponseId | app/dns/helpers/build_response.js:73-76 | a built response starts with the request's transaction id |

## Left out

- Sockets, logging and app/main.js: the UDP bind, the `error` and `listening` events, every `console` call, and the canned UDP reply of app/main.js are not modelled. `udpSocket.send` is modelled as the bytes the handler returns.
- The database I/O of app/db/index.js: opening, seeding, `addRecord`, `updateRecord`, `deleteRecord` and `getAllRecords` are not modelled. The store is a fixed sequence of rows.
- Response.GetRecords: returns the matching rows in table order. SQL guarantees no order without `ORDER BY`, so the only order-related claim is that answers follow the lookup's order (`Response.RowAnswersInOrder`).
- Response.WellFormed: the responder is specified only for tables whose rows with a handled type hold text that handler can read. See TypeMappings.Readable.
- TypeMappings.FormatAAAASpec: specified only for groups that are plain numerals (TypeMappings.ReadableAAAA). A group such as `-1` reads as a negative number, which `writeUInt16BE` refuses with a RangeError, and is outside the model.
- TypeMappings.Readable: stored values are taken as ASCII, since `'ascii'` and UTF-8 agree there. Dotted A parts are decimal digits below 2^53. The numerals read by `parseInt` carry no leading white space, sign or `0x` prefix. Other text, and `Number`'s coercions (white space, exponents, `0x`), are not modelled.
- TypeMappings.FormatA: keeps the low octet of each part, as `Buffer.from` does. Parts must be decimal digits below 2^53, where `Number` is exact; larger parts, which `Number` rounds, and values outside the digit form are excluded rather than coerced.
- Question.BuildQuestion: names must be ASCII. A label longer than 255 octets keeps only the low octet of its length, as `Buffer.from([len])` does. The round trips need labels of 1 to 63 octets (RFC 1035 section 3.1), which the encoder itself does not check.
- Header.BuildHeader: requires every sub-field within its width and every word below 2^16. The source masks nothing, and out-of-range values would overlap bits or throw in `writeUInt16BE`.
- Server.Dispatcher.OnMessage: the only failure of the error reply modelled is the ReferenceError on `questions` before the first successful parse. The other values it would throw on cannot arise from a parsed request.
- Server.Dispatch / Server.Dispatcher.OnMessage: a datagram that hangs the label loop is modelled as a handler that sends nothing and then handles no further datagram. The heap growth of the spinning loop, which pushes an empty label on every turn until the process dies, is not modelled.
- Message compression (RFC 1035 section 4.1.4), EDNS and TCP: the code implements none of them.
- The `ttl` column defaults to 60 in the table definition. Rows here always carry their TTL.

## Findings

| source | as written | input that shows it | evidently intended | confidence | as-written member | corrected member |
|---|---|---|---|---|---|---|
| app/helpers/build_question.js:18 | the function is assigned to `module.export`, so `require` returns an empty object and every `buildQuestion(q)` call throws a TypeError; the legacy responder then returns its fallback header | any request with one question, e.g. codecrafters.io / A / IN | `module.exports`, together with calling `buildQuestion` with its array the way the callers pass it and the `name.split` fix of build_answer.js:31; with all three, questions are echoed and A questions answered (LegacyBuildResponse) | high, not executed | LegacyResponse.LegacyAsWrittenDiffers | LegacyResponse.LegacyBuildResponse |
| app/helpers/parse_question.js:22-31 | the label loop has no bound: past the end `buf[i]` is undefined, which is not 0, and `i += len + 1` makes the cursor NaN, so the loop never breaks; each turn pushes an empty label, so the process grows its heap until it dies, and meanwhile handles no other datagram | `[3, 97, 98]` at offset 0: a 3-octet label with 2 octets present | fail (throw) when a length octet or label runs past the buffer | high, not executed | Question.TruncatedLabelHangs | Question.ReadLabels |
| app/helpers/build_answer.js:31 | `name.spit('.')`: strings have no `spit`, so every call throws a TypeError before anything is written | any record, e.g. the test's codecrafters.io / A / IN / 60 | `name.split('.')` | high, not executed | Answer.BuildAnswerAsWritten | Answer.AnswerLayout |
| app/helpers/build_answer.js:46-58 | the class slot pushes `typeBuf`; the 4-octet TTL slot holds `rdlength` as 16 bits; RDLENGTH takes 4 octets | the test's record: the TTL slot reads 262144 for TTL 60, and the record has 33 octets instead of 31 | CLASS 16 bits, TTL `writeUInt32BE(ttl)`, RDLENGTH 16 bits | high, not executed | Answer.SlotsAsWrittenDiffer | Answer.AnswerLayout |
