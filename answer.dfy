/**
 * Resource records (RFC 1035 section 4.1.3) as app/helpers/build_answer.js
 * is meant to write them: the owner name in full, TYPE, CLASS, a 32-bit
 * TTL, RDLENGTH and RDATA. The layout is the one the codec's tests pin; the
 * file as written departs from it line by line, and the members at the end
 * of this module model those lines as they stand.
 */
module Answer {
  import opened Wire
  import opened Text
  import opened Question
  import opened Errors

  /** [name, qtype, qclass, ttl, rdlength, rdata] */
  datatype Record = Record(name: string, rtype: u16, rclass: u16, ttl: u32, rdlength: u16, rdata: seq<byte>)

  /** The record on the wire: name, TYPE, CLASS, TTL, RDLENGTH, then RDATA verbatim. */
  function EncodeAnswer(a: Record): (r: seq<byte>)
    requires IsAscii(a.name)
  {
    EncodeName(a.name) + U16(a.rtype) + U16(a.rclass) + U32(a.ttl) + U16(a.rdlength) + a.rdata
  }

  /**
   * buildAnswer: the label loop fills nameBufs, the terminator closes the
   * name, and the five fixed fields and RDATA follow in buf.
   */
  method BuildAnswer(a: Record) returns (r: seq<byte>)
    requires IsAscii(a.name)
    ensures r == EncodeAnswer(a)
  {
    var nameParts := Split(a.name, '.');
    SplitAscii(a.name, '.');
    var nameBufs: seq<seq<byte>> := [];
    for k := 0 to |nameParts|
      invariant Concat(nameBufs) == EncodeLabels(nameParts[..k])
    {
      var len := |nameParts[k]| % 0x100;
      var bytes := AsciiBytes(nameParts[k]);
      ConcatAppend(nameBufs, [[len], bytes]);
      Concat2([len], bytes);
      EncodeLabelsSnoc(nameParts, k);
      nameBufs := nameBufs + [[len], bytes];
    }
    assert nameParts[..|nameParts|] == nameParts;
    ConcatPush(nameBufs, [0]);
    nameBufs := nameBufs + [[0]];
    var buf: seq<seq<byte>> := [Concat(nameBufs)];
    assert Concat(buf) == Concat(nameBufs) + Concat([]);
    ConcatPush(buf, U16(a.rtype));
    buf := buf + [U16(a.rtype)];
    ConcatPush(buf, U16(a.rclass));
    buf := buf + [U16(a.rclass)];
    ConcatPush(buf, U32(a.ttl));
    buf := buf + [U32(a.ttl)];
    ConcatPush(buf, U16(a.rdlength));
    buf := buf + [U16(a.rdlength)];
    ConcatPush(buf, a.rdata);
    buf := buf + [a.rdata];
    r := Concat(buf);
  }

  /**
   * Where each field sits: after a name encoding of n bytes, TYPE at n,
   * CLASS at n + 2, TTL at n + 4, RDLENGTH at n + 8 and RDATA from n + 10 to
   * the end. RDLENGTH is the caller's value, whatever the length of RDATA.
   */
  lemma AnswerLayout(a: Record)
    requires IsAscii(a.name)
    ensures var r, n := EncodeAnswer(a), |EncodeName(a.name)|;
      |r| == n + 10 + |a.rdata| &&
      r[..n] == EncodeName(a.name) &&
      ReadU16(r, n) == a.rtype && ReadU16(r, n + 2) == a.rclass &&
      ReadU32(r, n + 4) == a.ttl && ReadU16(r, n + 8) == a.rdlength &&
      r[n + 10..] == a.rdata
  {
    var r, n := EncodeAnswer(a), |EncodeName(a.name)|;
    assert r[n..n + 2] == U16(a.rtype);
    assert r[n + 2..n + 4] == U16(a.rclass);
    assert r[n + 4..n + 8] == U32(a.ttl);
    assert r[n + 8..n + 10] == U16(a.rdlength);
    ReadU16OfU16(a.rtype, r, n);
    ReadU16OfU16(a.rclass, r, n + 2);
    ReadU32OfU32(a.ttl, r, n + 4);
    ReadU16OfU16(a.rdlength, r, n + 8);
  }

  /** The owner name of a record reads back with the question parser's label loop. */
  lemma AnswerNameParses(a: Record, suffix: seq<byte>)
    requires ValidName(a.name)
    ensures ParseQuestionAt(EncodeAnswer(a) + suffix, 0) ==
      Success(Parsed(Question(a.name, a.rtype, a.rclass), |EncodeName(a.name)| + 4))
  {
    var q := Question(a.name, a.rtype, a.rclass);
    var rest := U32(a.ttl) + U16(a.rdlength) + a.rdata + suffix;
    assert EncodeAnswer(a) + suffix == [] + EncodeQuestion(q) + rest;
    ParseEncoded([], q, rest);
  }

  /** A list of records written one after another. */
  function EncodeAnswers(rs: seq<Record>): (r: seq<byte>)
    requires forall k :: 0 <= k < |rs| ==> IsAscii(rs[k].name)
  {
    if rs == [] then [] else EncodeAnswer(rs[0]) + EncodeAnswers(rs[1..])
  }

  /** The size of a record: its name encoding, ten fixed octets, and RDATA. */
  function AnswerSize(a: Record): nat
    requires IsAscii(a.name)
  {
    LabelsSize(Split(a.name, '.')) + 1 + 10 + |a.rdata|
  }

  function AnswersSize(rs: seq<Record>): nat
    requires forall k :: 0 <= k < |rs| ==> IsAscii(rs[k].name)
  {
    if rs == [] then 0 else AnswerSize(rs[0]) + AnswersSize(rs[1..])
  }

  /** Concatenated records take the sum of their sizes. */
  lemma {:induction false} AnswersLength(rs: seq<Record>)
    requires forall k :: 0 <= k < |rs| ==> IsAscii(rs[k].name)
    ensures |EncodeAnswers(rs)| == AnswersSize(rs)
  {
    if rs != [] {
      AnswerLayout(rs[0]);
      SplitAscii(rs[0].name, '.');
      EncodeLabelsLength(Split(rs[0].name, '.'));
      AnswersLength(rs[1..]);
    }
  }

  lemma TwoLabelsSize(x: string, y: string)
    ensures LabelsSize([x, y]) == 2 + |x| + |y|
  {
    assert [x, y][1..] == [y];
    assert [y][1..] == [];
    assert LabelsSize([y]) == 1 + |y|;
  }

  lemma NameSize(name: string, labels: seq<string>)
    requires IsAscii(name) && Split(name, '.') == labels
    ensures |EncodeName(name)| == LabelsSize(labels) + 1
  {
    SplitAscii(name, '.');
    EncodeLabelsLength(labels);
  }

  lemma ExampleComLabels(name: string)
    requires name == "example.com"
    ensures Split(name, '.') == ["example", "com"]
  {
    assert Join(["example", "com"], '.') == name;
    SplitJoin(["example", "com"], '.');
  }

  lemma ExampleComName(name: string)
    requires name == "example.com"
    ensures IsAscii(name) && |EncodeName(name)| == 13
  {
    var labels := ["example", "com"];
    assert IsAscii(name);
    ExampleComLabels(name);
    TwoLabelsSize("example", "com");
    NameSize(name, labels);
  }

  /** example.com takes 13 octets, so TYPE is at 13, CLASS at 15, TTL at 17 and RDLENGTH at 21. */
  lemma ExampleComOffsets(a: Record)
    requires a.name == "example.com"
    ensures IsAscii(a.name) && |EncodeName(a.name)| == 13
    ensures var r := EncodeAnswer(a);
      ReadU16(r, 13) == a.rtype && ReadU16(r, 15) == a.rclass &&
      ReadU32(r, 17) == a.ttl && ReadU16(r, 21) == a.rdlength
  {
    assert IsAscii(a.name) && |EncodeName(a.name)| == 13 by {
      ExampleComName(a.name);
    }
    AnswerLayout(a);
  }

  lemma FixedFieldsVector(a: Record, n: seq<byte>)
    requires IsAscii(a.name) && EncodeName(a.name) == n
    requires a.rtype == 1 && a.rclass == 1 && a.ttl == 60 && a.rdlength == 4
    ensures EncodeAnswer(a) == n + [0, 1, 0, 1, 0, 0, 0, 60, 0, 4] + a.rdata
  {
    assert U16(1) == [0, 1] && U32(60) == [0, 0, 0, 60] && U16(4) == [0, 4];
  }

  /** The record of the codec's own test: codecrafters.io, A, IN, TTL 60, 172.66.144.113, in 31 octets. */
  lemma EncodeAnswerVector(name: string)
    requires name == "codecrafters.io"
    ensures IsAscii(name)
    ensures EncodeAnswer(Record(name, 1, 1, 60, 4, [172, 66, 144, 113])) ==
      CodecraftersIo + [0, 1, 0, 1, 0, 0, 0, 60, 0, 4] + [172, 66, 144, 113]
  {
    CodecraftersName(name);
    FixedFieldsVector(Record(name, 1, 1, 60, 4, [172, 66, 144, 113]), CodecraftersIo);
  }

  // ---------------------------------------------------------------------
  // The file as written

  /**
   * Line 31 calls name.spit, which strings do not have: every call throws
   * a TypeError before anything is written.
   */
  function BuildAnswerAsWritten(a: Record): (r: Result<seq<byte>, Exception>)
    ensures r == Failure(TypeError)
  {
    Failure(TypeError)
  }

  /**
   * What the remaining lines write once the name is split: the class slot
   * pushes typeBuf (line 48), the TTL slot holds RDLENGTH as 16 bits in a
   * 4-octet buffer (line 52), and RDLENGTH itself takes 4 octets (lines 56-57).
   */
  function SlotsAsWritten(a: Record): (r: seq<byte>)
    requires IsAscii(a.name)
  {
    EncodeName(a.name) + U16(a.rtype) + U16(a.rtype) + (U16(a.rdlength) + [0, 0]) + (U16(a.rdlength) + [0, 0]) + a.rdata
  }

  /**
   * The slots as written lose CLASS and TTL and are two octets longer than
   * the record layout, so they never agree with it.
   */
  lemma SlotsAsWrittenDiffer(a: Record)
    requires IsAscii(a.name)
    ensures var r, n := SlotsAsWritten(a), |EncodeName(a.name)|;
      |r| == |EncodeAnswer(a)| + 2 &&
      ReadU16(r, n + 2) == a.rtype &&
      ReadU32(r, n + 4) == a.rdlength * 0x1_0000 &&
      ReadU16(r, n + 8) == a.rdlength && ReadU16(r, n + 10) == 0
    ensures SlotsAsWritten(a) != EncodeAnswer(a)
  {
    var r, n := SlotsAsWritten(a), |EncodeName(a.name)|;
    AnswerLayout(a);
    assert r[n + 2..n + 4] == U16(a.rtype);
    ReadU16OfU16(a.rtype, r, n + 2);
    assert r[n + 8..n + 10] == U16(a.rdlength);
    ReadU16OfU16(a.rdlength, r, n + 8);
    assert r[n + 4] == U16(a.rdlength)[0] && r[n + 5] == U16(a.rdlength)[1];
    assert r[n + 10] == 0 && r[n + 11] == 0;
  }

  /** On the test's record the TTL slot as written reads 262144 where 60 is expected. */
  lemma SlotsAsWrittenVector(name: string)
    requires name == "codecrafters.io"
    ensures IsAscii(name)
    ensures var r := SlotsAsWritten(Record(name, 1, 1, 60, 4, [172, 66, 144, 113]));
      |r| == 33 && ReadU32(r, 21) == 262144
  {
    var a := Record(name, 1, 1, 60, 4, [172, 66, 144, 113]);
    assert IsAscii(name) && |EncodeName(name)| == 17 by {
      CodecraftersName(name);
    }
    SlotsAsWrittenDiffer(a);
  }
}
