/**
 * The 12-byte message header of RFC 1035 section 4.1.1, as packed by
 * app/helpers/build_header.js and unpacked by app/helpers/parse_header.js.
 * The logical value is the 13-tuple both files use, in their order.
 */
module Header {
  import opened Wire

  /** [transactionID, qr, opcode, aa, tc, rd, ra, z, rcode, qdcount, ancount, nscount, arcount] */
  datatype Fields = Fields(
    txid: nat, qr: nat, opcode: nat, aa: nat, tc: nat, rd: nat, ra: nat, z: nat, rcode: nat,
    qdcount: nat, ancount: nat, nscount: nat, arcount: nat)

  /**
   * The widths the flags word gives each sub-field, and 16 bits for the
   * words. buildHeader masks nothing, so it is only specified for these.
   */
  predicate InRange(h: Fields)
  {
    h.qr < 2 && h.opcode < 16 && h.aa < 2 && h.tc < 2 && h.rd < 2 && h.ra < 2 && h.z < 8 && h.rcode < 16 &&
    h.txid < 0x1_0000 && h.qdcount < 0x1_0000 && h.ancount < 0x1_0000 &&
    h.nscount < 0x1_0000 && h.arcount < 0x1_0000
  }

  /**
   * The flags word: QR at bit 15, OPCODE at 11-14, AA 10, TC 9, RD 8, RA 7,
   * Z 4-6, RCODE 0-3. For in-range sub-fields the bit ranges are disjoint,
   * so the source's shifts and ORs are this sum of scaled fields.
   */
  function PackFlags(h: Fields): (flags: u16)
    requires InRange(h)
  {
    h.qr * 0x8000 + h.opcode * 0x800 + h.aa * 0x400 + h.tc * 0x200 +
    h.rd * 0x100 + h.ra * 0x80 + h.z * 0x10 + h.rcode
  }

  /** buildHeader: six big-endian words at offsets 0, 2, 4, 6, 8 and 10. */
  function BuildHeader(h: Fields): (r: seq<byte>)
    requires InRange(h)
    ensures |r| == 12
    ensures r[0..2] == U16(h.txid) && r[2..4] == U16(PackFlags(h))
    ensures r[4..6] == U16(h.qdcount) && r[6..8] == U16(h.ancount)
    ensures r[8..10] == U16(h.nscount) && r[10..12] == U16(h.arcount)
  {
    U16(h.txid) + U16(PackFlags(h)) + U16(h.qdcount) + U16(h.ancount) + U16(h.nscount) + U16(h.arcount)
  }

  datatype HeaderError = BufferTooShort

  /** The eight sub-fields of a flags word, by shift and mask. */
  function UnpackFlags(flags: u16, txid: u16, qd: u16, an: u16, ns: u16, ar: u16): (h: Fields)
    ensures InRange(h)
  {
    Fields(txid,
      (flags / 0x8000) % 2, (flags / 0x800) % 16, (flags / 0x400) % 2, (flags / 0x200) % 2,
      (flags / 0x100) % 2, (flags / 0x80) % 2, (flags / 0x10) % 8, flags % 16,
      qd, an, ns, ar)
  }

  /** parseHeader: fails on fewer than 12 bytes, reads only bytes 0-11. */
  function ParseHeader(b: seq<byte>): (r: Result<Fields, HeaderError>)
    ensures r.Failure? <==> |b| < 12
    ensures r.Success? ==> InRange(r.value)
    ensures r.Success? ==>
      r.value.txid == ReadU16(b, 0) && r.value.qdcount == ReadU16(b, 4) &&
      r.value.ancount == ReadU16(b, 6) && r.value.nscount == ReadU16(b, 8) &&
      r.value.arcount == ReadU16(b, 10)
  {
    if |b| < 12 then Failure(BufferTooShort)
    else Success(UnpackFlags(ReadU16(b, 2), ReadU16(b, 0), ReadU16(b, 4), ReadU16(b, 6), ReadU16(b, 8), ReadU16(b, 10)))
  }

  lemma UnpackPack(h: Fields)
    requires InRange(h)
    ensures UnpackFlags(PackFlags(h), h.txid, h.qdcount, h.ancount, h.nscount, h.arcount) == h
  {
    var f := PackFlags(h);
    var r4 := h.z * 0x10 + h.rcode;
    var r7 := h.ra * 0x80 + r4;
    var r8 := h.rd * 0x100 + r7;
    var r9 := h.tc * 0x200 + r8;
    var r10 := h.aa * 0x400 + r9;
    var r11 := h.opcode * 0x800 + r10;
    FieldAt(f, 0x8000, 2, 0, h.qr, r11);
    FieldAt(f, 0x800, 16, h.qr, h.opcode, r10);
    FieldAt(f, 0x400, 2, h.qr * 16 + h.opcode, h.aa, r9);
    FieldAt(f, 0x200, 2, (h.qr * 16 + h.opcode) * 2 + h.aa, h.tc, r8);
    FieldAt(f, 0x100, 2, ((h.qr * 16 + h.opcode) * 2 + h.aa) * 2 + h.tc, h.rd, r7);
    FieldAt(f, 0x80, 2, (((h.qr * 16 + h.opcode) * 2 + h.aa) * 2 + h.tc) * 2 + h.rd, h.ra, r4);
    FieldAt(f, 0x10, 8, ((((h.qr * 16 + h.opcode) * 2 + h.aa) * 2 + h.tc) * 2 + h.rd) * 2 + h.ra, h.z, h.rcode);
    FieldAt(f, 1, 16, f / 16, h.rcode, 0);
  }

  lemma PackUnpack(flags: u16, txid: u16, qd: u16, an: u16, ns: u16, ar: u16)
    ensures PackFlags(UnpackFlags(flags, txid, qd, an, ns, ar)) == flags
  {
    var f: nat := flags;
    DivDiv(f, 0x10, 8);
    DivDiv(f, 0x80, 2);
    DivDiv(f, 0x100, 2);
    DivDiv(f, 0x200, 2);
    DivDiv(f, 0x400, 2);
    DivDiv(f, 0x800, 16);
    assert f / 0x8000 < 2;
  }

  /** Decoding an encoded header gives the fields back, whatever follows it. */
  lemma ParseBuild(h: Fields, rest: seq<byte>)
    requires InRange(h)
    ensures ParseHeader(BuildHeader(h) + rest) == Success(h)
  {
    var b := BuildHeader(h) + rest;
    assert b[..12] == BuildHeader(h);
    ReadU16OfU16(h.txid, b, 0);
    ReadU16OfU16(PackFlags(h), b, 2);
    ReadU16OfU16(h.qdcount, b, 4);
    ReadU16OfU16(h.ancount, b, 6);
    ReadU16OfU16(h.nscount, b, 8);
    ReadU16OfU16(h.arcount, b, 10);
    UnpackPack(h);
  }

  /**
   * Re-encoding a decoded header reproduces its first 12 bytes exactly: the
   * masks of the decoder cover all 16 bits of the flags word.
   */
  lemma BuildParse(b: seq<byte>)
    requires |b| >= 12
    ensures ParseHeader(b).Success? && BuildHeader(ParseHeader(b).value) == b[..12]
  {
    var w := ReadU16(b, 2);
    PackUnpack(w, ReadU16(b, 0), ReadU16(b, 4), ReadU16(b, 6), ReadU16(b, 8), ReadU16(b, 10));
    U16OfReadU16(b, 0);
    U16OfReadU16(b, 2);
    U16OfReadU16(b, 4);
    U16OfReadU16(b, 6);
    U16OfReadU16(b, 8);
    U16OfReadU16(b, 10);
    var r := BuildHeader(ParseHeader(b).value);
    assert r == b[0..2] + b[2..4] + b[4..6] + b[6..8] + b[8..10] + b[10..12];
  }

  /** Only bytes 0-11 are read: inputs agreeing there decode alike. */
  lemma ParseReadsTwelve(b: seq<byte>, c: seq<byte>)
    requires |b| >= 12 && |c| >= 12 && b[..12] == c[..12]
    ensures ParseHeader(b) == ParseHeader(c)
  {
    assert forall k :: 0 <= k < 12 ==> b[k] == b[..12][k] && c[k] == c[..12][k];
  }

  /** The header of the codec's own test: a response to transaction 1234 with one question and one answer. */
  lemma BuildHeaderVector()
    ensures BuildHeader(Fields(1234, 1, 0, 0, 0, 0, 0, 0, 0, 1, 1, 0, 0)) ==
      [0x04, 0xd2, 0x80, 0x00, 0x00, 0x01, 0x00, 0x01, 0x00, 0x00, 0x00, 0x00]
  {
  }
}
