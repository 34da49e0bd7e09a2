/** The S7 client (backend/tools/s7_diag.py): TPKT framing, Read Var requests and responses, tag values. */
module S7 {
  import opened ByteStream
  import opened Bytes
  import opened Wrappers

  // ----- TPKT frames (section 6 of RFC 1006) -----

  const TPKT_HEADER_LEN := 4

  /** What `RecvTpktFrame` returns on a stream of these bytes. */
  function Frame(stream: Octets): Option<Octets> {
    if |stream| < TPKT_HEADER_LEN then None
    else
      var size := U16(stream, 2);
      if size < TPKT_HEADER_LEN || |stream| < size then None else Some(stream[..size])
  }

  /** A frame may be empty behind its header; a shorter length is none. */
  lemma FrameIff(stream: Octets)
    ensures Frame(stream) != None <==> |stream| >= 4 && 4 <= U16(stream, 2) <= |stream|
    ensures Frame(stream) != None ==> Frame(stream).value == stream[..U16(stream, 2)]
  {
  }

  /** `_recv_tpkt_frame`: one frame of the length its header states, and no byte more. */
  method RecvTpktFrame(sock: Source) returns (r: Option<Octets>)
    modifies sock
    ensures r == Frame(old(sock.rest))
    ensures r != None ==> old(sock.rest) == r.value + sock.rest
  {
    ghost var bytes := sock.rest;
    var header := ReadExact(sock, TPKT_HEADER_LEN);
    if header == None {
      return None;
    }
    var totalLen := U16(header.value, 2);
    assert totalLen == U16(bytes, 2);
    if totalLen < TPKT_HEADER_LEN {
      return None;
    }
    var rest := ReadExact(sock, totalLen - TPKT_HEADER_LEN);
    if rest == None {
      return None;
    }
    assert header.value + rest.value == bytes[..totalLen];
    r := Some(header.value + rest.value);
  }

  // ----- Read Var requests -----

  datatype Kind = Bit | Byte | Word | Int | DWord | DInt | Real

  const PROTOCOL_ID := 0x32

  function SizeOf(kind: Kind): int {
    match kind
    case Bit => 1
    case Byte => 1
    case Word => 2
    case Int => 2
    case DWord => 4
    case DInt => 4
    case Real => 4
  }

  function BitAddress(kind: Kind, byteOffset: nat, bitOffset: nat): nat {
    byteOffset * 8 + if kind == Bit then bitOffset else 0
  }

  /** The three low bytes of an address, as the shifts and masks take them. */
  function PackU24(v: nat): (b: Octets)
    ensures |b| == 3
  {
    [v / 0x1_0000 % 0x100, v / 0x100 % 0x100, v % 0x100]
  }

  function U24(b: Octets, i: nat): (v: nat)
    requires i + 3 <= |b|
  {
    (b[i] as int) * 0x1_0000 + (b[i + 1] as int) * 0x100 + (b[i + 2] as int)
  }

  function ItemOf(area: byte, db: int, byteOffset: nat, bitOffset: nat, kind: Kind): (b: Octets)
    requires 0 <= db < 0x1_0000
    ensures |b| == 12
  {
    [0x12, 0x0a, 0x10, if kind == Bit then 0x01 else 0x02] + PackU16(SizeOf(kind)) + PackU16(db) + [area] +
    PackU24(BitAddress(kind, byteOffset, bitOffset))
  }

  /** `_build_read_var_request`; None where `struct.pack` raises, for a DB number that does not fit 16 bits. */
  function BuildReadVar(area: byte, db: int, byteOffset: nat, bitOffset: nat, kind: Kind): (r: Option<Octets>)
    ensures r != None <==> 0 <= db < 0x1_0000
    ensures r != None ==>
              var b := r.value;
              |b| == REQUEST_LEN && U16(b, 2) == REQUEST_LEN && U16(b, 13) == REQUEST_LEN - 17 &&
              b[22] == (if kind == Bit then 0x01 else 0x02) && U16(b, 23) == SizeOf(kind) && U16(b, 25) == db && b[27] == area &&
              b[28..31] == PackU24(BitAddress(kind, byteOffset, bitOffset))
  {
    if !(0 <= db < 0x1_0000) then None
    else
      var parameter := [0x04, 1] + ItemOf(area, db, byteOffset, bitOffset, kind);
      var header := [PROTOCOL_ID, 0x01] + PackU16(0x0000) + PackU16(0x0001) + PackU16(|parameter|) + PackU16(0x0000);
      var cotp: Octets := [0x02, 0xf0, 0x80];
      Some([0x03, 0x00] + PackU16(4 + |cotp| + |header + parameter|) + cotp + (header + parameter))
  }

  const REQUEST_LEN := 31

  /** The item, byte by byte: its size, data block, area and bit address. */
  lemma ItemIs(area: byte, db: int, byteOffset: nat, bitOffset: nat, kind: Kind)
    requires 0 <= db < 0x1_0000
    ensures var size := if kind == Bit || kind == Byte then 1 else if kind == Word || kind == Int then 2 else 4;
            var bit := byteOffset * 8 + if kind == Bit then bitOffset else 0;
            ItemOf(area, db, byteOffset, bitOffset, kind) ==
            [0x12, 0x0a, 0x10, if kind == Bit then 1 else 2] + [0, size] + [db / 256, db % 256] + [area]
            + [bit / 65536 % 256, bit / 256 % 256, bit % 256]
  {
  }

  lemma Words()
    ensures PackU16(31) == [0, 31] && PackU16(14) == [0, 14] && PackU16(0) == [0, 0] && PackU16(1) == [0, 1]
  {
  }

  /** The request around it: TPKT and COTP headers, and a job that reads one item. */
  lemma RequestIs(area: byte, db: int, byteOffset: nat, bitOffset: nat, kind: Kind)
    requires 0 <= db < 0x1_0000
    ensures BuildReadVar(area, db, byteOffset, bitOffset, kind) ==
            Some([3, 0, 0, 31] + [2, 0xf0, 0x80] + [0x32, 1, 0, 0, 0, 1, 0, 14, 0, 0] + [4, 1]
                 + ItemOf(area, db, byteOffset, bitOffset, kind))
  {
    Words();
    var item := ItemOf(area, db, byteOffset, bitOffset, kind);
    hide PackU16, ItemOf, U16;
    var parameter := [0x04, 1] + item;
    var header := [0x32, 0x01] + [0, 0] + [0, 1] + [0, 14] + [0, 0];
    var cotp: Octets := [0x02, 0xf0, 0x80];
    assert BuildReadVar(area, db, byteOffset, bitOffset, kind).value == [0x03, 0x00] + [0, 31] + cotp + (header + parameter);
    assert [0x03, 0x00] + [0, 31] == [3, 0, 0, 31] && header == [0x32, 1, 0, 0, 0, 1, 0, 14, 0, 0];
    Regroup([3, 0, 0, 31], cotp, header, [4, 1], item);
  }

  lemma Regroup(a: Octets, b: Octets, c: Octets, d: Octets, e: Octets)
    ensures a + b + (c + (d + e)) == a + b + c + d + e
  {
  }

  /** A request is read back whole from any stream that starts with it, and what follows it stays. */
  lemma RequestIsOneFrame(area: byte, db: int, byteOffset: nat, bitOffset: nat, kind: Kind, more: Octets)
    requires 0 <= db < 0x1_0000
    ensures var r := BuildReadVar(area, db, byteOffset, bitOffset, kind).value; Frame(r + more) == Some(r)
  {
    hide BuildReadVar;
    var r := BuildReadVar(area, db, byteOffset, bitOffset, kind).value;
    assert (r + more)[2] == r[2] && (r + more)[3] == r[3];
    assert (r + more)[..REQUEST_LEN] == r;
  }

  lemma U24Packed(v: nat)
    ensures U24(PackU24(v), 0) == v % 0x100_0000
  {
    var q := v / 0x1_0000;
    assert v / 0x100 % 0x100 == v % 0x1_0000 / 0x100 && v % 0x100 == v % 0x1_0000 % 0x100;
    assert v % 0x100_0000 == q % 0x100 * 0x1_0000 + v % 0x1_0000;
  }

  /**
   The address in a request is the requested bit modulo 2^24: it is the requested one exactly for byte
   offsets below 2^21, which `read_tag` does not check.
   */
  lemma AddressIff(area: byte, db: int, byteOffset: nat, bitOffset: nat, kind: Kind)
    requires 0 <= db < 0x1_0000 && bitOffset <= 7
    ensures var r := BuildReadVar(area, db, byteOffset, bitOffset, kind).value;
            U24(r[28..31], 0) == BitAddress(kind, byteOffset, bitOffset) <==> byteOffset < 0x20_0000
    ensures var r := BuildReadVar(area, db, byteOffset, bitOffset, kind).value;
            U24(r[28..31], 0) == BitAddress(kind, byteOffset, bitOffset) % 0x100_0000
  {
    hide BuildReadVar, U24, PackU24;
    U24Packed(BitAddress(kind, byteOffset, bitOffset));
  }

  /** The first byte offset that is misread: byte 2^21 of a data block is read as its byte 0. */
  lemma FarOffsetIsMisread(area: byte, db: int)
    requires 0 <= db < 0x1_0000
    ensures BuildReadVar(area, db, 0x20_0000, 0, Byte) == BuildReadVar(area, db, 0, 0, Byte)
  {
    assert PackU24(BitAddress(Byte, 0x20_0000, 0)) == PackU24(BitAddress(Byte, 0, 0));
  }

  /** Requests for different tags of the checked range differ. */
  lemma RequestsDiffer(area: byte, db: int, byteOffset: nat, bitOffset: nat, kind: Kind,
                       area': byte, db': int, byteOffset': nat, bitOffset': nat)
    requires 0 <= db < 0x1_0000 && bitOffset <= 7 && byteOffset < 0x20_0000
    requires 0 <= db' < 0x1_0000 && bitOffset' <= 7 && byteOffset' < 0x20_0000
    requires BuildReadVar(area, db, byteOffset, bitOffset, kind) == BuildReadVar(area', db', byteOffset', bitOffset', kind)
    ensures area == area' && db == db' && byteOffset == byteOffset' && (kind == Bit ==> bitOffset == bitOffset')
  {
    hide BuildReadVar, U24, PackU24;
    AddressIff(area, db, byteOffset, bitOffset, kind);
    AddressIff(area', db', byteOffset', bitOffset', kind);
  }

  // ----- Read Var responses -----

  datatype Failure =
    | NoResponse
    | ResponseType(rosctr: byte)
    | PduError(class_: byte, code: byte)
    | ShortResponse
    | ReturnCode(code: byte)
    | TruncatedData

  const SUCCESS := 0xff

  /** `_parse_read_var_response`. */
  function ParseReadVar(frame: Octets, expected: nat): Result<Octets, Failure> {
    if |frame| < 19 || frame[7] != PROTOCOL_ID then Err(NoResponse)
    else if frame[8] != 0x02 && frame[8] != 0x03 then Err(ResponseType(frame[8]))
    else if frame[17] != 0 || frame[18] != 0 then Err(PduError(frame[17], frame[18]))
    else
      var item := 19 + U16(frame, 13);
      if item + 4 > |frame| then Err(ShortResponse)
      else if frame[item] != SUCCESS then Err(ReturnCode(frame[item]))
      else
        var data := Slice(frame, item + 4, item + 4 + expected);
        if |data| < expected then Err(TruncatedData) else Ok(data)
  }

  /** An Ack_Data response: its fixed part, any parameters, and one data item. */
  datatype Response = Response(
    lead: Octets, protocolId: byte, rosctr: byte, reference: Octets, dataLength: Octets, class_: byte, code: byte,
    parameter: Octets, returnCode: byte, itemHead: Octets, data: Octets)

  ghost predicate Encodable(r: Response) {
    |r.lead| == 7 && |r.reference| == 4 && |r.dataLength| == 2 && |r.parameter| < 0x1_0000 && |r.itemHead| == 3
  }

  function Fixed(r: Response): (b: Octets)
    requires Encodable(r)
    ensures |b| == 19
  {
    r.lead + [r.protocolId, r.rosctr] + r.reference + PackU16(|r.parameter|) + r.dataLength + [r.class_, r.code]
  }

  function Encode(r: Response): (b: Octets)
    requires Encodable(r)
    ensures |b| == 23 + |r.parameter| + |r.data|
  {
    Fixed(r) + r.parameter + ([r.returnCode] + r.itemHead + r.data)
  }

  lemma FixedFields(r: Response, rest: Octets)
    requires Encodable(r)
    ensures var b := Fixed(r) + rest;
            b[7] == r.protocolId && b[8] == r.rosctr && U16(b, 13) == |r.parameter| && b[17] == r.class_ && b[18] == r.code
  {
    hide U16, PackU16;
    var pre := r.lead + [r.protocolId, r.rosctr] + r.reference;
    var post := r.dataLength + [r.class_, r.code] + rest;
    U16Packed(pre, |r.parameter|, post);
    assert Fixed(r) + rest == pre + PackU16(|r.parameter|) + post;
  }

  /**
   Every response, cut at any byte: the value is returned exactly when the response accepts the request
   and the first `expected` data bytes are there; otherwise the first thing wrong with it is reported.
   */
  lemma ParsesResponse(r: Response, k: nat, expected: nat)
    requires Encodable(r) && k <= |Encode(r)|
    ensures var item := 19 + |r.parameter|;
            ParseReadVar(Encode(r)[..k], expected) ==
            if k < 19 || r.protocolId != 50 then Err(NoResponse)
            else if r.rosctr != 2 && r.rosctr != 3 then Err(ResponseType(r.rosctr))
            else if r.class_ != 0 || r.code != 0 then Err(PduError(r.class_, r.code))
            else if k < item + 4 then Err(ShortResponse)
            else if r.returnCode != 255 then Err(ReturnCode(r.returnCode))
            else if k < item + 4 + expected then Err(TruncatedData)
            else Ok(r.data[..expected])
  {
    hide U16, Fixed;
    var rest := r.parameter + ([r.returnCode] + r.itemHead + r.data);
    var b := Encode(r);
    assert b == Fixed(r) + rest;
    FixedFields(r, rest);
    if k >= 19 {
      CutField(b, 13, k);
      var item := 19 + |r.parameter|;
      assert b[item] == r.returnCode;
      if k >= item + 4 + expected {
        assert b[..k][item + 4..item + 4 + expected] == r.data[..expected];
      }
    }
  }

  lemma CutField(b: Octets, i: nat, k: nat)
    requires i + 2 <= k <= |b|
    ensures U16(b[..k], i) == U16(b, i)
  {
  }

  // ----- Tag values -----

  /** A REAL keeps its four octets: floating point is not interpreted. */
  datatype Tag = Flag(on: bool) | Number(n: int) | Single(octets: Octets)

  function Signed(v: int, bits: int): int {
    if v >= bits / 2 then v - bits else v
  }

  /** `_decode_tag_value`. */
  function DecodeTag(kind: Kind, raw: Octets): Tag
    requires |raw| == SizeOf(kind)
  {
    match kind
    case Bit => Flag(raw[0] % 2 == 1)
    case Byte => Number(raw[0])
    case Word => Number(U16(raw, 0))
    case Int => Number(Signed(U16(raw, 0), 0x1_0000))
    case DWord => Number(U32(raw, 0))
    case DInt => Number(Signed(U32(raw, 0), 0x1_0000_0000))
    case Real => Single(raw)
  }

  ghost predicate InRange(kind: Kind, t: Tag) {
    match kind
    case Bit => t.Flag?
    case Byte => t.Number? && 0 <= t.n < 0x100
    case Word => t.Number? && 0 <= t.n < 0x1_0000
    case Int => t.Number? && -0x8000 <= t.n < 0x8000
    case DWord => t.Number? && 0 <= t.n < 0x1_0000_0000
    case DInt => t.Number? && -0x8000_0000 <= t.n < 0x8000_0000
    case Real => t.Single? && |t.octets| == 4
  }

  /** Big-endian, two's complement. */
  function EncodeTag(kind: Kind, t: Tag): (raw: Octets)
    requires InRange(kind, t)
    ensures |raw| == SizeOf(kind)
  {
    match kind
    case Bit => [if t.on then 1 else 0]
    case Byte => [t.n]
    case Word => PackU16(t.n)
    case Int => PackU16(if t.n < 0 then t.n + 0x1_0000 else t.n)
    case DWord => PackU32(t.n)
    case DInt => PackU32(if t.n < 0 then t.n + 0x1_0000_0000 else t.n)
    case Real => t.octets
  }

  /** Every value in its type's range has an encoding, which decodes to it. */
  lemma TagRoundTrip(kind: Kind, t: Tag)
    requires InRange(kind, t)
    ensures DecodeTag(kind, EncodeTag(kind, t)) == t
  {
    hide U16, U32, PackU16, PackU32;
    if kind == DWord || kind == DInt {
      var v := if t.n < 0 then t.n + 0x1_0000_0000 else t.n;
      U32Packed([], v, []);
      assert [] + PackU32(v) + [] == PackU32(v);
    }
  }

  /** And decoding always lands in the range; for all types but BIT no two encodings mean the same. */
  lemma TagInverse(kind: Kind, raw: Octets)
    requires |raw| == SizeOf(kind)
    ensures InRange(kind, DecodeTag(kind, raw))
    ensures if kind == Bit then DecodeTag(kind, raw) == Flag(raw[0] % 2 == 1) else EncodeTag(kind, DecodeTag(kind, raw)) == raw
  {
    match kind {
      case Bit =>
      case Byte =>
      case Word => PackUnpack16(raw, 0);
      case Int => PackUnpack16(raw, 0);
      case DWord => PackUnpack32(raw);
      case DInt => PackUnpack32(raw);
      case Real =>
    }
  }

  lemma PackUnpack16(raw: Octets, i: nat)
    requires i + 2 <= |raw|
    ensures PackU16(U16(raw, i)) == raw[i..i + 2]
  {
  }

  lemma PackUnpack32(raw: Octets)
    requires |raw| == 4
    ensures PackU32(U32(raw, 0)) == raw
  {
    hide U16, PackU16;
    PackUnpack16(raw, 0);
    PackUnpack16(raw, 2);
    assert raw[0..2] + raw[2..4] == raw;
  }

  /** Reading a tag: a response that carries the value yields the value. */
  lemma ReadTagRoundTrip(kind: Kind, t: Tag, r: Response, more: Octets)
    requires InRange(kind, t) && Encodable(r) && r.data == EncodeTag(kind, t) + more
    requires r.protocolId == 50 && (r.rosctr == 2 || r.rosctr == 3) && r.class_ == 0 && r.code == 0 && r.returnCode == 255
    ensures ParseReadVar(Encode(r), SizeOf(kind)) == Ok(EncodeTag(kind, t))
    ensures DecodeTag(kind, ParseReadVar(Encode(r), SizeOf(kind)).value) == t
  {
    hide Encode, ParseReadVar, DecodeTag, EncodeTag, InRange;
    assert Encode(r)[..|Encode(r)|] == Encode(r);
    ParsesResponse(r, |Encode(r)|, SizeOf(kind));
    assert r.data[..SizeOf(kind)] == EncodeTag(kind, t);
    TagRoundTrip(kind, t);
  }
}
