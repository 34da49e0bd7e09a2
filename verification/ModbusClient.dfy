/**
 The Modbus TCP client (backend/tools/modbus.py): frames, decoding of coils and registers, and the
 loop that collects the objects of a device identification.  ASCII decoding is a parameter.
 */
module ModbusClient {
  import opened ByteStream
  import opened Bytes
  import opened Wrappers

  // ----- Frames -----

  const MBAP_LEN := 7
  const TRANSACTIONS := 0x1_0000

  /** Why no usable response body was read. */
  datatype Failure = NoResponse | TransactionId | Incomplete | FunctionCode | Malformed

  /** How many bytes behind the header belong to the response. */
  function BodyLen(header: Octets): nat
    requires |header| >= MBAP_LEN
  {
    if U16(header, 4) == 0 then 0 else U16(header, 4) - 1
  }

  /** The body of the response at the front of a stream. */
  function Body(stream: Octets, transactionId: int): Result<Octets, Failure> {
    if |stream| < MBAP_LEN then Err(NoResponse)
    else if U16(stream, 0) != transactionId then Err(TransactionId)
    else
      var n := BodyLen(stream);
      if n == 0 || |stream| < MBAP_LEN + n then Err(Incomplete) else Ok(stream[MBAP_LEN..MBAP_LEN + n])
  }

  /** The two exact reads of `read` and `read_device_identification`. */
  method ReadBody(sock: Source, transactionId: int) returns (r: Result<Octets, Failure>)
    modifies sock
    ensures r == Body(old(sock.rest), transactionId)
    ensures r.Ok? ==> sock.rest == old(sock.rest)[MBAP_LEN + |r.value|..]
  {
    ghost var bytes := sock.rest;
    var header := ReadExact(sock, MBAP_LEN);
    if header == None {
      return Err(NoResponse);
    }
    var h := header.value;
    assert U16(h, 0) == U16(bytes, 0) && U16(h, 4) == U16(bytes, 4);
    if U16(h, 0) != transactionId {
      return Err(TransactionId);
    }
    var body := ReadExact(sock, BodyLen(h));
    if body == None || |body.value| < 1 {
      return Err(Incomplete);
    }
    assert body.value == bytes[MBAP_LEN..MBAP_LEN + |body.value|];
    assert bytes[MBAP_LEN..][|body.value|..] == bytes[MBAP_LEN + |body.value|..];
    r := Ok(body.value);
  }

  function Adu(transactionId: int, unit: byte, body: Octets): (b: Octets)
    requires 0 <= transactionId < TRANSACTIONS && |body| < 0xffff
    ensures |b| == MBAP_LEN + |body|
  {
    PackU16(transactionId) + PackU16(0) + PackU16(|body| + 1) + [unit] + body
  }

  /** A response cut anywhere, or followed by anything. */
  lemma BodyOfAdu(transactionId: int, unit: byte, body: Octets, more: Octets, k: nat)
    requires 0 <= transactionId < TRANSACTIONS && 1 <= |body| < 0xffff && k <= |Adu(transactionId, unit, body) + more|
    ensures Body((Adu(transactionId, unit, body) + more)[..k], transactionId) ==
            if k < MBAP_LEN then Err(NoResponse) else if k < MBAP_LEN + |body| then Err(Incomplete) else Ok(body)
  {
    hide U16, PackU16;
    var b := Adu(transactionId, unit, body) + more;
    var rest := [unit] + body + more;
    U16Packed([], transactionId, PackU16(0) + PackU16(|body| + 1) + rest);
    U16Packed(PackU16(transactionId) + PackU16(0), |body| + 1, rest);
    assert b == [] + PackU16(transactionId) + (PackU16(0) + PackU16(|body| + 1) + rest);
    assert b == (PackU16(transactionId) + PackU16(0)) + PackU16(|body| + 1) + rest;
    if k >= MBAP_LEN {
      CutField(b, 0, k);
      CutField(b, 4, k);
      if k >= MBAP_LEN + |body| {
        assert b == (PackU16(transactionId) + PackU16(0) + PackU16(|body| + 1) + [unit]) + body + more;
        assert b[MBAP_LEN..MBAP_LEN + |body|] == body;
        assert b[..k][MBAP_LEN..MBAP_LEN + |body|] == b[MBAP_LEN..MBAP_LEN + |body|];
      }
    }
  }

  /** A length that leaves no room for a function code is a fault, and no more is read. */
  lemma NoRoomIsFault(stream: Octets, transactionId: int)
    requires |stream| >= 7 && U16(stream, 0) == transactionId && U16(stream, 4) <= 1
    ensures Body(stream, transactionId) == Err(Incomplete) && BodyLen(stream) == 0
  {
  }

  lemma CutField(b: Octets, i: nat, k: nat)
    requires i + 2 <= k <= |b|
    ensures U16(b[..k], i) == U16(b, i)
  {
  }

  lemma BodyOfWholeAdu(transactionId: int, unit: byte, body: Octets, more: Octets)
    requires 0 <= transactionId < TRANSACTIONS && 1 <= |body| < 0xffff
    ensures Body(Adu(transactionId, unit, body) + more, transactionId) == Ok(body)
    ensures (Adu(transactionId, unit, body) + more)[MBAP_LEN + |body|..] == more
  {
    hide Body, Adu;
    var b := Adu(transactionId, unit, body) + more;
    assert b[..|b|] == b;
    BodyOfAdu(transactionId, unit, body, more, |b|);
  }

  class Transactions {
    var last: nat

    constructor ()
      ensures last == 0
    {
      last := 0;
    }

    /** `_next_transaction_id`. */
    method Next() returns (id: nat)
      modifies this
      ensures id == last == (old(last) + 1) % TRANSACTIONS
    {
      last := (last + 1) % TRANSACTIONS;
      id := last;
    }
  }

  /** The id of the `k`-th request after the one with id `last`. */
  function IdAfter(last: nat, k: nat): nat {
    if k == 0 then last else (IdAfter(last, k - 1) + 1) % TRANSACTIONS
  }

  lemma {:induction false} IdAfterIs(last: nat, k: nat)
    requires last < TRANSACTIONS
    ensures IdAfter(last, k) == (last + k) % TRANSACTIONS
    decreases k
  {
    if k > 0 {
      IdAfterIs(last, k - 1);
    }
  }

  lemma SameRemainderIff(a: nat, b: nat)
    ensures a % TRANSACTIONS == b % TRANSACTIONS <==> (b - a) % TRANSACTIONS == 0
  {
    var q, r := b / TRANSACTIONS - a / TRANSACTIONS, b % TRANSACTIONS - a % TRANSACTIONS;
    assert b - a == q * TRANSACTIONS + r;
  }

  /** Two requests share an id exactly when a multiple of 65536 requests lies between them. */
  lemma IdsRepeatIff(last: nat, i: nat, j: nat)
    requires last < TRANSACTIONS
    ensures IdAfter(last, i) == IdAfter(last, j) <==> (j - i) % TRANSACTIONS == 0
  {
    hide IdAfter;
    IdAfterIs(last, i);
    IdAfterIs(last, j);
    SameRemainderIff(last + i, last + j);
    assert (last + j) - (last + i) == j - i;
  }

  // ----- Reading coils and registers -----

  datatype Values = Coils(bits: seq<bool>) | Registers(words: seq<int>)

  datatype Outcome = Read(values: Values) | Exception(code: Option<byte>) | Failed(why: Failure)

  predicate ReadsBits(functionCode: int) {
    functionCode == 1 || functionCode == 2
  }

  datatype Refusal = HostRequired | FunctionCodeRange | UnitRange | AddressRange | QuantityRange | PortRange

  function MaxQuantity(functionCode: int): int {
    if ReadsBits(functionCode) then 2000 else 125
  }

  /** The checks of `read`, in their order; the host is stripped already. */
  function Refused(host: string, unitId: int, functionCode: int, address: int, quantity: int, port: int): Option<Refusal> {
    if host == "" then Some(HostRequired)
    else if !(1 <= functionCode <= 4) then Some(FunctionCodeRange)
    else if !(0 <= unitId <= 255) then Some(UnitRange)
    else if !(0 <= address <= 0xffff) then Some(AddressRange)
    else if !(1 <= quantity <= MaxQuantity(functionCode)) then Some(QuantityRange)
    else if !(1 <= port <= 65535) then Some(PortRange)
    else None
  }

  /** What is accepted, and the first fault of what is not. */
  lemma RefusedIff(host: string, unitId: int, functionCode: int, address: int, quantity: int, port: int)
    ensures var r := Refused(host, unitId, functionCode, address, quantity, port);
            var named, coded, unit := host != "", functionCode in {1, 2, 3, 4}, 0 <= unitId <= 255;
            var addressed, sized := 0 <= address <= 65535, 1 <= quantity <= (if functionCode in {1, 2} then 2000 else 125);
            && (r == None <==> named && coded && unit && addressed && sized && 1 <= port <= 65535)
            && (r == Some(HostRequired) <==> !named)
            && (r == Some(FunctionCodeRange) <==> named && !coded)
            && (r == Some(UnitRange) <==> named && coded && !unit)
            && (r == Some(AddressRange) <==> named && coded && unit && !addressed)
            && (r == Some(QuantityRange) <==> named && coded && unit && addressed && !sized)
  {
  }

  /** `v & (1 << k)`, for a byte. */
  predicate Bit(v: nat, k: nat) {
    if k == 0 then v % 2 == 1 else Bit(v / 2, k - 1)
  }

  function UnpackCoils(data: Octets, quantity: nat): seq<bool> {
    var n := if quantity <= 8 * |data| then quantity else 8 * |data|;
    seq(n, i requires 0 <= i < n => Bit(data[i / 8], i % 8))
  }

  function UnpackRegisters(data: Octets): seq<int> {
    seq(|data| / 2, i requires 0 <= i < |data| / 2 => U16(data, 2 * i))
  }

  /** What `read` makes of a response body. */
  function Decode(body: Octets, functionCode: int, quantity: nat): Outcome
    requires body != []
  {
    if body[0] >= 0x80 then Exception(if |body| > 1 then Some(body[1]) else None)
    else if (body[0] as int) != functionCode then Failed(FunctionCode)
    else if |body| < 2 then Failed(Malformed)
    else
      var data := Slice(body, 2, 2 + (body[1] as int));
      if ReadsBits(functionCode) then Read(Coils(UnpackCoils(data, quantity))) else Read(Registers(UnpackRegisters(data)))
  }

  /** What `read` makes of all that the device sends. */
  function Received(stream: Octets, transactionId: int, functionCode: int, quantity: nat): Outcome {
    match Body(stream, transactionId)
    case Err(e) => Failed(e)
    case Ok(body) => if body == [] then Failed(Incomplete) else Decode(body, functionCode, quantity)
  }

  /** The part of `read` behind the connection: one request, one response. */
  method ReadValues(sock: Source, ids: Transactions, functionCode: int, quantity: nat) returns (r: Outcome)
    requires ids.last < TRANSACTIONS
    modifies sock, ids
    ensures ids.last == (old(ids.last) + 1) % TRANSACTIONS
    ensures r == Received(old(sock.rest), ids.last, functionCode, quantity)
  {
    var id := ids.Next();
    var body := ReadBody(sock, id);
    match body {
      case Err(e) => r := Failed(e);
      case Ok(b) => r := Decode(b, functionCode, quantity);
    }
  }

  /** The coils of one byte, the first in the least significant bit. */
  function PackByte(bits: seq<bool>): (v: nat)
  {
    if bits == [] then 0 else (if bits[0] then 1 else 0) + 2 * PackByte(bits[1..])
  }

  function Power2(n: nat): nat {
    if n == 0 then 1 else 2 * Power2(n - 1)
  }

  lemma {:induction false} PackByteFits(bits: seq<bool>)
    ensures PackByte(bits) < Power2(|bits|)
    decreases |bits|
  {
    if bits != [] {
      PackByteFits(bits[1..]);
    }
  }

  lemma ByteFits(bits: seq<bool>)
    requires |bits| <= 8
    ensures PackByte(bits) < 256
  {
    PackByteFits(bits);
    assert Power2(8) == 256 by {
      assert Power2(4) == 16;
    }
    PowerGrows(|bits|, 8);
  }

  lemma {:induction false} PowerGrows(a: nat, b: nat)
    requires a <= b
    ensures Power2(a) <= Power2(b)
    decreases b - a
  {
    if a < b {
      PowerGrows(a, b - 1);
    }
  }

  lemma {:induction false} BitOfPacked(bits: seq<bool>, k: nat)
    requires k < |bits|
    ensures Bit(PackByte(bits), k) == bits[k]
    decreases k
  {
    if k > 0 {
      BitOfPacked(bits[1..], k - 1);
    }
  }

  function PackCoils(bits: seq<bool>): (b: Octets)
    ensures |b| == (|bits| + 7) / 8
    decreases |bits|
  {
    if bits == [] then []
    else if |bits| <= 8 then
      ByteFits(bits);
      [PackByte(bits)]
    else
      ByteFits(bits[..8]);
      [PackByte(bits[..8])] + PackCoils(bits[8..])
  }

  lemma {:induction false} PackedCoil(bits: seq<bool>, i: nat)
    requires i < |bits|
    ensures Bit(PackCoils(bits)[i / 8], i % 8) == bits[i]
    decreases |bits|
  {
    hide Bit, PackByte;
    if |bits| <= 8 {
      if i < 8 {
        BitOfPacked(bits, i);
      }
    } else if i < 8 {
      BitOfPacked(bits[..8], i);
    } else {
      PackedCoil(bits[8..], i - 8);
      assert (i - 8) / 8 == i / 8 - 1 && (i - 8) % 8 == i % 8;
    }
  }

  /** Coils come back in order, as many as were asked for; of a cut response, those its bytes hold. */
  lemma CoilsOfCut(bits: seq<bool>, k: nat)
    requires k <= |PackCoils(bits)|
    ensures UnpackCoils(PackCoils(bits)[..k], |bits|) == if 8 * k < |bits| then bits[..8 * k] else bits
  {
    hide Bit, PackCoils;
    var data := PackCoils(bits)[..k];
    var n := if |bits| <= 8 * k then |bits| else 8 * k;
    forall i | 0 <= i < n
      ensures UnpackCoils(data, |bits|)[i] == bits[i]
    {
      PackedCoil(bits, i);
    }
  }

  predicate AreWords(words: seq<int>) {
    forall i :: 0 <= i < |words| ==> 0 <= words[i] < 0x1_0000
  }

  function PackRegisters(words: seq<int>): (b: Octets)
    requires AreWords(words)
    ensures |b| == 2 * |words|
  {
    if words == [] then [] else PackU16(words[0]) + PackRegisters(words[1..])
  }

  lemma {:induction false} PackedRegister(words: seq<int>, i: nat)
    requires AreWords(words)
    requires i < |words|
    ensures U16(PackRegisters(words), 2 * i) == words[i]
    decreases |words|
  {
    if i > 0 {
      PackedRegister(words[1..], i - 1);
    }
  }

  lemma RegistersOfCut(words: seq<int>, k: nat)
    requires AreWords(words)
    requires k <= |PackRegisters(words)|
    ensures UnpackRegisters(PackRegisters(words)[..k]) == words[..k / 2]
  {
    hide U16, PackRegisters;
    var data := PackRegisters(words)[..k];
    forall i | 0 <= i < k / 2
      ensures UnpackRegisters(data)[i] == words[i]
    {
      PackedRegister(words, i);
      CutField(PackRegisters(words), 2 * i, k);
    }
  }

  lemma RegistersOfWhole(words: seq<int>)
    requires AreWords(words)
    ensures UnpackRegisters(PackRegisters(words)) == words
  {
    hide UnpackRegisters, PackRegisters;
    var data := PackRegisters(words);
    RegistersOfCut(words, |data|);
    assert data[..|data|] == data && words[..|words|] == words;
  }

  lemma CoilsOfWhole(bits: seq<bool>)
    ensures UnpackCoils(PackCoils(bits), |bits|) == bits
  {
    hide UnpackCoils, PackCoils;
    var data := PackCoils(bits);
    CoilsOfCut(bits, |data|);
    assert data[..|data|] == data;
  }

  /** The response to a read: function code, byte count, data. */
  function ReadResponse(functionCode: byte, data: Octets): Octets
    requires |data| < 256
  {
    [functionCode, |data|] + data
  }

  /** What the byte count does not cover is ignored. */
  lemma DecodesResponse(functionCode: byte, data: Octets, surplus: Octets, quantity: nat)
    requires |data| < 256 && functionCode < 0x80
    ensures Decode(ReadResponse(functionCode, data) + surplus, functionCode, quantity) ==
            Read(if functionCode in {1, 2} then Coils(UnpackCoils(data, quantity)) else Registers(UnpackRegisters(data)))
  {
    hide UnpackCoils, UnpackRegisters;
    var body := ReadResponse(functionCode, data) + surplus;
    assert body[2..2 + |data|] == data;
  }

  /**
   Over the wire, whatever follows the response: a first byte with the high bit set is a Modbus exception with
   the code behind it, if there is one; another function code than the one asked for, a response without a
   byte count, and another transaction id are faults; everything else is data.
   */
  lemma FirstByteDecides(transactionId: int, unit: byte, functionCode: byte, body: Octets, more: Octets, asked: int, quantity: nat)
    requires 0 <= transactionId < TRANSACTIONS && 1 <= functionCode <= 4 && 1 <= |body| < 0xffff
    ensures var r := Received(Adu(transactionId, unit, body) + more, asked, functionCode, quantity);
            && (asked != transactionId <==> r == Failed(TransactionId))
            && (asked == transactionId ==>
                  && (body[0] >= 128 <==> r.Exception?)
                  && (body[0] >= 128 && |body| == 1 ==> r == Exception(None))
                  && (body[0] >= 128 && |body| > 1 ==> r == Exception(Some(body[1])))
                  && (body[0] < 128 && body[0] != functionCode <==> r == Failed(FunctionCode))
                  && (body == [functionCode] <==> r == Failed(Malformed))
                  && (body[0] == functionCode && |body| > 1 <==> r.Read?))
  {
    hide U16, PackU16, UnpackCoils, UnpackRegisters;
    var b := Adu(transactionId, unit, body) + more;
    BodyOfWholeAdu(transactionId, unit, body, more);
    U16Packed([], transactionId, PackU16(0) + PackU16(|body| + 1) + [unit] + body + more);
    assert b == [] + PackU16(transactionId) + (PackU16(0) + PackU16(|body| + 1) + [unit] + body + more);
  }

  /** Of a response cut short, nothing is made. */
  lemma CutIsFault(transactionId: int, unit: byte, functionCode: int, body: Octets, k: nat, quantity: nat)
    requires 0 <= transactionId < TRANSACTIONS && 1 <= |body| < 0xffff && k < |Adu(transactionId, unit, body)|
    ensures Received(Adu(transactionId, unit, body)[..k], transactionId, functionCode, quantity) ==
            Failed(if k < 7 then NoResponse else Incomplete)
  {
    hide Adu, Body, Decode;
    assert Adu(transactionId, unit, body) + [] == Adu(transactionId, unit, body);
    BodyOfAdu(transactionId, unit, body, [], k);
  }

  // ----- What a caller is told -----

  /** How a call of `read` ends. */
  datatype Ending =
    | Answer(outcome: Outcome)
    | TimedOut
    | ConnectionRefused(port: nat)
    | OsError(text: string)

  /** `_EXCEPTION_MESSAGES`. */
  function ExceptionText(code: Option<byte>): string {
    match code
    case None => "code None"
    case Some(c) =>
      if c == 1 then "Illegal Function"
      else if c == 2 then "Illegal Data Address"
      else if c == 3 then "Illegal Data Value"
      else if c == 4 then "Slave Device Failure"
      else if c == 5 then "Acknowledge"
      else if c == 6 then "Slave Device Busy"
      else if c == 8 then "Memory Parity Error"
      else if c == 10 then "Gateway Path Unavailable"
      else if c == 11 then "Gateway Target Device Failed to Respond"
      else "code " + Decimal(c)
  }

  lemma ExceptionTexts()
    ensures var codes := [1, 2, 3, 4, 5, 6, 8, 10, 11];
            var texts := ["Illegal Function", "Illegal Data Address", "Illegal Data Value", "Slave Device Failure", "Acknowledge",
                          "Slave Device Busy", "Memory Parity Error", "Gateway Path Unavailable",
                          "Gateway Target Device Failed to Respond"];
            && (forall i :: 0 <= i < |codes| ==> ExceptionText(Some(codes[i])) == texts[i])
            && (forall c: byte :: c !in codes ==> ExceptionText(Some(c)) == "code " + Decimal(c))
  {
    hide Decimal;
  }

  function FailureText(why: Failure): string {
    match why
    case NoResponse => "no response (connection closed)"
    case TransactionId => "unexpected transaction ID in response"
    case Incomplete => "incomplete response"
    case FunctionCode => "unexpected function code in response"
    case Malformed => "malformed response"
  }

  /** The message of the result; a successful one has none. */
  function Message(e: Ending): Option<string> {
    match e
    case TimedOut => Some("timeout -- no response from device")
    case ConnectionRefused(port) => Some("connection refused -- port " + Decimal(port) + " not open")
    case OsError(text) => Some(text)
    case Answer(outcome) =>
      match outcome
      case Read(_) => None
      case Exception(code) => Some("Modbus exception: " + ExceptionText(code))
      case Failed(why) => Some(FailureText(why))
  }

  /** `word in text`. */
  predicate Contains(text: string, word: string) {
    exists i :: 0 <= i <= |text| && word <= text[i..]
  }

  /** The word stands somewhere, with anything before and behind it. */
  lemma ContainsIff(text: string, word: string)
    ensures Contains(text, word) <==> exists a: string, b: string :: text == a + word + b
  {
    if i :| 0 <= i <= |text| && word <= text[i..] {
      assert text == text[..i] + word + text[i + |word|..];
    }
    if a: string, b: string :| text == a + word + b {
      assert text[|a|..] == word + b;
    }
  }

  lemma Lacks(text: string, word: string, c: char)
    requires c in word && c !in text
    ensures !Contains(text, word)
  {
    var k :| 0 <= k < |word| && word[k] == c;
    forall i | 0 <= i <= |text|
      ensures !(word <= text[i..])
    {
      assert i + k < |text| ==> text[i..][k] == text[i + k];
    }
  }

  lemma {:induction false} DecimalIsDigits(n: nat)
    ensures forall k :: 0 <= k < |Decimal(n)| ==> '0' <= Decimal(n)[k] <= '9'
    decreases n
  {
    if n >= 10 {
      DecimalIsDigits(n / 10);
    }
  }

  lemma RefusedText(port: nat)
    ensures var text := "connection refused -- port " + Decimal(port) + " not open";
            'm' !in text && !("Modbus exception" <= text)
  {
    DecimalIsDigits(port);
    hide Decimal;
    var text := "connection refused -- port " + Decimal(port) + " not open";
    assert text[0] == 'c';
    assert 'm' !in "connection refused -- port " && 'm' !in " not open";
    assert 'm' !in Decimal(port);
  }

  /**
   The callers tell results apart by their texts.  Unless the operating system words an error so, "Modbus
   exception" stands in front exactly for a device that answered with an exception, and "timeout" occurs in
   another message exactly when the call has timed out.
   */
  lemma MessagesTell(e: Ending)
    requires !e.OsError?
    ensures Message(e) == None <==> e.Answer? && e.outcome.Read?
    ensures e.Answer? && e.outcome.Exception? <==> Message(e) != None && "Modbus exception" <= Message(e).value
    ensures e == TimedOut <==> Message(e) != None && !("Modbus exception" <= Message(e).value) && Contains(Message(e).value, "timeout")
  {
    hide Decimal, ExceptionText;
    match e
    case TimedOut =>
      TimeoutText();
    case ConnectionRefused(port) =>
      RefusedText(port);
      Lacks(Message(e).value, "timeout", 'm');
    case Answer(outcome) =>
      match outcome
      case Read(_) =>
      case Exception(code) =>
      case Failed(why) =>
        FailureTexts(why);
  }

  lemma TimeoutText()
    ensures var text := "timeout -- no response from device";
            Contains(text, "timeout") && !("Modbus exception" <= text)
  {
    var text, word := "timeout -- no response from device", "timeout";
    assert text[0..] == text && text[0] == 't';
    assert |word| == 7 && forall k :: 0 <= k < 7 ==> text[k] == word[k];
    assert word <= text[0..];
  }

  lemma FailureTexts(why: Failure)
    ensures !("Modbus exception" <= FailureText(why)) && !Contains(FailureText(why), "timeout")
  {
    var text := FailureText(why);
    var c := if why.Incomplete? || why.Malformed? then 'u' else 'm';
    if why.Incomplete? || why.Malformed? {
      NoU(why);
    } else {
      NoM(why);
    }
    FailureHeads(why);
    hide FailureText;
    Lacks(text, "timeout", c);
  }

  lemma FailureHeads(why: Failure)
    ensures FailureText(why) != "" && FailureText(why)[0] != 'M'
  {
  }

  lemma NoM(why: Failure)
    requires why.NoResponse? || why.TransactionId? || why.FunctionCode?
    ensures 'm' !in FailureText(why) && 'm' in "timeout"
  {
    assert "timeout"[2] == 'm';
    hide FailureText;
    if why.TransactionId? {
      NoMInTransaction();
    } else {
      NoMElsewhere(why);
    }
  }

  lemma NoMInTransaction()
    ensures 'm' !in FailureText(TransactionId)
  {
  }

  lemma NoMElsewhere(why: Failure)
    requires why.NoResponse? || why.FunctionCode?
    ensures 'm' !in FailureText(why)
  {
  }

  lemma NoU(why: Failure)
    requires why.Incomplete? || why.Malformed?
    ensures 'u' !in FailureText(why) && 'u' in "timeout"
  {
    assert "timeout"[5] == 'u';
  }

  /** Any 1 to 2000 coils, over the wire and back, whatever follows the response. */
  lemma CoilsRoundTrip(transactionId: int, unit: byte, functionCode: byte, bits: seq<bool>, more: Octets)
    requires 0 <= transactionId < TRANSACTIONS && ReadsBits(functionCode) && 1 <= |bits| <= 2000
    ensures var body := ReadResponse(functionCode, PackCoils(bits));
            Body(Adu(transactionId, unit, body) + more, transactionId) == Ok(body) &&
            Decode(body, functionCode, |bits|) == Read(Coils(bits))
  {
    hide PackCoils, Body, Adu, UnpackCoils, Decode;
    var data := PackCoils(bits);
    BodyOfWholeAdu(transactionId, unit, ReadResponse(functionCode, data), more);
    DecodesResponse(functionCode, data, [], |bits|);
    assert ReadResponse(functionCode, data) + [] == ReadResponse(functionCode, data);
    CoilsOfWhole(bits);
  }

  /** Any 1 to 125 registers. */
  lemma RegistersRoundTrip(transactionId: int, unit: byte, functionCode: byte, words: seq<int>, more: Octets)
    requires 0 <= transactionId < TRANSACTIONS && (functionCode == 3 || functionCode == 4) && 1 <= |words| <= 125
    requires AreWords(words)
    ensures var body := ReadResponse(functionCode, PackRegisters(words));
            Body(Adu(transactionId, unit, body) + more, transactionId) == Ok(body) &&
            Decode(body, functionCode, |words|) == Read(Registers(words))
  {
    hide PackRegisters, Body, Adu, UnpackRegisters, Decode, AreWords;
    var data := PackRegisters(words);
    BodyOfWholeAdu(transactionId, unit, ReadResponse(functionCode, data), more);
    DecodesResponse(functionCode, data, [], |words|);
    assert ReadResponse(functionCode, data) + [] == ReadResponse(functionCode, data);
    RegistersOfWhole(words);
  }

  // ----- Device identification -----

  const ROUNDS := 8
  const MORE_FOLLOWS := 0xff
  const OBJECTS_AT := 7

  datatype Object = Object(id: byte, value: Octets)

  /** The decimal digits of a number. */
  function Decimal(n: nat): string {
    if n < 10 then [Digit(n)] else Decimal(n / 10) + [Digit(n % 10)]
  }

  function Digit(n: nat): char
    requires n < 10
  {
    '0' + n as char
  }

  function DecimalValue(s: string): int {
    if s == [] then 0 else 10 * DecimalValue(s[..|s| - 1]) + (s[|s| - 1] as int - '0' as int)
  }

  lemma {:induction false} DecimalRoundTrip(n: nat)
    ensures DecimalValue(Decimal(n)) == n
    decreases n
  {
    if n < 10 {
      assert Decimal(n)[..0] == [];
    } else {
      DecimalRoundTrip(n / 10);
      assert Decimal(n)[..|Decimal(n)| - 1] == Decimal(n / 10);
    }
  }

  const STANDARD_NAMES := [
    "vendor_name", "product_code", "major_minor_revision", "vendor_url", "product_name", "model_name", "user_application_name"
  ]

  function NameOf(id: byte): string {
    if id < 7 then STANDARD_NAMES[id] else "object_" + Decimal(id)
  }

  lemma NameStarts(id: byte)
    ensures NameOf(id) != "" && (NameOf(id)[0] == 'o' <==> id >= 7)
    ensures id >= 7 ==> |NameOf(id)| >= 7 && NameOf(id)[7..] == Decimal(id)
  {
    StandardNames();
    hide Decimal;
  }

  /** No two object ids share a name. */
  lemma NameIsInjective(a: byte, b: byte)
    requires NameOf(a) == NameOf(b)
    ensures a == b
  {
    hide Decimal, DecimalValue;
    NameStarts(a);
    NameStarts(b);
    if a >= 7 {
      DecimalRoundTrip(a);
      DecimalRoundTrip(b);
    } else {
      StandardNames();
    }
  }

  /** Length and first character tell the standard names apart. */
  lemma StandardNames()
    ensures |STANDARD_NAMES| == 7 && forall i :: 0 <= i < 7 ==> STANDARD_NAMES[i] != "" && STANDARD_NAMES[i][0] != 'o'
    ensures forall i, j :: 0 <= i < j < 7 ==> STANDARD_NAMES[i] != STANDARD_NAMES[j]
  {
    var lengths := [11, 12, 20, 10, 12, 10, 21];
    assert forall i :: 0 <= i < 7 ==> |STANDARD_NAMES[i]| == lengths[i];
    assert STANDARD_NAMES[1][8] != STANDARD_NAMES[4][8];
    assert STANDARD_NAMES[3][0] != STANDARD_NAMES[5][0];
  }

  /** The next `count` objects of a response; the last may be cut. */
  function Objects(rest: Octets, count: nat): seq<Object>
    decreases count
  {
    if count == 0 || |rest| < 2 then []
    else
      var end := 2 + (rest[1] as int);
      [Object(rest[0], Slice(rest, 2, end))] + Objects(From(rest, end), count - 1)
  }

  /** The dictionary after storing objects in order. */
  function Stored(m: map<string, string>, objects: seq<Object>, text: Octets -> string): map<string, string> {
    if objects == [] then m
    else
      var last := objects[|objects| - 1];
      Stored(m, objects[..|objects| - 1], text)[NameOf(last.id) := text(last.value)]
  }

  datatype Identification = Identified(objects: map<string, string>) | Unsupported(code: Option<byte>) | Broken(why: Failure)

  /** What the device sends on the request of a round, by transaction and object id. */
  type Device = (nat, int, byte) -> Octets

  predicate IsPage(body: Octets) {
    |body| >= OBJECTS_AT && body[0] == 0x2b && body[1] == 0x0e
  }

  /** A round ends the loop, or leads to the next with another object id. */
  datatype Turn = Final(result: Identification) | Onward(id: byte, waiting: Octets, objects: map<string, string>)

  /** What a round makes of the stream. */
  function TakeTurn(stream: Octets, text: Octets -> string, transactionId: int, id: byte, objects: map<string, string>): Turn {
    match Body(stream, transactionId)
    case Err(e) => Final(Broken(e))
    case Ok(body) =>
      if body == [] then Final(Broken(Incomplete))
      else if body[0] >= 0x80 then Final(Unsupported(if |body| > 1 then Some(body[1]) else None))
      else if !IsPage(body) then Final(Broken(Malformed))
      else
        var objects' := Stored(objects, Objects(body[OBJECTS_AT..], body[6]), text);
        if body[4] != MORE_FOLLOWS || body[5] == id then Final(Identified(objects'))
        else Onward(body[5], From(stream, MBAP_LEN + |body|), objects')
  }

  /**
   What a round makes of one response: an exception means that the device does not support identification;
   anything but a page is malformed; a page ends the loop unless it says that more follows, and names another
   object than the one asked for.
   */
  lemma TurnDecides(transactionId: int, unit: byte, body: Octets, more: Octets, text: Octets -> string, id: byte, objects: map<string, string>)
    requires 0 <= transactionId < TRANSACTIONS && 1 <= |body| < 0xffff
    ensures var t := TakeTurn(Adu(transactionId, unit, body) + more, text, transactionId, id, objects);
            var isPage := |body| >= 7 && body[0] == 43 && body[1] == 14;
            && (body[0] >= 128 && |body| == 1 ==> t == Final(Unsupported(None)))
            && (body[0] >= 128 && |body| > 1 ==> t == Final(Unsupported(Some(body[1]))))
            && (body[0] < 128 && !isPage ==> t == Final(Broken(Malformed)))
            && (isPage ==>
                  var stored := Stored(objects, Objects(body[7..], body[6]), text);
                  if body[4] == 255 && body[5] != id then t == Onward(body[5], more, stored) else t == Final(Identified(stored)))
  {
    hide Adu, Body, Objects, Stored;
    BodyOfWholeAdu(transactionId, unit, body, more);
  }

  /** A response for another transaction, or cut short, breaks the identification off. */
  lemma TurnBreaks(stream: Octets, transactionId: int, text: Octets -> string, id: byte, objects: map<string, string>)
    requires Body(stream, transactionId).Err?
    ensures TakeTurn(stream, text, transactionId, id, objects) == Final(Broken(Body(stream, transactionId).error))
  {
  }

  /** The rounds from `round` on, with `waiting` still unread from earlier ones. */
  function Rounds(device: Device, text: Octets -> string, round: nat, last: nat, id: byte, waiting: Octets,
                  objects: map<string, string>): Identification
    requires round <= ROUNDS && last < TRANSACTIONS
    decreases ROUNDS - round
  {
    if round == ROUNDS then Identified(objects)
    else
      var transactionId := (last + 1) % TRANSACTIONS;
      match TakeTurn(waiting + device(round, transactionId, id), text, transactionId, id, objects)
      case Final(result) => result
      case Onward(id', waiting', objects') => Rounds(device, text, round + 1, transactionId, id', waiting', objects')
  }

  /** The inner loop over the objects of a response. */
  method StoreObjects(body: Octets, before: map<string, string>, text: Octets -> string) returns (objects: map<string, string>)
    requires |body| >= OBJECTS_AT
    ensures objects == Stored(before, Objects(body[OBJECTS_AT..], body[6]), text)
  {
    hide Objects, Stored, NameOf, Slice, From;
    objects := before;
    var offset := OBJECTS_AT;
    var count := body[6] as int;
    ghost var all := Objects(body[OBJECTS_AT..], count);
    ghost var done: seq<Object> := [];
    StoredNone(before, text);
    FromStart(body, OBJECTS_AT);
    for k := 0 to count
      invariant offset >= OBJECTS_AT
      invariant done + Objects(From(body, offset), count - k) == all
      invariant objects == Stored(before, done, text)
    {
      if offset + 2 > |body| {
        NoObjectsAt(body, offset, count - k);
        assert done + [] == done;
        return;
      }
      var objId, objLen := body[offset], body[offset + 1] as int;
      var objValue := Slice(body, offset + 2, offset + 2 + objLen);
      OneObject(body, offset, count - k);
      StoredOne(before, done, Object(objId, objValue), text);
      done := done + [Object(objId, objValue)];
      offset := offset + 2 + objLen;
      objects := objects[NameOf(objId) := text(objValue)];
    }
    NoObjectsAt(body, offset, 0);
    assert done + [] == done;
  }

  lemma NoObjectsAt(body: Octets, offset: nat, count: nat)
    requires count == 0 || offset + 2 > |body|
    ensures Objects(From(body, offset), count) == []
  {
  }

  lemma FirstObject(rest: Octets, count: nat)
    requires count > 0 && |rest| >= 2
    ensures var end := 2 + (rest[1] as int);
            Objects(rest, count) == [Object(rest[0], Slice(rest, 2, end))] + Objects(From(rest, end), count - 1)
  {
  }

  lemma OneObject(body: Octets, offset: nat, count: nat)
    requires count > 0 && offset + 2 <= |body|
    ensures var end := offset + 2 + (body[offset + 1] as int);
            Objects(From(body, offset), count) ==
            [Object(body[offset], Slice(body, offset + 2, end))] + Objects(From(body, end), count - 1)
  {
    hide Objects, Slice;
    var rest, end := From(body, offset), 2 + (body[offset + 1] as int);
    FirstObject(rest, count);
    SliceFrom(body, offset, 2, end);
    FromFrom(body, offset, end);
  }

  lemma StoredNone(m: map<string, string>, text: Octets -> string)
    ensures Stored(m, [], text) == m
  {
  }

  lemma StoredOne(m: map<string, string>, objects: seq<Object>, o: Object, text: Octets -> string)
    ensures Stored(m, objects + [o], text) == Stored(m, objects, text)[NameOf(o.id) := text(o.value)]
  {
    assert (objects + [o])[..|objects|] == objects;
  }

  /** One round, once the device has sent its part. */
  method ReadTurn(sock: Source, text: Octets -> string, transactionId: int, id: byte, before: map<string, string>)
    returns (t: Turn)
    modifies sock
    ensures t == TakeTurn(old(sock.rest), text, transactionId, id, before)
    ensures t.Onward? ==> sock.rest == t.waiting
  {
    hide Body, Objects, Stored;
    ghost var stream := sock.rest;
    var read := ReadBody(sock, transactionId);
    if read.Err? {
      return Final(Broken(read.error));
    }
    var body := read.value;
    BodyIsSome(stream, transactionId);
    if body[0] >= 0x80 {
      return Final(Unsupported(if |body| > 1 then Some(body[1]) else None));
    }
    if body[0] != 0x2b || |body| < 7 || body[1] != 0x0e {
      return Final(Broken(Malformed));
    }
    var moreFollows, nextObjectId := body[4], body[5];
    var objects := StoreObjects(body, before, text);
    if moreFollows != MORE_FOLLOWS || nextObjectId == id {
      return Final(Identified(objects));
    }
    t := Onward(nextObjectId, sock.rest, objects);
  }

  /** `read_device_identification` behind the connection: at most eight requests. */
  method Identify(sock: Source, ids: Transactions, device: Device, text: Octets -> string) returns (r: Identification)
    requires ids.last < TRANSACTIONS
    modifies sock, ids
    ensures r == Rounds(device, text, 0, old(ids.last), 0, old(sock.rest), map[])
  {
    hide TakeTurn, Rounds;
    var objects: map<string, string> := map[];
    var objectId: byte := 0;
    for round := 0 to ROUNDS
      invariant ids.last < TRANSACTIONS
      invariant Rounds(device, text, round, ids.last, objectId, sock.rest, objects) ==
                Rounds(device, text, 0, old(ids.last), 0, old(sock.rest), map[])
    {
      OneRound(device, text, round, ids.last, objectId, sock.rest, objects);
      var transactionId := ids.Next();
      sock.rest := sock.rest + device(round, transactionId, objectId);
      var turn := ReadTurn(sock, text, transactionId, objectId, objects);
      if turn.Final? {
        return turn.result;
      }
      objectId, objects := turn.id, turn.objects;
    }
    NoRound(device, text, ids.last, objectId, sock.rest, objects);
    r := Identified(objects);
  }

  lemma NoRound(device: Device, text: Octets -> string, last: nat, id: byte, waiting: Octets, objects: map<string, string>)
    requires last < TRANSACTIONS
    ensures Rounds(device, text, ROUNDS, last, id, waiting, objects) == Identified(objects)
  {
  }

  lemma OneRound(device: Device, text: Octets -> string, round: nat, last: nat, id: byte, waiting: Octets,
                 objects: map<string, string>)
    requires round < ROUNDS && last < TRANSACTIONS
    ensures var transactionId := (last + 1) % TRANSACTIONS;
            Rounds(device, text, round, last, id, waiting, objects) ==
            match TakeTurn(waiting + device(round, transactionId, id), text, transactionId, id, objects)
            case Final(result) => result
            case Onward(id', waiting', objects') => Rounds(device, text, round + 1, transactionId, id', waiting', objects')
  {
    hide TakeTurn;
  }

  lemma BodyIsSome(stream: Octets, transactionId: int)
    requires Body(stream, transactionId).Ok?
    ensures Body(stream, transactionId).value != []
    ensures MBAP_LEN + |Body(stream, transactionId).value| <= |stream|
    ensures var n := MBAP_LEN + |Body(stream, transactionId).value|; From(stream, n) == stream[n..]
  {
  }

  // ----- A device that splits its objects over pages -----

  predicate EncodableObjects(objects: seq<Object>) {
    |objects| < 256 && forall i :: 0 <= i < |objects| ==> |objects[i].value| < 256
  }

  function EncodeObjects(objects: seq<Object>): (b: Octets)
    requires forall i :: 0 <= i < |objects| ==> |objects[i].value| < 256
    ensures |b| <= 257 * |objects|
  {
    if objects == [] then []
    else [objects[0].id, |objects[0].value|] + objects[0].value + EncodeObjects(objects[1..])
  }

  lemma ObjectAhead(o: Object, rest: Octets, count: nat)
    requires |o.value| < 256
    ensures Objects([o.id, |o.value|] + o.value + rest, count + 1) == [o] + Objects(rest, count)
  {
    hide Objects;
    var b := [o.id, |o.value|] + o.value + rest;
    FirstObject(b, count + 1);
    assert b[2..2 + |o.value|] == o.value && b[2 + |o.value|..] == rest;
  }

  lemma {:induction false} ObjectsRoundTrip(objects: seq<Object>)
    requires forall i :: 0 <= i < |objects| ==> |objects[i].value| < 256
    ensures Objects(EncodeObjects(objects), |objects|) == objects
    decreases |objects|
  {
    hide Objects;
    if objects == [] {
      NoObjectsAt([], 0, 0);
    } else {
      ObjectsRoundTrip(objects[1..]);
      ObjectAhead(objects[0], EncodeObjects(objects[1..]), |objects| - 1);
    }
  }

  /** The id with which a page is requested. */
  function StartOf(pages: seq<seq<Object>>, j: nat): byte {
    if 0 < j < |pages| && pages[j] != [] then pages[j][0].id else 0
  }

  ghost predicate Pages(pages: seq<seq<Object>>) {
    && pages != []
    && (forall j :: 0 <= j < |pages| ==> EncodableObjects(pages[j]))
    && (forall j :: 0 < j < |pages| ==> pages[j] != [])
    && (forall i, j :: 0 <= i < j < |pages| ==> StartOf(pages, i) < StartOf(pages, j))
  }

  function PageBody(pages: seq<seq<Object>>, conformity: byte, j: nat): (b: Octets)
    requires j < |pages| && EncodableObjects(pages[j])
    ensures 1 <= |b| < 0xffff + 1000
  {
    var more := if j + 1 < |pages| then MORE_FOLLOWS else 0;
    [0x2b, 0x0e, 0x02, conformity, more, StartOf(pages, j + 1), |pages[j]|] + EncodeObjects(pages[j])
  }

  /** The device answers the request for a page's first object with that page, in one response. */
  ghost predicate Serves(device: Device, unit: byte, conformity: byte, pages: seq<seq<Object>>)
    requires Pages(pages)
  {
    && (forall j :: 0 <= j < |pages| ==> |PageBody(pages, conformity, j)| < 0xffff)
    && forall j, round, id :: 0 <= j < |pages| && 0 <= id < TRANSACTIONS ==>
         device(round, id, StartOf(pages, j)) == Adu(id, unit, PageBody(pages, conformity, j))
  }

  function Flatten(pages: seq<seq<Object>>): seq<Object> {
    if pages == [] then [] else Flatten(pages[..|pages| - 1]) + pages[|pages| - 1]
  }

  lemma {:induction false} StoredConcat(m: map<string, string>, a: seq<Object>, b: seq<Object>, text: Octets -> string)
    ensures Stored(m, a + b, text) == Stored(Stored(m, a, text), b, text)
    decreases |b|
  {
    hide NameOf;
    if b == [] {
      assert a + b == a;
    } else {
      var n := |b| - 1;
      StoredConcat(m, a, b[..n], text);
      assert (a + b)[..|a + b| - 1] == a + b[..n];
    }
  }

  lemma PageOfBody(pages: seq<seq<Object>>, conformity: byte, j: nat)
    requires j < |pages| && EncodableObjects(pages[j])
    ensures var b := PageBody(pages, conformity, j);
            IsPage(b) && b[0] < 0x80 && b[4] == (if j + 1 < |pages| then MORE_FOLLOWS else 0) && b[5] == StartOf(pages, j + 1) &&
            Objects(b[OBJECTS_AT..], b[6]) == pages[j]
  {
    ObjectsRoundTrip(pages[j]);
    var b := PageBody(pages, conformity, j);
    assert b[OBJECTS_AT..] == EncodeObjects(pages[j]);
  }

  function Lesser(a: nat, b: nat): (m: nat)
    ensures m <= b
  {
    if a < b then a else b
  }

  /** The round for page `j`. */
  lemma PageTurn(text: Octets -> string, transactionId: nat, unit: byte, conformity: byte, pages: seq<seq<Object>>, j: nat,
                 objects: map<string, string>)
    requires Pages(pages) && j < |pages| && transactionId < TRANSACTIONS && |PageBody(pages, conformity, j)| < 0xffff
    ensures var objects' := Stored(objects, pages[j], text);
            TakeTurn(Adu(transactionId, unit, PageBody(pages, conformity, j)), text, transactionId, StartOf(pages, j), objects) ==
            if j + 1 < |pages| then Onward(StartOf(pages, j + 1), [], objects') else Final(Identified(objects'))
  {
    hide Body, Objects, Stored, Adu, PageBody, IsPage;
    var body := PageBody(pages, conformity, j);
    var stream := Adu(transactionId, unit, body);
    assert stream == stream + [];
    BodyOfWholeAdu(transactionId, unit, body, []);
    PageOfBody(pages, conformity, j);
    BodyIsSome(stream, transactionId);
    if j + 1 < |pages| {
      assert StartOf(pages, j) < StartOf(pages, j + 1);
    }
  }

  lemma {:induction false} PagesFrom(device: Device, text: Octets -> string, unit: byte, conformity: byte, pages: seq<seq<Object>>,
                                     j: nat, last: nat)
    requires Pages(pages) && Serves(device, unit, conformity, pages) && last < TRANSACTIONS
    requires j <= ROUNDS && j < |pages|
    ensures Rounds(device, text, j, last, StartOf(pages, j), [], Stored(map[], Flatten(pages[..j]), text)) ==
            Identified(Stored(map[], Flatten(pages[..Lesser(ROUNDS, |pages|)]), text))
    decreases |pages| - j
  {
    assert EncodableObjects(pages[j]);
    hide Stored, Adu, PageBody, Flatten, TakeTurn, Pages, StartOf;
    if j < ROUNDS {
      var transactionId := (last + 1) % TRANSACTIONS;
      var objects := Stored(map[], Flatten(pages[..j]), text);
      var stream := [] + device(j, transactionId, StartOf(pages, j));
      assert stream == Adu(transactionId, unit, PageBody(pages, conformity, j));
      PageTurn(text, transactionId, unit, conformity, pages, j, objects);
      FlattenOneMore(pages, j);
      StoredConcat(map[], Flatten(pages[..j]), pages[j], text);
      if j + 1 < |pages| {
        PagesFrom(device, text, unit, conformity, pages, j + 1, transactionId);
      } else {
        assert pages[..j + 1] == pages[..Lesser(ROUNDS, |pages|)];
      }
    }
  }

  lemma FlattenOneMore(pages: seq<seq<Object>>, j: nat)
    requires j < |pages|
    ensures Flatten(pages[..j + 1]) == Flatten(pages[..j]) + pages[j]
  {
    assert pages[..j + 1][..j] == pages[..j];
  }

  /**
   A device that serves its objects in pages with strictly increasing first ids: the dictionary is
   exactly that of the objects on the first eight pages, so of all objects when there are no more.
   */
  lemma CollectsPages(device: Device, text: Octets -> string, unit: byte, conformity: byte, pages: seq<seq<Object>>, last: nat)
    requires Pages(pages) && Serves(device, unit, conformity, pages) && last < TRANSACTIONS
    ensures Rounds(device, text, 0, last, 0, [], map[]) ==
            Identified(Stored(map[], Flatten(pages[..Lesser(8, |pages|)]), text))
    ensures |pages| <= 8 ==> Rounds(device, text, 0, last, 0, [], map[]) == Identified(Stored(map[], Flatten(pages), text))
  {
    hide Rounds, Serves, Stored, Flatten, StartOf, Pages;
    FirstPage(pages, text);
    PagesFrom(device, text, unit, conformity, pages, 0, last);
    AllPages(pages);
  }

  lemma AllPages(pages: seq<seq<Object>>)
    ensures |pages| <= ROUNDS ==> pages[..Lesser(ROUNDS, |pages|)] == pages
  {
  }

  lemma FirstPage(pages: seq<seq<Object>>, text: Octets -> string)
    requires Pages(pages)
    ensures pages != []
    ensures StartOf(pages, 0) == 0 && Stored(map[], Flatten(pages[..0]), text) == map[]
  {
    assert pages[..0] == [];
  }

  ghost predicate DistinctIds(objects: seq<Object>) {
    forall i, j :: 0 <= i < j < |objects| ==> objects[i].id != objects[j].id
  }

  ghost function Names(objects: seq<Object>): set<string> {
    set i | 0 <= i < |objects| :: NameOf(objects[i].id)
  }

  lemma {:induction false} StoredKeys(objects: seq<Object>, text: Octets -> string)
    ensures Stored(map[], objects, text).Keys == Names(objects)
    decreases |objects|
  {
    hide NameOf;
    if objects != [] {
      var n := |objects| - 1;
      StoredKeys(objects[..n], text);
      NamesOneMore(objects[..n], objects[n]);
      assert objects == objects[..n] + [objects[n]];
    }
  }

  lemma NamesOneMore(objects: seq<Object>, o: Object)
    ensures Names(objects + [o]) == Names(objects) + {NameOf(o.id)}
  {
    hide NameOf;
    var all := objects + [o];
    assert all[|objects|] == o;
    assert forall i :: 0 <= i < |objects| ==> all[i] == objects[i];
    forall name | name in Names(objects) + {NameOf(o.id)}
      ensures name in Names(all)
    {
      if name in Names(objects) {
        var i :| 0 <= i < |objects| && NameOf(objects[i].id) == name;
        assert NameOf(all[i].id) == name;
      } else {
        assert NameOf(all[|objects|].id) == name;
      }
    }
  }

  lemma NameIsNew(objects: seq<Object>, n: nat)
    requires DistinctIds(objects) && n < |objects|
    ensures NameOf(objects[n].id) !in Names(objects[..n])
  {
    hide NameOf;
    if i :| 0 <= i < n && NameOf(objects[..n][i].id) == NameOf(objects[n].id) {
      NameIsInjective(objects[i].id, objects[n].id);
    }
  }

  lemma {:induction false} NamesCount(objects: seq<Object>)
    requires DistinctIds(objects)
    ensures |Names(objects)| == |objects|
    decreases |objects|
  {
    hide NameOf, Names;
    if objects == [] {
      NoNames();
    } else {
      var n := |objects| - 1;
      NamesCount(objects[..n]);
      NameIsNew(objects, n);
      NamesOneMore(objects[..n], objects[n]);
      assert objects == objects[..n] + [objects[n]];
    }
  }

  lemma NoNames()
    ensures Names([]) == {}
  {
  }

  lemma {:induction false} StoredValue(objects: seq<Object>, text: Octets -> string, i: nat)
    requires DistinctIds(objects) && i < |objects|
    ensures NameOf(objects[i].id) in Stored(map[], objects, text)
    ensures Stored(map[], objects, text)[NameOf(objects[i].id)] == text(objects[i].value)
    decreases |objects|
  {
    hide NameOf;
    var n := |objects| - 1;
    if i < n {
      StoredValue(objects[..n], text, i);
      if NameOf(objects[i].id) == NameOf(objects[n].id) {
        NameIsInjective(objects[i].id, objects[n].id);
      }
    }
  }

  /** With distinct ids nothing is overwritten: the dictionary has one entry for each object, under its own name. */
  lemma NothingIsOverwritten(objects: seq<Object>, text: Octets -> string)
    requires DistinctIds(objects)
    ensures |Stored(map[], objects, text)| == |objects| && Stored(map[], objects, text).Keys == Names(objects)
    ensures forall i :: 0 <= i < |objects| ==>
              NameOf(objects[i].id) in Stored(map[], objects, text) &&
              Stored(map[], objects, text)[NameOf(objects[i].id)] == text(objects[i].value)
  {
    hide NameOf, Stored, DistinctIds, Names;
    StoredKeys(objects, text);
    NamesCount(objects);
    var m := Stored(map[], objects, text);
    assert |m| == |m.Keys|;
    forall i | 0 <= i < |objects|
      ensures NameOf(objects[i].id) in m && m[NameOf(objects[i].id)] == text(objects[i].value)
    {
      StoredValue(objects, text, i);
    }
  }
}
