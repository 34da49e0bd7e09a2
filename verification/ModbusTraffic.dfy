/**
 Passive Modbus TCP statistics (backend/capture/modbus_traffic.py): requests are matched to responses
 by transaction id, unanswered ones are counted as missing after five seconds.

 Times are integer tenths of a millisecond, the precision to which the source rounds them.
 */
module ModbusTraffic {
  import opened Bytes
  import opened Frames
  import opened MapSums
  import opened Rounding
  import opened Sets
  import opened Wrappers

  const MODBUS_PORT := 502
  const PENDING_TIMEOUT := 50_000
  const MAX_RELATIONSHIPS: nat := 200

  // ----- Packets -----

  datatype Segment = Segment(srcIp: Octets, dstIp: Octets, srcPort: int, dstPort: int, payload: Octets)

  function ParseIpv4Tcp(packet: Octets): (r: Option<Segment>) {
    if |packet| < 14 + 20 then None
    else if U16(packet, 12) != 0x0800 then None
    else
      var ihl := packet[14] % 16 * 4;
      if packet[23] != 6 then None
      else if |packet| < 14 + ihl + 20 then None
      else
        var tcp := 14 + ihl;
        var payloadOffset := tcp + packet[tcp + 12] / 16 * 4;
        if |packet| < payloadOffset then None
        else Some(Segment(packet[26..30], packet[30..34], U16(packet, tcp), U16(packet, tcp + 2), packet[payloadOffset..]))
  }

  datatype Pdu = Pdu(transactionId: int, unitId: int, functionCode: int, isException: bool, exceptionCode: Option<int>)

  function ParseMbapPdu(payload: Octets): (r: Option<Pdu>)
    ensures r != None ==> 0 <= r.value.transactionId < 0x1_0000
  {
    if |payload| < 8 then None
    else if U16(payload, 2) != 0 then None
    else
      var pdu := Slice(payload, 7, 6 + U16(payload, 4));
      if |pdu| < 1 then None
      else
        var isException := pdu[0] >= 0x80;
        Some(Pdu(U16(payload, 0), payload[6], pdu[0] % 0x80, isException,
                 if isException && |pdu| > 1 then Some(pdu[1]) else None))
  }

  /** Header length in a TCP header, in bytes. */
  predicate IsTcpHeader(t: Octets) {
    |t| >= 20 && |t| == t[12] / 16 * 4
  }

  /** Of a TCP segment in an Ethernet frame, with options in either header: addresses, ports and payload. */
  lemma ParsesSegment(dst: Octets, src: Octets, h: Octets, t: Octets, payload: Octets)
    requires |dst| == 6 && |src| == 6 && IsIpv4Header(h) && IsTcpHeader(t)
    ensures ParseIpv4Tcp(Ethernet(dst, src, 0x0800, h + (t + payload))) ==
            if h[9] == 6 then Some(Segment(h[12..16], h[16..20], U16(t, 0), U16(t, 2), payload)) else None
  {
    hide U16, Ethernet;
    var p := Ethernet(dst, src, 0x0800, h + (t + payload));
    EthernetFields(dst, src, 0x0800, h + (t + payload));
    Ipv4Fields(p, h, t + payload);
    var tcp := ETHERNET_LEN + |h|;
    Behind(p, tcp, 0, 2);
    Behind(p, tcp, 2, 4);
    Behind(p, tcp, 12, 13);
    HeadField(t, payload, 0);
    HeadField(t, payload, 2);
    assert (t + payload)[12] == t[12];
    assert p[tcp + |t|..] == p[tcp..][|t|..];
    assert (t + payload)[|t|..] == payload;
  }

  lemma HeadField(a: Octets, b: Octets, i: nat)
    requires i + 2 <= |a|
    ensures U16(a + b, i) == U16(a, i)
  {
  }

  /** A Modbus frame: transaction id, protocol 0, length, unit, PDU. */
  function Adu(transactionId: int, unit: byte, pdu: Octets): Octets
    requires 0 <= transactionId < 0x1_0000 && |pdu| < 0xffff
  {
    PackU16(transactionId) + PackU16(0) + PackU16(|pdu| + 1) + [unit] + pdu
  }

  /** A Modbus frame as the client sends and receives it, and anything behind it. */
  lemma ParsesAdu(transactionId: int, unit: byte, pdu: Octets, more: Octets)
    requires 0 <= transactionId < 0x1_0000 && 1 <= |pdu| < 0xffff
    ensures ParseMbapPdu(Adu(transactionId, unit, pdu) + more) ==
            Some(Pdu(transactionId, unit, pdu[0] % 0x80, pdu[0] >= 0x80,
                     if pdu[0] >= 0x80 && |pdu| > 1 then Some(pdu[1]) else None))
  {
    hide U16, PackU16;
    var rest := [unit] + pdu + more;
    var b := PackU16(transactionId) + PackU16(0) + PackU16(|pdu| + 1) + [unit] + pdu + more;
    U16Packed([], transactionId, PackU16(0) + PackU16(|pdu| + 1) + rest);
    U16Packed(PackU16(transactionId), 0, PackU16(|pdu| + 1) + rest);
    U16Packed(PackU16(transactionId) + PackU16(0), |pdu| + 1, rest);
    assert b == [] + PackU16(transactionId) + (PackU16(0) + PackU16(|pdu| + 1) + rest);
    assert b == PackU16(transactionId) + PackU16(0) + (PackU16(|pdu| + 1) + rest);
    assert b == (PackU16(transactionId) + PackU16(0)) + PackU16(|pdu| + 1) + rest;
    assert b[7..7 + |pdu|] == pdu;
  }

  // ----- Ledger -----

  datatype RelKey<I> = RelKey(client: I, server: I, unitId: int, functionCode: int)

  datatype PendKey<I> = PendKey(client: I, server: I, transactionId: int)

  datatype Pending = Pending(sentAt: int, unitId: int, functionCode: int)

  datatype Stats = Stats(requests: nat, responses: nat, exceptions: nat, missing: nat, lastSeen: Option<int>,
                         sumMs: int, msCount: nat, minMs: Option<int>, avgMs: Option<int>, maxMs: Option<int>)

  function RequestsOf(s: Stats): int {
    s.requests
  }

  function MsCountOf(s: Stats): int {
    s.msCount
  }

  function MissingOf(s: Stats): int {
    s.missing
  }

  const EMPTY := Stats(0, 0, 0, 0, None, 0, 0, None, None, None)

  /** `superseded` and `orphaned` count what the program forgets: requests whose key was reused while
      pending, and requests popped by a response that belongs to no relationship. */
  datatype Ledger<I(==)> = Ledger(rels: map<RelKey<I>, Stats>, pending: map<PendKey<I>, Pending>,
                              superseded: nat, orphaned: nat)

  function RelOf<I>(k: PendKey<I>, p: Pending): RelKey<I> {
    RelKey(k.client, k.server, p.unitId, p.functionCode)
  }

  predicate IsStale(p: Pending, now: int) {
    now - p.sentAt > PENDING_TIMEOUT
  }

  function StaleKeys<I(==)>(pending: map<PendKey<I>, Pending>, now: int): set<PendKey<I>> {
    set k | k in pending && IsStale(pending[k], now)
  }

  /** The keys of `due` that belong to relationship `r`. */
  ghost function DueFor<I>(pending: map<PendKey<I>, Pending>, due: set<PendKey<I>>, r: RelKey<I>): set<PendKey<I>> {
    set k | k in due && k in pending && RelOf(k, pending[k]) == r
  }

  /** Every relationship is charged its share of `due`. */
  ghost function Charged<I>(rels: map<RelKey<I>, Stats>, pending: map<PendKey<I>, Pending>, due: set<PendKey<I>>): map<RelKey<I>, Stats> {
    map r | r in rels :: rels[r].(missing := rels[r].missing + |DueFor(pending, due, r)|)
  }

  ghost function Prune<I>(l: Ledger<I>, now: int): Ledger<I> {
    var due := StaleKeys(l.pending, now);
    l.(rels := Charged(l.rels, l.pending, due), pending := l.pending - due)
  }

  function Timed(s: Stats, ms: int): Stats {
    s.(sumMs := s.sumMs + ms, msCount := s.msCount + 1,
       minMs := Some(if s.minMs == None || ms < s.minMs.value then ms else s.minMs.value),
       maxMs := Some(if s.maxMs == None || ms > s.maxMs.value then ms else s.maxMs.value),
       avgMs := Some(Rounded(s.sumMs + ms, s.msCount + 1)))
  }

  datatype Message<I> =
    | Request(client: I, server: I, transactionId: int, unitId: int, functionCode: int)
    | Response(client: I, server: I, transactionId: int, unitId: int, functionCode: int, isException: bool)

  /** What `handle_packet` makes of a packet: requests go to port 502, responses come from it. */
  function MessageOf(packet: Octets): (r: Option<Message<Octets>>)
    ensures r != None ==> 0 <= r.value.transactionId < 0x1_0000
  {
    var t := ParseIpv4Tcp(packet);
    if t == None || (t.value.srcPort != MODBUS_PORT && t.value.dstPort != MODBUS_PORT) then None
    else
      var p := ParseMbapPdu(t.value.payload);
      if p == None then None
      else if t.value.dstPort == MODBUS_PORT then
        Some(Request(t.value.srcIp, t.value.dstIp, p.value.transactionId, p.value.unitId, p.value.functionCode))
      else
        Some(Response(t.value.dstIp, t.value.srcIp, p.value.transactionId, p.value.unitId, p.value.functionCode,
                      p.value.isException))
  }

  /** A TCP segment with one Modbus frame and anything behind it, as it passes by. */
  datatype Passing = Passing(dst: Octets, src: Octets, ip: Octets, tcp: Octets, transactionId: int, unit: byte, pdu: Octets, more: Octets)

  predicate IsPassing(x: Passing) {
    && |x.dst| == 6 && |x.src| == 6 && IsIpv4Header(x.ip) && IsTcpHeader(x.tcp) && x.ip[9] == 6
    && 0 <= x.transactionId < 0x1_0000 && 1 <= |x.pdu| < 0xffff
  }

  function FrameOf(x: Passing): Octets
    requires IsPassing(x)
  {
    Ethernet(x.dst, x.src, 0x0800, x.ip + (x.tcp + (Adu(x.transactionId, x.unit, x.pdu) + x.more)))
  }

  /**
   Requests go to port 502 and name the client first; responses come from port 502 and name it second; the
   high bit of the function code marks an exception.  Of other ports nothing is made.
   */
  lemma MessageOfFrame(x: Passing)
    requires IsPassing(x)
    ensures var first, second, fc := x.ip[12..16], x.ip[16..20], x.pdu[0] % 0x80;
            MessageOf(FrameOf(x)) ==
            if U16(x.tcp, 2) == 502 then Some(Request(first, second, x.transactionId, x.unit, fc))
            else if U16(x.tcp, 0) == 502 then Some(Response(second, first, x.transactionId, x.unit, fc, x.pdu[0] >= 0x80))
            else None
  {
    var payload := Adu(x.transactionId, x.unit, x.pdu) + x.more;
    ParsesSegment(x.dst, x.src, x.ip, x.tcp, payload);
    ParsesAdu(x.transactionId, x.unit, x.pdu, x.more);
    hide ParseIpv4Tcp, ParseMbapPdu, Ethernet, Adu, U16;
  }

  /** Of anything but TCP over IPv4, and of frames with another protocol id than Modbus has, nothing is made. */
  lemma IgnoresOthers(dst: Octets, src: Octets, ethertype: int, payload: Octets)
    requires |dst| == 6 && |src| == 6 && 0 <= ethertype < 0x1_0000
    ensures ethertype != 0x0800 ==> MessageOf(Ethernet(dst, src, ethertype, payload)) == None
    ensures |payload| >= 4 && (payload[2] != 0 || payload[3] != 0) ==> ParseMbapPdu(payload) == None
  {
    EthernetFields(dst, src, ethertype, payload);
  }

  /** `y` answers `x`: the same connection the other way, transaction, unit and function. */
  predicate Answers(x: Passing, y: Passing)
    requires IsPassing(x) && IsPassing(y)
  {
    && x.ip[12..16] == y.ip[16..20] && x.ip[16..20] == y.ip[12..16]
    && U16(x.tcp, 0) == U16(y.tcp, 2) && U16(x.tcp, 2) == U16(y.tcp, 0)
    && x.transactionId == y.transactionId && x.unit == y.unit && x.pdu[0] % 0x80 == y.pdu[0] % 0x80
  }

  function RelKeyOf<I>(m: Message<I>): RelKey<I> {
    RelKey(m.client, m.server, m.unitId, m.functionCode)
  }

  function PendKeyOf<I>(m: Message<I>): PendKey<I> {
    PendKey(m.client, m.server, m.transactionId)
  }

  ghost function Requested<I>(l: Ledger<I>, m: Message<I>, now: int): Ledger<I> {
    var r, k := RelKeyOf(m), PendKeyOf(m);
    if r !in l.rels && |l.rels| >= MAX_RELATIONSHIPS then l
    else
      var s := if r in l.rels then l.rels[r] else EMPTY;
      Ledger(l.rels[r := s.(requests := s.requests + 1, lastSeen := Some(now))],
             l.pending[k := Pending(now, m.unitId, m.functionCode)],
             if k in l.pending then l.superseded + 1 else l.superseded, l.orphaned)
  }

  ghost function Responded<I>(l: Ledger<I>, m: Message<I>, now: int): Ledger<I>
    requires m.Response?
  {
    var r, k := RelKeyOf(m), PendKeyOf(m);
    if r !in l.rels then l.(pending := l.pending - {k}, orphaned := if k in l.pending then l.orphaned + 1 else l.orphaned)
    else
      var s := l.rels[r];
      var s1 := s.(responses := s.responses + 1, lastSeen := Some(now),
                   exceptions := if m.isException then s.exceptions + 1 else s.exceptions);
      var s2 := if k in l.pending then Timed(s1, now - l.pending[k].sentAt) else s1;
      l.(rels := l.rels[r := s2], pending := l.pending - {k})
  }

  ghost function Handled<I>(l: Ledger<I>, m: Message<I>, now: int): Ledger<I> {
    if m.Request? then Requested(Prune(l, now), m, now) else Responded(Prune(l, now), m, now)
  }

  // ----- Invariants -----

  ghost predicate StatsOk(s: Stats) {
    && s.exceptions <= s.responses && s.msCount <= s.responses
    && (s.msCount == 0 <==> s.minMs == None) && (s.msCount == 0 <==> s.maxMs == None) && (s.msCount == 0 <==> s.avgMs == None)
    && (s.msCount == 0 ==> s.sumMs == 0)
    && (s.msCount > 0 ==> s.minMs.value * s.msCount <= s.sumMs <= s.maxMs.value * s.msCount
                          && s.minMs.value <= s.avgMs.value <= s.maxMs.value)
  }

  /** Every accepted request is still pending, answered, missing, superseded or orphaned. */
  ghost predicate Balanced<I>(l: Ledger<I>) {
    Total(l.rels, RequestsOf)
    == |l.pending| + Total(l.rels, MsCountOf) + Total(l.rels, MissingOf)
       + l.superseded + l.orphaned
  }

  ghost predicate WellFormed<I(!new)>(l: Ledger<I>) {
    && |l.rels| <= MAX_RELATIONSHIPS
    && (forall r :: r in l.rels ==> StatsOk(l.rels[r]))
    && (forall k :: k in l.pending ==> RelOf(k, l.pending[k]) in l.rels && 0 <= k.transactionId < 0x1_0000)
  }

  ghost predicate Inv<I(!new)>(l: Ledger<I>) {
    Balanced(l) && WellFormed(l)
  }

  lemma TimedOk(s: Stats, ms: int)
    requires StatsOk(s) && s.msCount < s.responses
    ensures StatsOk(Timed(s, ms))
  {
    hide Rounded;
    var t := Timed(s, ms);
    var lo, hi := t.minMs.value, t.maxMs.value;
    SampleBetween(if s.minMs == None then 0 else s.minMs.value, if s.maxMs == None then 0 else s.maxMs.value,
                  lo, hi, s.sumMs, s.msCount, ms);
    RoundedBetween(lo, hi, t.sumMs, t.msCount);
  }

  /** The counters that timing does not touch. */
  lemma StatsOkElsewhere(s: Stats, requests: nat, missing: nat, lastSeen: Option<int>)
    requires StatsOk(s)
    ensures StatsOk(s.(requests := requests, lastSeen := lastSeen)) && StatsOk(s.(missing := missing))
  {
  }

  lemma RespondedOk(s: Stats, isException: bool, ms: Option<int>, now: int)
    requires StatsOk(s)
    ensures var s1 := s.(responses := s.responses + 1, lastSeen := Some(now),
                         exceptions := if isException then s.exceptions + 1 else s.exceptions);
            StatsOk(s1) && (ms != None ==> StatsOk(Timed(s1, ms.value)))
  {
    var s1 := s.(responses := s.responses + 1, lastSeen := Some(now),
                 exceptions := if isException then s.exceptions + 1 else s.exceptions);
    if ms != None {
      TimedOk(s1, ms.value);
    }
  }

  // ----- Pruning -----

  lemma ChargedStep<I>(rels: map<RelKey<I>, Stats>, pending: map<PendKey<I>, Pending>, due: set<PendKey<I>>, k: PendKey<I>)
    requires k in pending && k !in due
    ensures var r := RelOf(k, pending[k]);
            var before := Charged(rels, pending, due);
            before.Keys == rels.Keys &&
            Charged(rels, pending, due + {k}) ==
            if r in rels then before[r := before[r].(missing := before[r].missing + 1)] else before
  {
    hide DueFor;
    forall q | q in rels {
      DueStep(pending, due, k, q);
    }
  }

  lemma DueStep<I>(pending: map<PendKey<I>, Pending>, due: set<PendKey<I>>, k: PendKey<I>, q: RelKey<I>)
    requires k in pending && k !in due
    ensures var before, after := DueFor(pending, due, q), DueFor(pending, due + {k}, q);
            if q == RelOf(k, pending[k]) then after == before + {k} && |after| == |before| + 1 else after == before
  {
  }

  lemma ChargedNone<I>(rels: map<RelKey<I>, Stats>, pending: map<PendKey<I>, Pending>)
    ensures Charged(rels, pending, {}) == rels
  {
    forall r | r in rels ensures DueFor(pending, {}, r) == {} {}
  }

  /** Charging moves nothing but `missing`, by one for each due key. */
  lemma {:induction false} ChargedTotals<I>(rels: map<RelKey<I>, Stats>, pending: map<PendKey<I>, Pending>, due: set<PendKey<I>>)
    requires forall k :: k in due ==> k in pending && RelOf(k, pending[k]) in rels
    ensures var after := Charged(rels, pending, due);
            && Total(after, MissingOf) == Total(rels, MissingOf) + |due|
            && Total(after, RequestsOf) == Total(rels, RequestsOf)
            && Total(after, MsCountOf) == Total(rels, MsCountOf)
    decreases |due|
  {
    hide Charged;
    if due == {} {
      ChargedNone(rels, pending);
    } else {
      var k :| k in due;
      var rest := due - {k};
      var r := RelOf(k, pending[k]);
      ChargedTotals(rels, pending, rest);
      ChargedStep(rels, pending, rest, k);
      assert rest + {k} == due;
      var before := Charged(rels, pending, rest);
      var s := before[r].(missing := before[r].missing + 1);
      TotalsUpdate(before, r, s);
    }
  }

  lemma CardMinus<K, V>(m: map<K, V>, keys: set<K>)
    requires keys <= m.Keys
    ensures |m - keys| == |m| - |keys|
  {
    assert (m - keys).Keys == m.Keys - keys;
    assert |m| == |m.Keys| && |m - keys| == |(m - keys).Keys|;
  }

  lemma PruneBalances<I(!new)>(l: Ledger<I>, now: int)
    requires Balanced(l) && forall k :: k in l.pending ==> RelOf(k, l.pending[k]) in l.rels
    ensures Balanced(Prune(l, now))
  {
    hide Charged;
    var due := StaleKeys(l.pending, now);
    ChargedTotals(l.rels, l.pending, due);
    CardMinus(l.pending, due);
  }

  lemma PruneWellFormed<I(!new)>(l: Ledger<I>, now: int)
    requires WellFormed(l)
    ensures WellFormed(Prune(l, now))
  {
    hide StatsOk;
    var l' := Prune(l, now);
    forall r | r in l'.rels
      ensures StatsOk(l'.rels[r])
    {
      StatsOkElsewhere(l.rels[r], 0, l'.rels[r].missing, None);
    }
    assert l'.rels.Keys == l.rels.Keys;
    assert |l.rels| == |l.rels.Keys| && |l'.rels| == |l'.rels.Keys|;
  }

  /** No miss is lost, and no pending entry stays past the timeout. */
  lemma PruneKeepsInv<I(!new)>(l: Ledger<I>, now: int)
    requires Inv(l)
    ensures Inv(Prune(l, now))
    ensures forall k :: k in Prune(l, now).pending ==> now - Prune(l, now).pending[k].sentAt <= PENDING_TIMEOUT
  {
    hide Balanced, StatsOk;
    PruneBalances(l, now);
    PruneWellFormed(l, now);
  }

  // ----- Messages -----

  lemma TotalsUpdate<I>(rels: map<RelKey<I>, Stats>, r: RelKey<I>, s: Stats)
    ensures var before := if r in rels then rels[r] else EMPTY;
            var rels' := rels[r := s];
            && Total(rels', RequestsOf) == Total(rels, RequestsOf) + s.requests - before.requests
            && Total(rels', MsCountOf) == Total(rels, MsCountOf) + s.msCount - before.msCount
            && Total(rels', MissingOf) == Total(rels, MissingOf) + s.missing - before.missing
            && |rels'| == if r in rels then |rels| else |rels| + 1
  {
    TotalUpdate(rels, RequestsOf, r, s);
    TotalUpdate(rels, MsCountOf, r, s);
    TotalUpdate(rels, MissingOf, r, s);
    CardUpdate(rels, r, s);
  }

  lemma RequestedBalances<I(!new)>(l: Ledger<I>, m: Message<I>, now: int)
    requires Balanced(l)
    ensures Balanced(Requested(l, m, now))
  {
    var r, k := RelKeyOf(m), PendKeyOf(m);
    if r in l.rels || |l.rels| < MAX_RELATIONSHIPS {
      TotalsUpdate(l.rels, r, Requested(l, m, now).rels[r]);
      CardUpdate(l.pending, k, Pending(now, m.unitId, m.functionCode));
    }
  }

  lemma RequestedWellFormed<I(!new)>(l: Ledger<I>, m: Message<I>, now: int)
    requires WellFormed(l) && 0 <= m.transactionId < 0x1_0000
    ensures WellFormed(Requested(l, m, now))
  {
    hide StatsOk;
    var r := RelKeyOf(m);
    if r in l.rels || |l.rels| < MAX_RELATIONSHIPS {
      var s := if r in l.rels then l.rels[r] else EMPTY;
      EmptyOk();
      StatsOkElsewhere(s, s.requests + 1, 0, Some(now));
      CardUpdate(l.rels, r, Requested(l, m, now).rels[r]);
    }
  }

  lemma EmptyOk()
    ensures StatsOk(EMPTY)
  {
  }

  lemma RespondedBalances<I(!new)>(l: Ledger<I>, m: Message<I>, now: int)
    requires Balanced(l) && m.Response?
    ensures Balanced(Responded(l, m, now))
  {
    hide Rounded;
    var r, k := RelKeyOf(m), PendKeyOf(m);
    if k in l.pending {
      CardRemove(l.pending, k);
    } else {
      assert l.pending - {k} == l.pending;
    }
    if r in l.rels {
      TotalsUpdate(l.rels, r, Responded(l, m, now).rels[r]);
    }
  }

  lemma RespondedWellFormed<I(!new)>(l: Ledger<I>, m: Message<I>, now: int)
    requires WellFormed(l) && m.Response?
    ensures WellFormed(Responded(l, m, now))
  {
    hide StatsOk, Timed;
    var r, k := RelKeyOf(m), PendKeyOf(m);
    if r in l.rels {
      RespondedOk(l.rels[r], m.isException, if k in l.pending then Some(now - l.pending[k].sentAt) else None, now);
      CardUpdate(l.rels, r, Responded(l, m, now).rels[r]);
    }
  }

  lemma HandledKeepsInv<I(!new)>(l: Ledger<I>, m: Message<I>, now: int)
    requires Inv(l) && 0 <= m.transactionId < 0x1_0000
    ensures Inv(Handled(l, m, now))
  {
    hide Balanced, WellFormed, Prune, Requested, Responded;
    PruneKeepsInv(l, now);
    if m.Request? {
      RequestedBalances(Prune(l, now), m, now);
      RequestedWellFormed(Prune(l, now), m, now);
    } else {
      RespondedBalances(Prune(l, now), m, now);
      RespondedWellFormed(Prune(l, now), m, now);
    }
  }

  // ----- Whole runs -----

  datatype Event<I> = Packet(m: Message<I>, now: int) | Read(now: int) | Reset

  ghost function Step<I>(l: Ledger<I>, e: Event<I>): Ledger<I> {
    match e
    case Packet(m, now) => Handled(l, m, now)
    case Read(now) => Prune(l, now)
    case Reset => Ledger(map[], map[], 0, 0)
  }

  ghost function Run<I>(l: Ledger<I>, events: seq<Event<I>>): Ledger<I> {
    if events == [] then l else Step(Run(l, events[..|events| - 1]), events[|events| - 1])
  }

  lemma StepKeepsInv<I(!new)>(l: Ledger<I>, e: Event<I>)
    requires Inv(l) && (e.Packet? ==> 0 <= e.m.transactionId < 0x1_0000)
    ensures Inv(Step(l, e))
  {
    hide Inv;
    match e
    case Packet(m, now) => HandledKeepsInv(l, m, now);
    case Read(now) => PruneKeepsInv(l, now);
    case Reset => EmptyInv<I>();
  }

  lemma EmptyInv<I(!new)>()
    ensures Inv(Ledger<I>.Ledger(map[], map[], 0, 0))
  {
  }

  /** The books balance in every state of every run, whatever the clock does. */
  lemma {:induction false} RunKeepsInv<I(!new)>(events: seq<Event<I>>)
    requires forall i :: 0 <= i < |events| && events[i].Packet? ==> 0 <= events[i].m.transactionId < 0x1_0000
    ensures Inv(Run(Ledger(map[], map[], 0, 0), events))
    decreases |events|
  {
    hide Inv;
    if events == [] {
      EmptyInv<I>();
    } else {
      RunKeepsInv(events[..|events| - 1]);
      StepKeepsInv(Run(Ledger(map[], map[], 0, 0), events[..|events| - 1]), events[|events| - 1]);
    }
  }

  // ----- From a request to its response -----

  /** Nothing in between resets, carries the key, or happens after `t1`. */
  ghost predicate Between<I(!new)>(events: seq<Event<I>>, k: PendKey<I>, t1: int) {
    forall i :: 0 <= i < |events| ==> IsBetween(events[i], k, t1)
  }

  ghost predicate IsBetween<I>(e: Event<I>, k: PendKey<I>, t1: int) {
    match e
    case Packet(m, now) => PendKeyOf(m) != k && now <= t1
    case Read(now) => now <= t1
    case Reset => false
  }

  /** A request sent at `t0` waits in the ledger, or has been counted as missing since. */
  ghost predicate Awaits<I>(l: Ledger<I>, r: RelKey<I>, k: PendKey<I>, t0: int, missing: nat) {
    && r in l.rels && RelOf(k, Pending(t0, r.unitId, r.functionCode)) == r
    && (if k in l.pending then l.pending[k] == Pending(t0, r.unitId, r.functionCode) && l.rels[r].missing >= missing
        else l.rels[r].missing > missing)
  }

  lemma PruneAwaits<I(!new)>(l: Ledger<I>, r: RelKey<I>, k: PendKey<I>, t0: int, missing: nat, now: int)
    requires Awaits(l, r, k, t0, missing)
    ensures Awaits(Prune(l, now), r, k, t0, missing)
    ensures k in Prune(l, now).pending <==> k in l.pending && now - t0 <= PENDING_TIMEOUT
  {
    var due := StaleKeys(l.pending, now);
    if k in due {
      assert k in DueFor(l.pending, due, r);
    }
  }

  lemma MessageAwaits<I(!new)>(l: Ledger<I>, r: RelKey<I>, k: PendKey<I>, t0: int, missing: nat, m: Message<I>, now: int)
    requires Awaits(l, r, k, t0, missing) && PendKeyOf(m) != k
    ensures var l' := if m.Request? then Requested(l, m, now) else Responded(l, m, now);
            Awaits(l', r, k, t0, missing) && (k in l'.pending <==> k in l.pending)
  {
    hide Rounded;
  }

  lemma StepAwaits<I(!new)>(l: Ledger<I>, r: RelKey<I>, k: PendKey<I>, t0: int, missing: nat, e: Event<I>, t1: int)
    requires Awaits(l, r, k, t0, missing) && IsBetween(e, k, t1)
    ensures Awaits(Step(l, e), r, k, t0, missing)
    ensures t1 - t0 <= PENDING_TIMEOUT && k in l.pending ==> k in Step(l, e).pending
  {
    hide Awaits, Prune, Requested, Responded;
    match e
    case Packet(m, now) =>
      PruneAwaits(l, r, k, t0, missing, now);
      MessageAwaits(Prune(l, now), r, k, t0, missing, m, now);
    case Read(now) =>
      PruneAwaits(l, r, k, t0, missing, now);
  }

  lemma {:induction false} RunAwaits<I(!new)>(l: Ledger<I>, r: RelKey<I>, k: PendKey<I>, t0: int, missing: nat, events: seq<Event<I>>, t1: int)
    requires Awaits(l, r, k, t0, missing) && Between(events, k, t1)
    ensures Awaits(Run(l, events), r, k, t0, missing)
    ensures t1 - t0 <= PENDING_TIMEOUT && k in l.pending ==> k in Run(l, events).pending
    decreases |events|
  {
    hide Awaits, IsBetween, Step;
    if events != [] {
      var n := |events| - 1;
      assert Between(events[..n], k, t1);
      RunAwaits(l, r, k, t0, missing, events[..n], t1);
      StepAwaits(Run(l, events[..n]), r, k, t0, missing, events[n], t1);
    }
  }

  lemma RequestAwaits<I(!new)>(l: Ledger<I>, request: Message<I>, t0: int)
    requires request.Request? && (RelKeyOf(request) in l.rels || |l.rels| < MAX_RELATIONSHIPS)
    ensures var asked := Handled(l, request, t0);
            var r, k := RelKeyOf(request), PendKeyOf(request);
            k in asked.pending && r in asked.rels && Awaits(asked, r, k, t0, asked.rels[r].missing)
  {
    var pruned := Prune(l, t0);
    assert pruned.rels.Keys == l.rels.Keys && |pruned.rels| == |pruned.rels.Keys| && |l.rels| == |l.rels.Keys|;
  }

  lemma ResponseAnswers<I(!new)>(l: Ledger<I>, r: RelKey<I>, k: PendKey<I>, t0: int, missing: nat, response: Message<I>, t1: int)
    requires Awaits(l, r, k, t0, missing) && response.Response? && r == RelKeyOf(response) && k == PendKeyOf(response)
    ensures var answered := Responded(l, response, t1);
            && r in answered.rels && k !in answered.pending && answered.rels[r].responses == l.rels[r].responses + 1
            && answered.rels[r].missing == l.rels[r].missing
            && (if k in l.pending then answered.rels[r].msCount == l.rels[r].msCount + 1 && answered.rels[r].sumMs == l.rels[r].sumMs + t1 - t0
                else answered.rels[r].msCount == l.rels[r].msCount && answered.rels[r].sumMs == l.rels[r].sumMs)
  {
    hide Rounded;
  }

  lemma PruneCounters<I(!new)>(l: Ledger<I>, r: RelKey<I>, now: int)
    requires r in l.rels
    ensures r in Prune(l, now).rels
    ensures var s, s' := l.rels[r], Prune(l, now).rels[r];
            s'.responses == s.responses && s'.msCount == s.msCount && s'.sumMs == s.sumMs
  {
  }

  /**
   A response to an accepted request, whatever other packets and reads come in between: within the timeout
   it is timed, with exactly the time since the request; later it is not, and the request has been counted
   as missing since it was sent.
   */
  lemma AnswerIsTimed<I(!new)>(l: Ledger<I>, request: Message<I>, t0: int, events: seq<Event<I>>, response: Message<I>, t1: int)
    requires request.Request? && response.Response?
    requires RelKeyOf(request) == RelKeyOf(response) && PendKeyOf(request) == PendKeyOf(response)
    requires RelKeyOf(request) in l.rels || |l.rels| < MAX_RELATIONSHIPS
    requires Between(events, PendKeyOf(request), t1)
    ensures var r := RelKeyOf(request);
            var asked := Handled(l, request, t0);
            var before := Run(asked, events);
            var answered := Handled(before, response, t1);
            && r in asked.rels && r in before.rels && r in answered.rels && PendKeyOf(request) !in answered.pending
            && answered.rels[r].responses == before.rels[r].responses + 1
            && (t1 - t0 <= PENDING_TIMEOUT ==>
                  answered.rels[r].msCount == before.rels[r].msCount + 1
                  && answered.rels[r].sumMs == before.rels[r].sumMs + t1 - t0)
            && (t1 - t0 > PENDING_TIMEOUT ==>
                  answered.rels[r].msCount == before.rels[r].msCount && answered.rels[r].sumMs == before.rels[r].sumMs
                  && answered.rels[r].missing > asked.rels[r].missing)
  {
    hide Prune, Requested, Responded, Run, Between;
    var r, k := RelKeyOf(request), PendKeyOf(request);
    var asked := Handled(l, request, t0);
    RequestAwaits(l, request, t0);
    var missing := asked.rels[r].missing;
    RunAwaits(asked, r, k, t0, missing, events, t1);
    var before := Run(asked, events);
    PruneAwaits(before, r, k, t0, missing, t1);
    PruneCounters(before, r, t1);
    ResponseAnswers(Prune(before, t1), r, k, t0, missing, response, t1);
  }

  /** The two packets of an exchange with port 502 belong to one relationship and one pending request. */
  lemma ExchangeMatches(x: Passing, y: Passing)
    requires IsPassing(x) && IsPassing(y) && Answers(x, y) && U16(x.tcp, 2) == 502 && U16(x.tcp, 0) != 502
    ensures MessageOf(FrameOf(x)).Some? && MessageOf(FrameOf(y)).Some?
    ensures var request, response := MessageOf(FrameOf(x)).value, MessageOf(FrameOf(y)).value;
            && request.Request? && response.Response? && (response.isException <==> y.pdu[0] >= 0x80)
            && RelKeyOf(request) == RelKeyOf(response) == RelKey(x.ip[12..16], x.ip[16..20], x.unit, x.pdu[0] % 0x80)
            && PendKeyOf(request) == PendKeyOf(response) == PendKey(x.ip[12..16], x.ip[16..20], x.transactionId)
  {
    MessageOfFrame(x);
    MessageOfFrame(y);
    hide MessageOf, FrameOf, U16;
  }

  /** So a response that follows its request within five seconds is timed with exactly the time between the packets. */
  lemma ExchangeIsTimed(l: Ledger<Octets>, x: Passing, t0: int, events: seq<Event<Octets>>, y: Passing, t1: int)
    requires IsPassing(x) && IsPassing(y) && Answers(x, y) && U16(x.tcp, 2) == 502 && U16(x.tcp, 0) != 502
    requires var r := RelKey(x.ip[12..16], x.ip[16..20], x.unit, x.pdu[0] % 0x80); r in l.rels || |l.rels| < 200
    requires Between(events, PendKey(x.ip[12..16], x.ip[16..20], x.transactionId), t1)
    ensures MessageOf(FrameOf(x)).Some? && MessageOf(FrameOf(y)).Some?
    ensures var r := RelKey(x.ip[12..16], x.ip[16..20], x.unit, x.pdu[0] % 0x80);
            var asked := Handled(l, MessageOf(FrameOf(x)).value, t0);
            var before := Run(asked, events);
            var answered := Handled(before, MessageOf(FrameOf(y)).value, t1);
            && r in asked.rels && r in before.rels && r in answered.rels
            && answered.rels[r].responses == before.rels[r].responses + 1
            && (if t1 - t0 <= 50_000 then
                  answered.rels[r].msCount == before.rels[r].msCount + 1
                  && answered.rels[r].sumMs == before.rels[r].sumMs + t1 - t0
                else
                  answered.rels[r].msCount == before.rels[r].msCount && answered.rels[r].sumMs == before.rels[r].sumMs
                  && answered.rels[r].missing > asked.rels[r].missing)
  {
    ExchangeMatches(x, y);
    hide MessageOf, FrameOf, U16, Handled, Run, Between, RelKeyOf, PendKeyOf;
    AnswerIsTimed(l, MessageOf(FrameOf(x)).value, t0, events, MessageOf(FrameOf(y)).value, t1);
  }

  /** A request forgets an earlier one exactly when that still waits for its response with the same key. */
  lemma SupersededIff<I(!new)>(l: Ledger<I>, m: Message<I>, now: int)
    requires m.Request?
    ensures Handled(l, m, now).orphaned == l.orphaned
    ensures Handled(l, m, now).superseded == l.superseded + 1 <==>
            && PendKeyOf(m) in l.pending && now - l.pending[PendKeyOf(m)].sentAt <= 50_000
            && (RelKeyOf(m) in l.rels || |l.rels| < 200)
  {
    PrunedPending(l, RelKeyOf(m), PendKeyOf(m), now);
    PruneKeepsRest(l, now);
    hide Prune;
  }

  lemma PruneKeepsRest<I(!new)>(l: Ledger<I>, now: int)
    ensures var l' := Prune(l, now);
            l'.superseded == l.superseded && l'.orphaned == l.orphaned && |l'.rels| == |l.rels|
  {
    var l' := Prune(l, now);
    assert l'.rels.Keys == l.rels.Keys && |l'.rels| == |l'.rels.Keys| && |l.rels| == |l.rels.Keys|;
  }

  /** A response forgets a request without counting it exactly when it comes in time for its key but for no relationship. */
  lemma OrphanedIff<I(!new)>(l: Ledger<I>, m: Message<I>, now: int)
    requires m.Response?
    ensures Handled(l, m, now).orphaned == l.orphaned + 1 <==>
            RelKeyOf(m) !in l.rels && PendKeyOf(m) in l.pending && now - l.pending[PendKeyOf(m)].sentAt <= PENDING_TIMEOUT
  {
    hide Rounded;
  }

  /** A request to unit 1 and a response of unit 2 with its transaction id: the request is gone, neither answered nor missing. */
  lemma OtherUnitOrphans<I(!new)>(client: I, server: I)
    ensures var events := [Packet(Request(client, server, 7, 1, 3), 0), Packet(Response(client, server, 7, 2, 3, false), 10),
                           Read(2 * PENDING_TIMEOUT)];
            var l := Run(Ledger(map[], map[], 0, 0), events);
            var r := RelKey(client, server, 1, 3);
            && l.pending == map[] && l.orphaned == 1
            && r in l.rels && l.rels[r].requests == 1 && l.rels[r].responses == 0 && l.rels[r].missing == 0
  {
    hide Handled, Prune, Step;
    var l0 := Ledger<I>.Ledger(map[], map[], 0, 0);
    var first: Event<I> := Packet(Request(client, server, 7, 1, 3), 0);
    var second: Event<I> := Packet(Response(client, server, 7, 2, 3, false), 10);
    var third: Event<I> := Read(2 * PENDING_TIMEOUT);
    assert [first, second, third][..2] == [first, second] && [first, second][..1] == [first] && [first][..0] == [];
    assert Run(l0, [first]) == Step(Run(l0, []), first);
    assert Run(l0, [first, second]) == Step(Run(l0, [first]), second);
    assert Run(l0, [first, second, third]) == Step(Run(l0, [first, second]), third);
    OneRequest(client, server);
    OtherUnitAnswers(client, server);
    EmptyPrune(WithoutPending(client, server), 2 * PENDING_TIMEOUT);
    ReadPrunes(WithoutPending(client, server), 2 * PENDING_TIMEOUT);
  }

  lemma ReadPrunes<I(!new)>(l: Ledger<I>, now: int)
    ensures Step(l, Read(now)) == Prune(l, now)
  {
  }

  /** One request, and what a response of another unit leaves of it. */
  ghost function WithPending<I(!new)>(client: I, server: I): Ledger<I> {
    Ledger(map[RelKey(client, server, 1, 3) := EMPTY.(requests := 1, lastSeen := Some(0))],
           map[PendKey(client, server, 7) := Pending(0, 1, 3)], 0, 0)
  }

  ghost function WithoutPending<I(!new)>(client: I, server: I): Ledger<I> {
    WithPending(client, server).(pending := map[], orphaned := 1)
  }

  lemma OneRequest<I(!new)>(client: I, server: I)
    ensures Step(Ledger(map[], map[], 0, 0), Packet(Request(client, server, 7, 1, 3), 0)) == WithPending(client, server)
  {
    hide Prune;
    EmptyPrune(Ledger<I>.Ledger(map[], map[], 0, 0), 0);
  }

  lemma OtherUnitAnswers<I(!new)>(client: I, server: I)
    ensures Step(WithPending(client, server), Packet(Response(client, server, 7, 2, 3, false), 10)) == WithoutPending(client, server)
  {
    hide Prune, Rounded;
    var l := WithPending(client, server);
    NothingStale(l, 10);
    var k := PendKey(client, server, 7);
    assert l.pending - {k} == map[];
  }

  lemma NothingStale<I(!new)>(l: Ledger<I>, now: int)
    requires forall k :: k in l.pending ==> now - l.pending[k].sentAt <= PENDING_TIMEOUT
    ensures Prune(l, now) == l
  {
    assert StaleKeys(l.pending, now) == {};
    ChargedNone(l.rels, l.pending);
    assert l.pending - {} == l.pending;
  }

  lemma EmptyPrune<I(!new)>(l: Ledger<I>, now: int)
    requires l.pending == map[]
    ensures Prune(l, now) == l
  {
    assert StaleKeys(l.pending, now) == {};
    ChargedNone(l.rels, l.pending);
  }

  // ----- What the counters count -----

  /** What has passed by of one relationship since the last reset, from its first request on. */
  datatype Tally = Tally(requests: nat, responses: nat, exceptions: nat, lastSeen: Option<int>)

  ghost function Counted<I(!new)>(events: seq<Event<I>>, r: RelKey<I>): Tally {
    if events == [] then Tally(0, 0, 0, None)
    else
      var t := Counted(events[..|events| - 1], r);
      match events[|events| - 1]
      case Reset => Tally(0, 0, 0, None)
      case Read(_) => t
      case Packet(m, now) =>
        if RelKeyOf(m) != r || (m.Response? && t.requests == 0) then t
        else if m.Request? then t.(requests := t.requests + 1, lastSeen := Some(now))
        else t.(responses := t.responses + 1, lastSeen := Some(now),
                exceptions := if m.isException then t.exceptions + 1 else t.exceptions)
  }

  ghost predicate Tallies(s: Stats, t: Tally) {
    s.requests == t.requests && s.responses == t.responses && s.exceptions == t.exceptions && s.lastSeen == t.lastSeen
  }

  /** The relationship is tallied, or its requests have found the table full. */
  ghost predicate TalliedIn<I>(l: Ledger<I>, r: RelKey<I>, t: Tally) {
    if r in l.rels then t.requests > 0 && Tallies(l.rels[r], t)
    else t == Tally(0, 0, 0, None) || |l.rels| >= 200
  }

  lemma PruneTallies<I(!new)>(l: Ledger<I>, r: RelKey<I>, t: Tally, now: int)
    requires TalliedIn(l, r, t)
    ensures TalliedIn(Prune(l, now), r, t)
  {
    var l' := Prune(l, now);
    assert l'.rels.Keys == l.rels.Keys;
    assert |l.rels| == |l.rels.Keys| && |l'.rels| == |l'.rels.Keys|;
  }

  lemma RequestTallies<I(!new)>(l: Ledger<I>, r: RelKey<I>, t: Tally, m: Message<I>, now: int)
    requires TalliedIn(l, r, t) && m.Request?
    ensures TalliedIn(Requested(l, m, now), r,
                      if RelKeyOf(m) == r then t.(requests := t.requests + 1, lastSeen := Some(now)) else t)
  {
    var q := RelKeyOf(m);
    if q in l.rels || |l.rels| < MAX_RELATIONSHIPS {
      CardUpdate(l.rels, q, Requested(l, m, now).rels[q]);
    }
  }

  lemma ResponseTallies<I(!new)>(l: Ledger<I>, r: RelKey<I>, t: Tally, m: Message<I>, now: int)
    requires TalliedIn(l, r, t) && m.Response?
    ensures TalliedIn(Responded(l, m, now), r,
                      if RelKeyOf(m) == r && r in l.rels then
                        t.(responses := t.responses + 1, lastSeen := Some(now),
                           exceptions := if m.isException then t.exceptions + 1 else t.exceptions)
                      else t)
    ensures |Responded(l, m, now).rels| == |l.rels|
  {
    hide Rounded;
    var q := RelKeyOf(m);
    if q in l.rels {
      CardUpdate(l.rels, q, Responded(l, m, now).rels[q]);
    }
  }

  lemma StepTallies<I(!new)>(l: Ledger<I>, r: RelKey<I>, events: seq<Event<I>>, e: Event<I>)
    requires TalliedIn(l, r, Counted(events, r))
    ensures TalliedIn(Step(l, e), r, Counted(events + [e], r))
  {
    assert (events + [e])[..|events|] == events;
    hide Prune, Requested, Responded;
    match e
    case Reset =>
    case Read(now) => PruneTallies(l, r, Counted(events, r), now);
    case Packet(m, now) =>
      PruneTallies(l, r, Counted(events, r), now);
      if m.Request? {
        RequestTallies(Prune(l, now), r, Counted(events, r), m, now);
      } else {
        ResponseTallies(Prune(l, now), r, Counted(events, r), m, now);
      }
  }

  /**
   In every run a listed relationship shows exactly how many requests, responses and exception responses
   have passed by since its first request, and when the last of them did; one that is not listed has had no
   request, or the table is full.
   */
  lemma {:induction false} CountersAreExact<I(!new)>(events: seq<Event<I>>, r: RelKey<I>)
    ensures TalliedIn(Run(Ledger(map[], map[], 0, 0), events), r, Counted(events, r))
    decreases |events|
  {
    hide Step, Counted;
    if events == [] {
      NothingCounted(r);
    } else {
      var n := |events| - 1;
      CountersAreExact(events[..n], r);
      StepTallies(Run(Ledger(map[], map[], 0, 0), events[..n]), r, events[..n], events[n]);
      assert events[..n] + [events[n]] == events;
    }
  }

  lemma NothingCounted<I(!new)>(r: RelKey<I>)
    ensures Counted([], r) == Tally(0, 0, 0, None)
  {
  }

  /** The response `m` comes at `now`, of a listed relationship, to a request that has waited five seconds at most. */
  ghost predicate InTime<I>(l: Ledger<I>, r: RelKey<I>, m: Message<I>, now: int) {
    && m.Response? && RelKeyOf(m) == r && r in l.rels
    && PendKeyOf(m) in l.pending && now - l.pending[PendKeyOf(m)].sentAt <= 50_000
  }

  ghost function DelaysAfter<I(!new)>(l: Ledger<I>, delays: seq<int>, e: Event<I>, r: RelKey<I>): seq<int> {
    match e
    case Reset => []
    case Read(_) => delays
    case Packet(m, now) => if InTime(l, r, m, now) then delays + [now - l.pending[PendKeyOf(m)].sentAt] else delays
  }

  /** How long the requests of a relationship have waited for their responses in time, since the last reset. */
  ghost function Delays<I(!new)>(events: seq<Event<I>>, r: RelKey<I>): seq<int> {
    if events == [] then []
    else
      var n := |events| - 1;
      DelaysAfter(Run(Ledger(map[], map[], 0, 0), events[..n]), Delays(events[..n], r), events[n], r)
  }

  function Sum(s: seq<int>): int {
    if s == [] then 0 else Sum(s[..|s| - 1]) + s[|s| - 1]
  }

  /** Count, sum, extremes and rounded mean of some delays. */
  ghost predicate Describes(s: Stats, delays: seq<int>) {
    && s.msCount == |delays| && s.sumMs == Sum(delays)
    && (delays == [] ==> s.minMs == None && s.maxMs == None && s.avgMs == None)
    && (delays != [] ==>
          && s.minMs != None && s.minMs.value in delays && (forall d :: d in delays ==> s.minMs.value <= d)
          && s.maxMs != None && s.maxMs.value in delays && (forall d :: d in delays ==> d <= s.maxMs.value)
          && s.avgMs == Some(Rounded(Sum(delays), |delays|)))
  }

  lemma TimedDescribes(s: Stats, delays: seq<int>, ms: int)
    requires Describes(s, delays)
    ensures Describes(Timed(s, ms), delays + [ms])
  {
    hide Rounded;
    var all := delays + [ms];
    assert all[..|delays|] == delays;
    assert forall d :: d in all <==> d in delays || d == ms;
  }

  ghost predicate DescribedIn<I>(l: Ledger<I>, r: RelKey<I>, delays: seq<int>) {
    if r in l.rels then Describes(l.rels[r], delays) else delays == []
  }

  lemma PruneDescribes<I(!new)>(l: Ledger<I>, r: RelKey<I>, delays: seq<int>, now: int)
    requires DescribedIn(l, r, delays)
    ensures DescribedIn(Prune(l, now), r, delays)
  {
  }

  lemma PrunedPending<I(!new)>(l: Ledger<I>, r: RelKey<I>, k: PendKey<I>, now: int)
    ensures k in Prune(l, now).pending <==> k in l.pending && now - l.pending[k].sentAt <= 50_000
    ensures k in Prune(l, now).pending ==> Prune(l, now).pending[k] == l.pending[k]
    ensures r in l.rels <==> r in Prune(l, now).rels
  {
  }

  lemma RequestDescribes<I(!new)>(l: Ledger<I>, r: RelKey<I>, delays: seq<int>, m: Message<I>, now: int)
    requires DescribedIn(l, r, delays) && m.Request?
    ensures DescribedIn(Requested(l, m, now), r, delays)
  {
  }

  lemma ResponseDescribes<I(!new)>(l: Ledger<I>, r: RelKey<I>, delays: seq<int>, m: Message<I>, now: int)
    requires DescribedIn(l, r, delays) && m.Response?
    ensures DescribedIn(Responded(l, m, now), r,
                        if RelKeyOf(m) == r && r in l.rels && PendKeyOf(m) in l.pending
                        then delays + [now - l.pending[PendKeyOf(m)].sentAt] else delays)
  {
    hide Timed;
    if RelKeyOf(m) == r && r in l.rels {
      var s := l.rels[r];
      var s1 := s.(responses := s.responses + 1, lastSeen := Some(now),
                   exceptions := if m.isException then s.exceptions + 1 else s.exceptions);
      assert Describes(s1, delays);
      if PendKeyOf(m) in l.pending {
        TimedDescribes(s1, delays, now - l.pending[PendKeyOf(m)].sentAt);
      }
    }
  }

  lemma PacketDescribes<I(!new)>(l: Ledger<I>, r: RelKey<I>, delays: seq<int>, m: Message<I>, now: int)
    requires DescribedIn(l, r, delays)
    ensures DescribedIn(Handled(l, m, now), r, DelaysAfter(l, delays, Packet(m, now), r))
  {
    hide Prune, Requested, Responded, DescribedIn, RelKeyOf, PendKeyOf;
    PruneDescribes(l, r, delays, now);
    PrunedPending(l, r, PendKeyOf(m), now);
    if m.Request? {
      RequestDescribes(Prune(l, now), r, delays, m, now);
    } else {
      ResponseDescribes(Prune(l, now), r, delays, m, now);
    }
  }

  lemma StepDescribes<I(!new)>(l: Ledger<I>, r: RelKey<I>, delays: seq<int>, e: Event<I>)
    requires DescribedIn(l, r, delays)
    ensures DescribedIn(Step(l, e), r, DelaysAfter(l, delays, e, r))
  {
    hide Handled, Prune;
    match e
    case Reset =>
    case Read(now) => PruneDescribes(l, r, delays, now);
    case Packet(m, now) => PacketDescribes(l, r, delays, m, now);
  }

  /** In every run the times shown of a relationship are those of its responses in time: least, greatest and mean. */
  lemma {:induction false} TimesAreExact<I(!new)>(events: seq<Event<I>>, r: RelKey<I>)
    ensures DescribedIn(Run(Ledger(map[], map[], 0, 0), events), r, Delays(events, r))
    decreases |events|
  {
    hide Step, DelaysAfter;
    if events != [] {
      var n := |events| - 1;
      TimesAreExact(events[..n], r);
      hide DescribedIn;
      StepDescribes(Run(Ledger(map[], map[], 0, 0), events[..n]), r, Delays(events[..n], r), events[n]);
    }
  }

  // ----- The size of the tables -----

  ghost function Ids(n: nat): set<int> {
    if n == 0 then {} else Ids(n - 1) + {n - 1}
  }

  lemma {:induction false} IdsCard(n: nat)
    ensures |Ids(n)| == n && forall t :: t in Ids(n) <==> 0 <= t < n
  {
    if n > 0 {
      IdsCard(n - 1);
    }
  }

  ghost function Pairs<A(!new)>(a: set<A>, n: nat): set<(A, int)> {
    set x, t | x in a && t in Ids(n) :: (x, t)
  }

  lemma {:induction false} PairsWith<A(!new)>(x: A, n: nat)
    ensures |Pairs({x}, n)| == n
  {
    IdsCard(n);
    if n == 0 {
      assert Pairs({x}, 0) == {};
    } else {
      IdsCard(n - 1);
      PairsWith(x, n - 1);
      assert Pairs({x}, n) == Pairs({x}, n - 1) + {(x, n - 1)};
    }
  }

  lemma {:induction false} PairsCard<A(!new)>(a: set<A>, n: nat)
    ensures |Pairs(a, n)| == |a| * n
    decreases |a|
  {
    if a == {} {
      assert Pairs(a, n) == {};
    } else {
      var x :| x in a;
      PairsCard(a - {x}, n);
      PairsWith(x, n);
      assert Pairs(a, n) == Pairs(a - {x}, n) + Pairs({x}, n);
      assert (|a| - 1) * n + n == |a| * n;
    }
  }

  ghost function Tagged<I>(pending: map<PendKey<I>, Pending>, keys: set<PendKey<I>>): set<(RelKey<I>, int)>
    requires keys <= pending.Keys
  {
    set k | k in keys :: (RelOf(k, pending[k]), k.transactionId)
  }

  lemma {:induction false} TaggedCard<I>(pending: map<PendKey<I>, Pending>, keys: set<PendKey<I>>)
    requires keys <= pending.Keys
    ensures |Tagged(pending, keys)| == |keys|
    decreases |keys|
  {
    if keys != {} {
      var k :| k in keys;
      TaggedCard(pending, keys - {k});
      assert Tagged(pending, keys) == Tagged(pending, keys - {k}) + {(RelOf(k, pending[k]), k.transactionId)};
    }
  }

  /** A pending request is told apart by its relationship and its 16-bit transaction id. */
  lemma PendingBounded<I(!new)>(l: Ledger<I>)
    requires Inv(l)
    ensures |l.pending| <= 0x1_0000 * |l.rels| <= 0x1_0000 * MAX_RELATIONSHIPS
  {
    var keys := l.pending.Keys;
    TaggedCard(l.pending, keys);
    IdsCard(0x1_0000);
    PairsCard(l.rels.Keys, 0x1_0000);
    SubsetCard(Tagged(l.pending, keys), Pairs(l.rels.Keys, 0x1_0000));
    assert |l.pending| == |keys| && |l.rels| == |l.rels.Keys|;
  }

  // ----- The analyser -----

  class TrafficAnalyser {
    var relationships: map<RelKey<Octets>, Stats>
    var pending: map<PendKey<Octets>, Pending>
    ghost var superseded: nat
    ghost var orphaned: nat

    ghost function View(): Ledger<Octets>
      reads this
    {
      Ledger(relationships, pending, superseded, orphaned)
    }

    constructor ()
      ensures View() == Ledger(map[], map[], 0, 0) && Inv(View())
    {
      relationships, pending, superseded, orphaned := map[], map[], 0, 0;
      EmptyInv<Octets>();
    }

    method PruneStalePending(now: int)
      modifies this`relationships, this`pending
      ensures View() == Prune(old(View()), now)
    {
      hide Charged;
      ghost var rels, waiting := relationships, pending;
      var todo := StaleKeys(pending, now);
      ghost var done: set<PendKey<Octets>> := {};
      ChargedNone(rels, waiting);
      assert waiting - {} == waiting;
      while todo != {}
        invariant todo !! done && todo + done == StaleKeys(waiting, now)
        invariant pending == waiting - done && relationships == Charged(rels, waiting, done)
        decreases todo
      {
        var k :| k in todo;
        var r := RelOf(k, pending[k]);
        ChargedStep(rels, waiting, done, k);
        pending := pending - {k};
        if r in relationships {
          relationships := relationships[r := relationships[r].(missing := relationships[r].missing + 1)];
        }
        todo, done := todo - {k}, done + {k};
      }
    }

    method HandlePacket(packet: Octets, now: int)
      requires Inv(View())
      modifies this
      ensures Inv(View())
      ensures match MessageOf(packet)
              case None => View() == old(View())
              case Some(m) => View() == Handled(old(View()), m, now)
    {
      hide Inv, MessageOf, Prune, Requested, Responded;
      var message := MessageOf(packet);
      if message == None {
        return;
      }
      HandledKeepsInv(View(), message.value, now);
      PruneStalePending(now);
      if message.value.Request? {
        RecordRequest(message.value, now);
      } else {
        RecordResponse(message.value, now);
      }
    }

    method RecordRequest(m: Message<Octets>, now: int)
      modifies this
      ensures View() == Requested(old(View()), m, now)
    {
      var r := RelKey(m.client, m.server, m.unitId, m.functionCode);
      var k := PendKey(m.client, m.server, m.transactionId);
      if r !in relationships && |relationships| >= MAX_RELATIONSHIPS {
        return;
      }
      var s := if r in relationships then relationships[r] else EMPTY;
      relationships := relationships[r := s.(requests := s.requests + 1, lastSeen := Some(now))];
      superseded := if k in pending then superseded + 1 else superseded;
      pending := pending[k := Pending(now, m.unitId, m.functionCode)];
    }

    method RecordResponse(m: Message<Octets>, now: int)
      requires m.Response?
      modifies this
      ensures View() == Responded(old(View()), m, now)
    {
      var r := RelKey(m.client, m.server, m.unitId, m.functionCode);
      var k := PendKey(m.client, m.server, m.transactionId);
      var entry := if k in pending then Some(pending[k]) else None;
      pending := pending - {k};
      if r !in relationships {
        orphaned := if entry == None then orphaned else orphaned + 1;
        return;
      }
      var s := relationships[r];
      s := s.(responses := s.responses + 1, lastSeen := Some(now),
              exceptions := if m.isException then s.exceptions + 1 else s.exceptions);
      if entry != None {
        s := Timed(s, now - entry.value.sentAt);
      }
      relationships := relationships[r := s];
    }

    method GetStats(now: int) returns (table: map<RelKey<Octets>, Stats>)
      requires Inv(View())
      modifies this
      ensures View() == Prune(old(View()), now) && Inv(View()) && table == relationships
    {
      hide Inv;
      PruneKeepsInv(View(), now);
      PruneStalePending(now);
      table := relationships;
    }

    method Reset()
      modifies this
      ensures View() == Ledger(map[], map[], 0, 0) && Inv(View())
    {
      relationships, pending, superseded, orphaned := map[], map[], 0, 0;
      EmptyInv<Octets>();
    }
  }
}
