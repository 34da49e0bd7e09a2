/**
 The traffic statistics (backend/capture/traffic_stats.py): totals, talkers and the sliding window, each
 against the history of the frames recorded since the last reset.  The clock is in milliseconds.
 */
module TrafficStats {
  import opened Admission
  import opened Bytes
  import opened Frames
  import opened Listing
  import opened MapSums
  import opened Rounding
  import opened Sets
  import opened Sorting
  import opened Wrappers

  const WINDOW := 5000
  const MAX_TALKERS := 500

  datatype Protocol = Arp | Ipv4 | Ipv6 | Dhcp | Lldp | Cdp | Mdns | Ssdp | Profinet | S7

  datatype Cast = Broadcast | Multicast | Unicast

  /** A classified frame. */
  datatype Frame<M, I> = Frame(mac: M, ip: Option<I>, cast: Cast, protocols: set<Protocol>, length: nat)

  // ----- Classification -----

  const MIN_FRAME := 14
  const BROADCAST_MAC: Octets := [0xff, 0xff, 0xff, 0xff, 0xff, 0xff]
  const CDP_MAC: Octets := [0x01, 0x00, 0x0c, 0xcc, 0xcc, 0xcc]
  const UDP := 17
  const TCP := 6
  const S7_PORT := 102

  function CastOf(dst: Octets): Cast
    requires |dst| == 6
  {
    if dst == BROADCAST_MAC then Broadcast else if dst[0] % 2 == 1 then Multicast else Unicast
  }

  function UdpProtocols(sport: int, dport: int): set<Protocol> {
    if sport == 67 || dport == 67 || sport == 68 || dport == 68 then {Dhcp}
    else if sport == 5353 || dport == 5353 then {Mdns}
    else if sport == 1900 || dport == 1900 then {Ssdp}
    else {}
  }

  /** S7 traffic is a segment of port 102 that carries data behind its TCP header. */
  function TcpProtocols(p: Octets, l4: nat): set<Protocol>
    requires |p| >= l4 + 4
  {
    if (U16(p, l4) == S7_PORT || U16(p, l4 + 2) == S7_PORT) && |p| >= l4 + 20 && |p| > l4 + (p[l4 + 12] as int) / 16 * 4
    then {S7}
    else {}
  }

  function L4Protocols(p: Octets): set<Protocol>
    requires |p| >= 34
  {
    var l4 := 14 + (p[14] as int) % 16 * 4;
    if |p| < l4 + 4 then {}
    else if p[23] == UDP then UdpProtocols(U16(p, l4), U16(p, l4 + 2))
    else if p[23] == TCP then TcpProtocols(p, l4)
    else {}
  }

  function LinkProtocols(p: Octets): set<Protocol>
    requires |p| >= MIN_FRAME
  {
    var ethertype := U16(p, 12);
    if ethertype == 0x0806 then {Arp}
    else if ethertype == 0x0800 then {Ipv4}
    else if ethertype == 0x86dd then {Ipv6}
    else if ethertype == 0x88cc then {Lldp}
    else if ethertype == 0x8892 then {Profinet}
    else if p[..6] == CDP_MAC then {Cdp}
    else {}
  }

  /** `_classify`. */
  function Classify(p: Octets): Frame<Octets, Octets>
    requires |p| >= MIN_FRAME
  {
    var ethertype := U16(p, 12);
    var ip := if ethertype == 0x0806 && |p| >= 32 then Some(p[28..32])
              else if ethertype == 0x0800 && |p| >= 34 then Some(p[26..30])
              else None;
    var l4 := if ethertype == 0x0800 && |p| >= 34 then L4Protocols(p) else {};
    Frame(p[6..12], ip, CastOf(p[..6]), LinkProtocols(p) + l4, |p|)
  }

  const LINK: set<Protocol> := {Arp, Ipv4, Ipv6, Lldp, Profinet, Cdp}
  const UPPER: set<Protocol> := {Dhcp, Mdns, Ssdp, S7}

  /** At most one protocol of the link, and at most one above IPv4. */
  ghost predicate Shaped<M, I>(f: Frame<M, I>) {
    && (forall p, q :: p in f.protocols * LINK && q in f.protocols * LINK ==> p == q)
    && (forall p, q :: p in f.protocols * UPPER && q in f.protocols * UPPER ==> p == q)
    && (f.protocols * UPPER != {} ==> Ipv4 in f.protocols)
  }

  lemma ClassifyIsShaped(p: Octets)
    requires |p| >= MIN_FRAME
    ensures Shaped(Classify(p))
  {
    hide U16;
    LinkIsOne(p);
    if |p| >= 34 {
      L4IsOne(p);
    }
  }

  lemma LinkIsOne(p: Octets)
    requires |p| >= MIN_FRAME
    ensures LinkProtocols(p) <= LINK
    ensures forall a, b :: a in LinkProtocols(p) && b in LinkProtocols(p) ==> a == b
    ensures U16(p, 12) == 0x0800 ==> LinkProtocols(p) == {Ipv4}
  {
  }

  lemma L4IsOne(p: Octets)
    requires |p| >= 34
    ensures L4Protocols(p) <= UPPER
    ensures forall a, b :: a in L4Protocols(p) && b in L4Protocols(p) ==> a == b
  {
    hide U16;
  }

  /** A bare TCP segment is never counted as S7, whatever its ports. */
  lemma BareSegmentIsNotS7(p: Octets)
    requires |p| >= 34 && p[23] == TCP
    requires var l4 := 14 + (p[14] as int) % 16 * 4; |p| >= l4 + 20 && |p| == l4 + (p[l4 + 12] as int) / 16 * 4
    ensures S7 !in Classify(p).protocols
  {
    hide U16;
  }

  /** What an IPv4 packet in an Ethernet frame counts as, by its ports. */
  lemma ClassifiesIpv4(dst: Octets, src: Octets, h: Octets, l4: Octets)
    requires |dst| == 6 && |src| == 6 && IsIpv4Header(h)
    ensures var f := Classify(Ethernet(dst, src, 0x0800, h + l4));
            && f.mac == src && f.ip == Some(h[12..16]) && f.cast == CastOf(dst) && f.length == ETHERNET_LEN + |h| + |l4|
            && f.protocols == {Ipv4} + (
                 if |l4| < 4 then {}
                 else if h[9] == UDP then UdpProtocols(U16(l4, 0), U16(l4, 2))
                 else if h[9] == TCP && (U16(l4, 0) == S7_PORT || U16(l4, 2) == S7_PORT) && |l4| >= 20 && |l4| > (l4[12] as int) / 16 * 4
                 then {S7}
                 else {})
  {
    hide U16, Ethernet, UdpProtocols, CastOf;
    var p := Ethernet(dst, src, 0x0800, h + l4);
    EthernetFields(dst, src, 0x0800, h + l4);
    Ipv4Fields(p, h, l4);
    var at := ETHERNET_LEN + |h|;
    if |l4| >= 4 {
      Behind(p, at, 0, 2);
      Behind(p, at, 2, 4);
    }
    if |l4| >= 20 {
      Behind(p, at, 12, 13);
    }
  }

  /** What any other frame counts as. */
  lemma ClassifiesOther(dst: Octets, src: Octets, ethertype: int, payload: Octets)
    requires |dst| == 6 && |src| == 6 && 0 <= ethertype < 0x1_0000 && ethertype != 0x0800
    ensures var f := Classify(Ethernet(dst, src, ethertype, payload));
            && f.mac == src && f.cast == CastOf(dst) && f.length == ETHERNET_LEN + |payload|
            && f.ip == (if ethertype == 0x0806 && |payload| >= 18 then Some(payload[14..18]) else None)
            && (Cdp in f.protocols <==> dst == CDP_MAC && ethertype !in [0x0806, 0x86dd, 0x88cc, 0x8892])
            && (Arp in f.protocols <==> ethertype == 0x0806) && (Ipv6 in f.protocols <==> ethertype == 0x86dd)
            && (Lldp in f.protocols <==> ethertype == 0x88cc) && (Profinet in f.protocols <==> ethertype == 0x8892)
            && |f.protocols| <= 1
  {
    hide U16, Ethernet, CastOf;
    var p := Ethernet(dst, src, ethertype, payload);
    EthernetFields(dst, src, ethertype, payload);
    if |payload| >= 18 {
      Behind(p, ETHERNET_LEN, 14, 18);
    }
  }

  /** Six bytes of ones are broadcast; else the lowest bit of the first byte tells multicast from unicast. */
  lemma CastIs(dst: Octets)
    requires |dst| == 6
    ensures CastOf(dst) == Broadcast <==> forall i :: 0 <= i < 6 ==> dst[i] == 255
    ensures CastOf(dst) == Multicast <==> (exists i :: 0 <= i < 6 && dst[i] != 255) && dst[0] % 2 == 1
    ensures CastOf(dst) == Unicast <==> dst[0] % 2 == 0
  {
    if forall i :: 0 <= i < 6 ==> dst[i] == 255 {
      assert dst == [255, 255, 255, 255, 255, 255];
    }
  }

  predicate OnPort(l4: Octets, port: int)
    requires |l4| >= 4
  {
    U16(l4, 0) == port || U16(l4, 2) == port
  }

  /**
   By the numbers of the protocols: what an IPv4 packet counts as.  DHCP goes before mDNS and mDNS before SSDP; an S7
   segment carries data behind a whole TCP header.
   */
  lemma Ipv4Says(dst: Octets, src: Octets, h: Octets, l4: Octets)
    requires |dst| == 6 && |src| == 6 && IsIpv4Header(h)
    ensures var ps := Classify(Ethernet(dst, src, 0x0800, h + l4)).protocols;
            && Ipv4 in ps && ps <= {Ipv4, Dhcp, Mdns, Ssdp, S7}
            && (Dhcp in ps <==> h[9] == 17 && |l4| >= 4 && (OnPort(l4, 67) || OnPort(l4, 68)))
            && (Mdns in ps <==> h[9] == 17 && |l4| >= 4 && !OnPort(l4, 67) && !OnPort(l4, 68) && OnPort(l4, 5353))
            && (Ssdp in ps <==> h[9] == 17 && |l4| >= 4 && !OnPort(l4, 67) && !OnPort(l4, 68) && !OnPort(l4, 5353)
                                && OnPort(l4, 1900))
            && (S7 in ps <==> h[9] == 6 && |l4| >= 20 && OnPort(l4, 102) && |l4| > (l4[12] as int) / 16 * 4)
  {
    ClassifiesIpv4(dst, src, h, l4);
    hide Classify, Ethernet, U16;
  }

  /** A frame too short for an IPv4 header counts as IPv4 without an address. */
  lemma ShortIpv4Says(p: Octets)
    requires 14 <= |p| < 34 && U16(p, 12) == 0x0800
    ensures Classify(p).ip == None && Classify(p).protocols == {Ipv4}
  {
    assert {Ipv4} + {} == {Ipv4};
  }

  /** And of any other frame. */
  lemma OtherSays(dst: Octets, src: Octets, ethertype: int, payload: Octets)
    requires |dst| == 6 && |src| == 6 && 0 <= ethertype < 0x1_0000 && ethertype != 0x0800
    ensures var ps := Classify(Ethernet(dst, src, ethertype, payload)).protocols;
            && ps <= {Arp, Ipv6, Lldp, Profinet, Cdp} && |ps| <= 1
            && (Arp in ps <==> ethertype == 0x0806) && (Ipv6 in ps <==> ethertype == 0x86dd)
            && (Lldp in ps <==> ethertype == 0x88cc) && (Profinet in ps <==> ethertype == 0x8892)
            && (Cdp in ps <==> dst == [1, 0, 12, 204, 204, 204] && ethertype !in [0x0806, 0x86dd, 0x88cc, 0x8892])
  {
    ClassifiesOther(dst, src, ethertype, payload);
    EthernetFields(dst, src, ethertype, payload);
    hide U16, Ethernet;
  }

  // ----- The history and what it determines -----

  datatype Seen<M, I> = Seen(frame: Frame<M, I>, now: int)

  type Counts = map<Protocol, nat>

  datatype Totals = Totals(packets: nat, bytes: nat, broadcast: nat, multicast: nat, unicast: nat, protocols: Counts)

  datatype Talker<I> = Talker(ip: Option<I>, packets: nat, bytes: nat, broadcast: nat, multicast: nat, protocols: Counts)

  function NoCounts(): Counts {
    map p | p in LINK + UPPER :: 0
  }

  function Bumped(counts: Counts, ps: set<Protocol>): Counts {
    map p | p in counts :: if p in ps then counts[p] + 1 else counts[p]
  }

  function BytesOf<M, I>(h: seq<Seen<M, I>>): nat {
    if h == [] then 0 else BytesOf(h[..|h| - 1]) + h[|h| - 1].frame.length
  }

  function CountCast<M, I>(h: seq<Seen<M, I>>, cast: Cast): (n: nat)
    ensures n <= |h|
  {
    if h == [] then 0 else CountCast(h[..|h| - 1], cast) + if h[|h| - 1].frame.cast == cast then 1 else 0
  }

  function CountProtocol<M, I>(h: seq<Seen<M, I>>, p: Protocol): (n: nat)
    ensures n <= |h|
  {
    if h == [] then 0 else CountProtocol(h[..|h| - 1], p) + if p in h[|h| - 1].frame.protocols then 1 else 0
  }

  function ProtocolCounts<M, I>(h: seq<Seen<M, I>>): Counts {
    map p | p in LINK + UPPER :: CountProtocol(h, p)
  }

  function TotalsOf<M, I>(h: seq<Seen<M, I>>): Totals {
    Totals(|h|, BytesOf(h), CountCast(h, Broadcast), CountCast(h, Multicast), CountCast(h, Unicast), ProtocolCounts(h))
  }

  /** The latest source address, if any. */
  function LastIp<M, I>(h: seq<Seen<M, I>>): Option<I> {
    if h == [] then None
    else if h[|h| - 1].frame.ip != None then h[|h| - 1].frame.ip
    else LastIp(h[..|h| - 1])
  }

  /** The frames of one source. */
  function Of<M(==), I>(h: seq<Seen<M, I>>, mac: M): seq<Seen<M, I>> {
    if h == [] then []
    else
      var before := Of(h[..|h| - 1], mac);
      if h[|h| - 1].frame.mac == mac then before + [h[|h| - 1]] else before
  }

  /** What the table should say about a source, given its frames. */
  function Summary<M, I>(h: seq<Seen<M, I>>): Talker<I> {
    Talker(LastIp(h), |h|, BytesOf(h), CountCast(h, Broadcast), CountCast(h, Multicast), ProtocolCounts(h))
  }

  function IsOwn<M(==)>(self: Option<M>, mac: M): bool {
    self == Some(mac)
  }

  /** The sources of the frames that are not the interface's own, in order. */
  function Neighbors<M(==), I>(h: seq<Seen<M, I>>, self: Option<M>): seq<M> {
    if h == [] then []
    else
      var before, mac := Neighbors(h[..|h| - 1], self), h[|h| - 1].frame.mac;
      if IsOwn(self, mac) then before else before + [mac]
  }

  ghost predicate TalkersRefine<M(!new), I>(talkers: map<M, Talker<I>>, h: seq<Seen<M, I>>, self: Option<M>) {
    && talkers.Keys == FirstDistinct(Neighbors(h, self), MAX_TALKERS)
    && forall m :: m in talkers ==> talkers[m] == Summary(Of(h, m))
  }

  // ----- One frame more -----

  function AddTotals<M, I>(t: Totals, f: Frame<M, I>): Totals {
    Totals(
      t.packets + 1,
      t.bytes + f.length,
      if f.cast == Broadcast then t.broadcast + 1 else t.broadcast,
      if f.cast == Multicast then t.multicast + 1 else t.multicast,
      if f.cast == Unicast then t.unicast + 1 else t.unicast,
      Bumped(t.protocols, f.protocols)
    )
  }

  /** `before` is None for a source that is new to the table. */
  function AddTalker<M, I>(before: Option<Talker<I>>, f: Frame<M, I>): Talker<I> {
    var t := if before == None then Talker(None, 0, 0, 0, 0, NoCounts()) else before.value;
    Talker(
      if f.ip != None then f.ip else t.ip,
      t.packets + 1,
      t.bytes + f.length,
      if f.cast == Broadcast then t.broadcast + 1 else t.broadcast,
      if f.cast == Multicast then t.multicast + 1 else t.multicast,
      Bumped(t.protocols, f.protocols)
    )
  }

  lemma CountsOne<M, I>(h: seq<Seen<M, I>>, x: Seen<M, I>)
    ensures ProtocolCounts(h + [x]) == Bumped(ProtocolCounts(h), x.frame.protocols)
    ensures BytesOf(h + [x]) == BytesOf(h) + x.frame.length
    ensures forall c :: CountCast(h + [x], c) == CountCast(h, c) + if x.frame.cast == c then 1 else 0
    ensures LastIp(h + [x]) == if x.frame.ip != None then x.frame.ip else LastIp(h)
  {
    assert (h + [x])[..|h|] == h;
  }

  lemma CountsNone<M, I>()
    ensures TotalsOf<M, I>([]) == Totals(0, 0, 0, 0, 0, NoCounts())
    ensures Summary<M, I>([]) == Talker(None, 0, 0, 0, 0, NoCounts())
  {
  }

  lemma TotalsOne<M, I>(h: seq<Seen<M, I>>, x: Seen<M, I>)
    ensures TotalsOf(h + [x]) == AddTotals(TotalsOf(h), x.frame)
  {
    hide ProtocolCounts, BytesOf, CountCast, Bumped;
    CountsOne(h, x);
  }

  lemma SummaryOne<M, I>(h: seq<Seen<M, I>>, x: Seen<M, I>)
    ensures Summary(h + [x]) == AddTalker(if h == [] then None else Some(Summary(h)), x.frame)
  {
    hide ProtocolCounts, BytesOf, CountCast, LastIp, Bumped, NoCounts;
    CountsOne(h, x);
    CountsNone<M, I>();
  }

  lemma OfOne<M, I>(h: seq<Seen<M, I>>, x: Seen<M, I>, m: M)
    ensures Of(h + [x], m) == if x.frame.mac == m then Of(h, m) + [x] else Of(h, m)
  {
    assert (h + [x])[..|h|] == h;
  }

  lemma NeighborsOne<M, I>(h: seq<Seen<M, I>>, x: Seen<M, I>, self: Option<M>)
    ensures Neighbors(h + [x], self) ==
            if IsOwn(self, x.frame.mac) then Neighbors(h, self) else Neighbors(h, self) + [x.frame.mac]
  {
    assert (h + [x])[..|h|] == h;
  }

  lemma {:induction false} NeighborsHave<M, I>(h: seq<Seen<M, I>>, self: Option<M>, m: M)
    ensures m in Neighbors(h, self) <==> Of(h, m) != [] && !IsOwn(self, m)
    decreases |h|
  {
    if h != [] {
      NeighborsHave(h[..|h| - 1], self, m);
    }
  }

  /** A frame of the interface itself, or of a new source once the table is full, leaves the table. */
  lemma PassedOver<M(!new), I>(talkers: map<M, Talker<I>>, h: seq<Seen<M, I>>, self: Option<M>, x: Seen<M, I>)
    requires TalkersRefine(talkers, h, self)
    requires IsOwn(self, x.frame.mac) || (x.frame.mac !in talkers && |talkers| >= MAX_TALKERS)
    ensures TalkersRefine(talkers, h + [x], self)
  {
    hide FirstDistinct, Neighbors, Of, Summary;
    NeighborsOne(h, x, self);
    FirstDistinctOne(Neighbors(h, self), x.frame.mac, MAX_TALKERS);
    assert |talkers| == |talkers.Keys|;
    forall m | m in talkers
      ensures Of(h + [x], m) == Of(h, m)
    {
      OfOne(h, x, m);
      OwnIsNoTalker(talkers, h, self, m);
    }
  }

  lemma OwnIsNoTalker<M(!new), I>(talkers: map<M, Talker<I>>, h: seq<Seen<M, I>>, self: Option<M>, m: M)
    requires TalkersRefine(talkers, h, self) && m in talkers
    ensures !IsOwn(self, m)
  {
    hide Of, Summary;
    assert m in FirstDistinct(Neighbors(h, self), MAX_TALKERS);
    NeighborsHave(h, self, m);
  }

  lemma TalkerOne<M(!new), I>(talkers: map<M, Talker<I>>, h: seq<Seen<M, I>>, self: Option<M>, x: Seen<M, I>)
    requires TalkersRefine(talkers, h, self) && !IsOwn(self, x.frame.mac)
    requires x.frame.mac in talkers || |talkers| < MAX_TALKERS
    ensures AddTalker(if x.frame.mac in talkers then Some(talkers[x.frame.mac]) else None, x.frame) ==
            Summary(Of(h + [x], x.frame.mac))
  {
    hide FirstDistinct, Of, Summary, AddTalker, Neighbors;
    var m := x.frame.mac;
    OfOne(h, x, m);
    SummaryOne(Of(h, m), x);
    NeighborsHave(h, self, m);
    if m in talkers {
      assert m in FirstDistinct(Neighbors(h, self), MAX_TALKERS);
    } else {
      assert |talkers| == |talkers.Keys|;
      NotFullIsAll(Neighbors(h, self), MAX_TALKERS);
    }
  }

  /** A frame of a listed source, or of a new one while there is room, is added to its entry. */
  lemma TalkerRefines<M(!new), I>(talkers: map<M, Talker<I>>, h: seq<Seen<M, I>>, self: Option<M>, x: Seen<M, I>)
    requires TalkersRefine(talkers, h, self) && !IsOwn(self, x.frame.mac)
    requires x.frame.mac in talkers || |talkers| < MAX_TALKERS
    ensures var before := if x.frame.mac in talkers then Some(talkers[x.frame.mac]) else None;
            TalkersRefine(talkers[x.frame.mac := AddTalker(before, x.frame)], h + [x], self)
  {
    hide FirstDistinct, Of, Summary, AddTalker, Neighbors;
    var m := x.frame.mac;
    var before := if m in talkers then Some(talkers[m]) else None;
    var talkers' := talkers[m := AddTalker(before, x.frame)];
    TalkerOne(talkers, h, self, x);
    NeighborsOne(h, x, self);
    FirstDistinctOne(Neighbors(h, self), m, MAX_TALKERS);
    assert |talkers| == |talkers.Keys|;
    assert talkers'.Keys == talkers.Keys + {m};
    forall k | k in talkers'
      ensures talkers'[k] == Summary(Of(h + [x], k))
    {
      if k != m {
        OfOne(h, x, k);
        assert k in talkers;
      }
    }
  }

  // ----- What the counters add up to -----

  /** Every frame is broadcast, multicast or unicast. */
  lemma {:induction false} CastsAddUp<M, I>(h: seq<Seen<M, I>>)
    ensures CountCast(h, Broadcast) + CountCast(h, Multicast) + CountCast(h, Unicast) == |h|
    decreases |h|
  {
    if h != [] {
      CastsAddUp(h[..|h| - 1]);
    }
  }

  function In(p: Protocol, ps: set<Protocol>): nat {
    if p in ps then 1 else 0
  }

  lemma ShapedCounts<M, I>(f: Frame<M, I>)
    requires Shaped(f)
    ensures var ps := f.protocols;
            In(Arp, ps) + In(Ipv4, ps) + In(Ipv6, ps) + In(Lldp, ps) + In(Profinet, ps) + In(Cdp, ps) <= 1
    ensures var ps := f.protocols; In(Dhcp, ps) + In(Mdns, ps) + In(Ssdp, ps) + In(S7, ps) <= In(Ipv4, ps)
  {
    var link, upper := f.protocols * LINK, f.protocols * UPPER;
    assert forall p :: p in f.protocols && p in LINK ==> p in link;
    assert forall p :: p in f.protocols && p in UPPER ==> p in upper;
  }

  /** The link protocols count no frame twice; those above IPv4 count only IPv4 frames, none twice. */
  lemma {:induction false} ProtocolsAddUp<M, I>(h: seq<Seen<M, I>>)
    requires forall i :: 0 <= i < |h| ==> Shaped(h[i].frame)
    ensures CountProtocol(h, Arp) + CountProtocol(h, Ipv4) + CountProtocol(h, Ipv6) + CountProtocol(h, Lldp) +
            CountProtocol(h, Profinet) + CountProtocol(h, Cdp) <= |h|
    ensures CountProtocol(h, Dhcp) + CountProtocol(h, Mdns) + CountProtocol(h, Ssdp) + CountProtocol(h, S7) <=
            CountProtocol(h, Ipv4)
    decreases |h|
  {
    hide Shaped;
    if h != [] {
      var n := |h| - 1;
      ProtocolsAddUp(h[..n]);
      ShapedCounts(h[n].frame);
    }
  }

  function Counted(t: Totals, p: Protocol): nat {
    if p in t.protocols then t.protocols[p] else 0
  }

  /** What the counters add up to in every state. */
  ghost predicate AddsUp(t: Totals) {
    && t.broadcast + t.multicast + t.unicast == t.packets
    && Counted(t, Arp) + Counted(t, Ipv4) + Counted(t, Ipv6) + Counted(t, Lldp) + Counted(t, Profinet) + Counted(t, Cdp) <= t.packets
    && Counted(t, Dhcp) + Counted(t, Mdns) + Counted(t, Ssdp) + Counted(t, S7) <= Counted(t, Ipv4)
  }

  ghost predicate AllShaped<M, I>(h: seq<Seen<M, I>>) {
    forall i :: 0 <= i < |h| ==> Shaped(h[i].frame)
  }

  lemma CountedIs<M, I>(h: seq<Seen<M, I>>, p: Protocol)
    ensures Counted(TotalsOf(h), p) == CountProtocol(h, p)
  {
    assert p in LINK + UPPER;
  }

  lemma TotalsAddUp<M, I>(h: seq<Seen<M, I>>)
    requires AllShaped(h)
    ensures AddsUp(TotalsOf(h))
  {
    hide CountProtocol, Counted, ProtocolCounts, Shaped;
    CastsAddUp(h);
    ProtocolsAddUp(h);
    CountedIs(h, Arp);
    CountedIs(h, Ipv4);
    CountedIs(h, Ipv6);
    CountedIs(h, Lldp);
    CountedIs(h, Profinet);
    CountedIs(h, Cdp);
    CountedIs(h, Dhcp);
    CountedIs(h, Mdns);
    CountedIs(h, Ssdp);
    CountedIs(h, S7);
  }

  function One<M, I>(f: Frame<M, I>): nat {
    1
  }

  function Length<M, I>(f: Frame<M, I>): nat {
    f.length
  }

  function TalkerPackets<I>(t: Talker<I>): int {
    t.packets
  }

  function TalkerBytes<I>(t: Talker<I>): int {
    t.bytes
  }

  /** The weight of the frames whose source is in `macs`. */
  ghost function SumIn<M, I>(h: seq<Seen<M, I>>, macs: set<M>, w: Frame<M, I> -> nat): nat {
    if h == [] then 0
    else SumIn(h[..|h| - 1], macs, w) + if h[|h| - 1].frame.mac in macs then w(h[|h| - 1].frame) else 0
  }

  lemma {:induction false} SumInSplits<M, I>(h: seq<Seen<M, I>>, a: set<M>, b: set<M>, w: Frame<M, I> -> nat)
    requires a !! b
    ensures SumIn(h, a + b, w) == SumIn(h, a, w) + SumIn(h, b, w)
    decreases |h|
  {
    if h != [] {
      SumInSplits(h[..|h| - 1], a, b, w);
    }
  }

  lemma {:induction false} SumInAll<M, I>(h: seq<Seen<M, I>>, macs: set<M>)
    requires forall i :: 0 <= i < |h| ==> h[i].frame.mac in macs
    ensures SumIn(h, macs, One) == |h| && SumIn(h, macs, Length) == BytesOf(h)
    decreases |h|
  {
    if h != [] {
      SumInAll(h[..|h| - 1], macs);
    }
  }

  lemma {:induction false} SumInOne<M, I>(h: seq<Seen<M, I>>, m: M)
    ensures SumIn(h, {m}, One) == |Of(h, m)| && SumIn(h, {m}, Length) == BytesOf(Of(h, m))
    decreases |h|
  {
    if h != [] {
      var n := |h| - 1;
      SumInOne(h[..n], m);
      var before := Of(h[..n], m);
      assert (before + [h[n]])[..|before|] == before;
    }
  }

  /** The table accounts for the frames of the sources it lists. */
  lemma {:induction false} TableAddsUp<M, I>(talkers: map<M, Talker<I>>, h: seq<Seen<M, I>>)
    requires forall m :: m in talkers ==> talkers[m] == Summary(Of(h, m))
    ensures Total(talkers, TalkerPackets) == SumIn(h, talkers.Keys, One)
    ensures Total(talkers, TalkerBytes) == SumIn(h, talkers.Keys, Length)
    decreases |talkers|
  {
    hide SumIn, Summary, Of;
    if talkers == map[] {
      assert talkers.Keys == {};
      SumInNothing(h);
    } else {
      var m :| m in talkers;
      TotalRemove(talkers, TalkerPackets, m);
      TotalRemove(talkers, TalkerBytes, m);
      CardRemove(talkers, m);
      TableAddsUp(talkers - {m}, h);
      SumInSplits(h, (talkers - {m}).Keys, {m}, One);
      SumInSplits(h, (talkers - {m}).Keys, {m}, Length);
      assert (talkers - {m}).Keys + {m} == talkers.Keys;
      SumInOne(h, m);
      SummaryCounts(Of(h, m));
    }
  }

  lemma SummaryCounts<M, I>(h: seq<Seen<M, I>>)
    ensures Summary(h).packets == |h| && Summary(h).bytes == BytesOf(h)
  {
  }

  lemma {:induction false} SumInNothing<M, I>(h: seq<Seen<M, I>>)
    ensures SumIn(h, {}, One) == 0 && SumIn(h, {}, Length) == 0
    decreases |h|
  {
    if h != [] {
      SumInNothing(h[..|h| - 1]);
    }
  }

  ghost function Macs<M(!new), I>(h: seq<Seen<M, I>>): set<M> {
    set i | 0 <= i < |h| :: h[i].frame.mac
  }

  ghost function Own<M>(self: Option<M>): set<M> {
    if self == None then {} else {self.value}
  }

  /** The sources that found the table full. */
  ghost function OverCap<M(!new), I>(talkers: map<M, Talker<I>>, h: seq<Seen<M, I>>, self: Option<M>): set<M> {
    Macs(h) - talkers.Keys - Own(self)
  }

  /** Conservation: every packet and every byte is a talker's, the interface's own, or of a source over the cap. */
  lemma TrafficIsConserved<M(!new), I>(talkers: map<M, Talker<I>>, h: seq<Seen<M, I>>, self: Option<M>)
    requires TalkersRefine(talkers, h, self)
    ensures TotalsOf(h).packets ==
            Total(talkers, TalkerPackets) + SumIn(h, Own(self), One) + SumIn(h, OverCap(talkers, h, self), One)
    ensures TotalsOf(h).bytes ==
            Total(talkers, TalkerBytes) + SumIn(h, Own(self), Length) + SumIn(h, OverCap(talkers, h, self), Length)
  {
    hide SumIn, Summary, Of, FirstDistinct, Neighbors;
    var keys, own, over := talkers.Keys, Own(self), OverCap(talkers, h, self);
    TableAddsUp(talkers, h);
    if self != None && self.value in keys {
      OwnIsNoTalker(talkers, h, self, self.value);
    }
    assert keys !! own && (keys + own) !! over;
    SumInSplits(h, keys, own, One);
    SumInSplits(h, keys, own, Length);
    SumInSplits(h, keys + own, over, One);
    SumInSplits(h, keys + own, over, Length);
    SumInAll(h, keys + own + over);
  }

  /** Only a source first seen after 500 others is over the cap. */
  lemma OverCapIff<M(!new), I>(talkers: map<M, Talker<I>>, h: seq<Seen<M, I>>, self: Option<M>, i: nat)
    requires TalkersRefine(talkers, h, self)
    requires var macs := Neighbors(h, self); i < |macs| && macs[i] !in macs[..i]
    ensures |talkers| <= 500
    ensures var macs := Neighbors(h, self);
            macs[i] in OverCap(talkers, h, self) <==> |Elements(macs[..i])| >= 500
  {
    hide FirstDistinct, Summary;
    var macs := Neighbors(h, self);
    AmongFirstIff(macs, MAX_TALKERS, i);
    assert macs[i] in macs;
    NeighborsHave(h, self, macs[i]);
    OfHas(h, macs[i]);
    assert |talkers| == |talkers.Keys|;
  }

  lemma {:induction false} OfHas<M(!new), I>(h: seq<Seen<M, I>>, m: M)
    ensures Of(h, m) != [] <==> m in Macs(h)
    decreases |h|
  {
    if h != [] {
      var n := |h| - 1;
      OfHas(h[..n], m);
      assert forall i :: 0 <= i < n ==> h[..n][i] == h[i];
      assert Macs(h) == Macs(h[..n]) + {h[n].frame.mac};
    }
  }

  // ----- The sliding window -----

  datatype Stamp<M> = Stamp(now: int, mac: M, length: nat)

  function StampOf<M, I>(x: Seen<M, I>): Stamp<M> {
    Stamp(x.now, x.frame.mac, x.frame.length)
  }

  /** The frames not older than `cutoff`. */
  function Window<M, I>(h: seq<Seen<M, I>>, cutoff: int): seq<Stamp<M>> {
    if h == [] then []
    else
      var before := Window(h[..|h| - 1], cutoff);
      if h[|h| - 1].now >= cutoff then before + [StampOf(h[|h| - 1])] else before
  }

  /** What popping from the left leaves. */
  function DropStale<M>(s: seq<Stamp<M>>, cutoff: int): seq<Stamp<M>> {
    if s == [] || s[0].now >= cutoff then s else DropStale(s[1..], cutoff)
  }

  ghost predicate InOrder<M, I>(h: seq<Seen<M, I>>) {
    forall i, j :: 0 <= i < j < |h| ==> h[i].now <= h[j].now
  }

  lemma {:induction false} WindowNone<M, I>(h: seq<Seen<M, I>>, cutoff: int)
    requires forall i :: 0 <= i < |h| ==> h[i].now < cutoff
    ensures Window(h, cutoff) == []
    decreases |h|
  {
    if h != [] {
      WindowNone(h[..|h| - 1], cutoff);
    }
  }

  lemma WindowLast<M, I>(h: seq<Seen<M, I>>, cutoff: int)
    requires h != [] && h[|h| - 1].now >= cutoff
    ensures Window(h, cutoff) == Window(h[..|h| - 1], cutoff) + [StampOf(h[|h| - 1])]
  {
  }

  function Stamps<M, I>(h: seq<Seen<M, I>>): seq<Stamp<M>> {
    seq(|h|, i requires 0 <= i < |h| => StampOf(h[i]))
  }

  /** In an ordered history the window is a suffix. */
  lemma {:induction false} WindowIsSuffix<M, I>(h: seq<Seen<M, I>>, cutoff: int) returns (k: nat)
    requires InOrder(h)
    ensures k <= |h|
    ensures forall i :: 0 <= i < |h| ==> (h[i].now >= cutoff <==> i >= k)
    ensures Window(h, cutoff) == Stamps(h[k..])
    decreases |h|
  {
    hide Window, StampOf;
    if h == [] || h[|h| - 1].now < cutoff {
      k := |h|;
      WindowNone(h, cutoff);
    } else {
      var n := |h| - 1;
      k := WindowIsSuffix(h[..n], cutoff);
      assert forall i :: 0 <= i < n ==> h[..n][i] == h[i];
      WindowLast(h, cutoff);
      assert Stamps(h[k..]) == Stamps(h[..n][k..]) + [StampOf(h[n])];
    }
  }

  lemma {:induction false} DropStaleDrops<M>(s: seq<Stamp<M>>, cutoff: int, k: nat)
    requires k <= |s| && (forall i :: 0 <= i < k ==> s[i].now < cutoff) && (k < |s| ==> s[k].now >= cutoff)
    ensures DropStale(s, cutoff) == s[k..]
    decreases |s|
  {
    if k > 0 {
      DropStaleDrops(s[1..], cutoff, k - 1);
      assert s[1..][k - 1..] == s[k..];
    }
  }

  /** With a clock that does not run backwards, popping leaves the window. */
  lemma DropStaleIsWindow<M, I>(h: seq<Seen<M, I>>, cutoff: int, cutoff': int)
    requires InOrder(h) && cutoff <= cutoff'
    ensures DropStale(Window(h, cutoff), cutoff') == Window(h, cutoff')
  {
    var k := WindowIsSuffix(h, cutoff);
    var k' := WindowIsSuffix(h, cutoff');
    if k' < |h| {
      assert h[k'].now >= cutoff';
    }
    var w := Window(h, cutoff);
    assert forall i :: 0 <= i < |w| ==> w[i] == StampOf(h[k + i]);
    DropStaleDrops(w, cutoff', k' - k);
    assert w[k' - k..] == Stamps(h[k'..]);
  }

  lemma WindowOne<M, I>(h: seq<Seen<M, I>>, x: Seen<M, I>, cutoff: int)
    requires x.now >= cutoff
    ensures Window(h + [x], cutoff) == Window(h, cutoff) + [StampOf(x)]
  {
    assert (h + [x])[..|h|] == h;
  }

  function CountOf<M(==)>(s: seq<Stamp<M>>, mac: M): nat {
    if s == [] then 0 else CountOf(s[..|s| - 1], mac) + if s[|s| - 1].mac == mac then 1 else 0
  }

  function BytesFrom<M(==)>(s: seq<Stamp<M>>, mac: M): nat {
    if s == [] then 0 else BytesFrom(s[..|s| - 1], mac) + if s[|s| - 1].mac == mac then s[|s| - 1].length else 0
  }

  function StampBytes<M>(s: seq<Stamp<M>>): nat {
    if s == [] then 0 else StampBytes(s[..|s| - 1]) + s[|s| - 1].length
  }

  datatype Rate = Rate(packets: nat, bytes: nat)

  /** A count over the window as a rate, rounded to hundredths per second. */
  function PerSecond(count: nat): (r: nat)
  {
    Rounded(100 * 1000 * count, WINDOW)
  }

  /** A fifth of a count has one decimal, so the rounding changes nothing. */
  lemma PerSecondIsExact(count: nat)
    ensures PerSecond(count) == 20 * count
  {
    assert 100 * 1000 * count == 20 * count * WINDOW;
  }

  function Shown(r: Rate): Rate {
    Rate(PerSecond(r.packets), PerSecond(r.bytes))
  }

  datatype Row<M, I> = Row(mac: M, talker: Talker<I>, rate: Rate)

  /** Elapsed time in tenths of a second, rates in hundredths per second. */
  datatype Report<M, I> = Report(elapsed: int, totals: Totals, rate: Rate, rows: seq<Row<M, I>>)

  function RateOf<M(==)>(s: seq<Stamp<M>>, mac: M): Rate {
    Rate(CountOf(s, mac), BytesFrom(s, mac))
  }

  /** The frames recorded since `cutoff`. */
  function Fresh<M, I>(h: seq<Seen<M, I>>, cutoff: int): seq<Seen<M, I>> {
    if h == [] then []
    else
      var before := Fresh(h[..|h| - 1], cutoff);
      if h[|h| - 1].now >= cutoff then before + [h[|h| - 1]] else before
  }

  lemma {:induction false} WindowRates<M, I>(h: seq<Seen<M, I>>, cutoff: int, mac: M)
    ensures var late, w := Fresh(h, cutoff), Window(h, cutoff);
            && |w| == |late| && StampBytes(w) == BytesOf(late)
            && CountOf(w, mac) == |Of(late, mac)| && BytesFrom(w, mac) == BytesOf(Of(late, mac))
    decreases |h|
  {
    if h != [] {
      var n := |h| - 1;
      WindowRates(h[..n], cutoff, mac);
      var late, w := Fresh(h[..n], cutoff), Window(h[..n], cutoff);
      assert (late + [h[n]])[..|late|] == late;
      assert (w + [StampOf(h[n])])[..|w|] == w;
      var own := Of(late, mac);
      assert (own + [h[n]])[..|own|] == own;
    }
  }

  /** The rates shown, in hundredths per second: a fifth of the frames, and of their bytes, that were recorded in the window. */
  lemma RatesAreOfFresh<M, I>(h: seq<Seen<M, I>>, cutoff: int, mac: M)
    ensures var late, w := Fresh(h, cutoff), Window(h, cutoff);
            && Shown(RateOf(w, mac)) == Rate(20 * |Of(late, mac)|, 20 * BytesOf(Of(late, mac)))
            && Shown(Rate(|w|, StampBytes(w))) == Rate(20 * |late|, 20 * BytesOf(late))
  {
    WindowRates(h, cutoff, mac);
    var w := Window(h, cutoff);
    PerSecondIsExact(CountOf(w, mac));
    PerSecondIsExact(BytesFrom(w, mac));
    PerSecondIsExact(|w|);
    PerSecondIsExact(StampBytes(w));
    hide PerSecond, Window, Fresh, Of, BytesOf, StampBytes, CountOf, BytesFrom;
  }

  function RowMac<M, I>(r: Row<M, I>): M {
    r.mac
  }

  ghost predicate Reports<M(!new), I>(rows: seq<Row<M, I>>, talkers: map<M, Talker<I>>, recent: seq<Stamp<M>>) {
    && Lists(rows, RowMac, talkers.Keys)
    && forall k :: 0 <= k < |rows| ==> rows[k].mac in talkers && rows[k] == Row(rows[k].mac, talkers[rows[k].mac], Shown(RateOf(recent, rows[k].mac)))
  }

  /** Minus the bytes: Python sorts in descending order. */
  function RankOf<M, I>(r: Row<M, I>): int {
    -(r.talker.bytes as int)
  }

  // ----- The collector -----

  class Collector<M(==, !new), I> {
    /** The interface's own address, read once. */
    const self: Option<M>
    var totals: Totals
    var talkers: map<M, Talker<I>>
    var recent: seq<Stamp<M>>
    var startedAt: int
    /** The frames recorded since the last reset, the time of the latest operation, and whether the clock ever ran backwards. */
    ghost var history: seq<Seen<M, I>>
    ghost var latest: int
    ghost var steady: bool

    ghost predicate Valid()
      reads this
    {
      && AllShaped(history)
      && totals == TotalsOf(history)
      && TalkersRefine(talkers, history, self)
      && (steady ==> InOrder(history) && (forall i :: 0 <= i < |history| ==> history[i].now <= latest))
      && (steady ==> recent == Window(history, latest - WINDOW))
    }

    constructor (self: Option<M>, now: int)
      ensures Valid() && history == [] && latest == startedAt == now && steady && this.self == self
    {
      this.self, startedAt := self, now;
      totals, talkers, recent := Totals(0, 0, 0, 0, 0, NoCounts()), map[], [];
      history, latest, steady := [], now, true;
      new;
      CountsNone<M, I>();
    }

    /** The shared loop that pops stale entries from the left. */
    method PopStale(cutoff: int)
      modifies this`recent
      ensures recent == DropStale(old(recent), cutoff)
    {
      while recent != [] && recent[0].now < cutoff
        invariant DropStale(recent, cutoff) == DropStale(old(recent), cutoff)
        decreases |recent|
      {
        recent := recent[1..];
      }
    }

    /** `_classify_and_record` behind the classification. */
    method Record(f: Frame<M, I>, now: int)
      requires Valid() && Shaped(f)
      modifies this
      ensures AddsUp(totals) && startedAt == old(startedAt)
      ensures Valid() && history == old(history) + [Seen(f, now)] && latest == now
      ensures steady == (old(steady) && old(latest) <= now)
    {
      hide TotalsOf, TalkersRefine, AddTotals, AddTalker, Window, DropStale, Shaped, AddsUp;
      ghost var x := Seen(f, now);
      TotalsAddUp(history + [x]);
      TotalsOne(history, x);
      totals := AddTotals(totals, f);
      recent := recent + [Stamp(now, f.mac, f.length)];
      PopStale(now - WINDOW);
      steady := steady && latest <= now;
      if steady {
        WindowOne(history, x, latest - WINDOW);
        DropStaleIsWindow(history + [x], latest - WINDOW, now - WINDOW);
      }
      latest := now;
      history := history + [x];
      if self == Some(f.mac) || (f.mac !in talkers && |talkers| >= MAX_TALKERS) {
        PassedOver(talkers, old(history), self, x);
        return;
      }
      TalkerRefines(talkers, old(history), self, x);
      var before := if f.mac in talkers then Some(talkers[f.mac]) else None;
      talkers := talkers[f.mac := AddTalker(before, f)];
    }

    /** `get_stats`: the totals, and one row for each talker, the one with the most bytes first. */
    method GetStats(now: int) returns (r: Report<M, I>)
      requires Valid()
      modifies this
      ensures Valid() && history == old(history) && talkers == old(talkers) && totals == old(totals) && latest == now
      ensures steady == (old(steady) && old(latest) <= now)
      ensures r.totals == totals && AddsUp(totals) && startedAt == old(startedAt)
      ensures r.rate == Shown(Rate(|recent|, StampBytes(recent))) && r.elapsed == Rounded(now - startedAt, 100)
      ensures Reports(r.rows, talkers, recent) && Ascending(RankOf, r.rows)
    {
      hide TotalsOf, TalkersRefine, Window, DropStale, Reports, StampBytes, RankOf, InOrder, Shaped, AddsUp, Shown, Rounded;
      TotalsAddUp(history);
      PopStale(now - WINDOW);
      steady := steady && latest <= now;
      if steady {
        DropStaleIsWindow(history, latest - WINDOW, now - WINDOW);
      }
      latest := now;
      var rows, bytes := RankedRows(talkers, recent);
      r := Report(Rounded(now - startedAt, 100), totals, Shown(Rate(|recent|, bytes)), rows);
    }

    method Reset(now: int)
      requires Valid()
      modifies this
      ensures Valid() && history == [] && talkers == map[] && recent == [] && totals.packets == 0
      ensures latest == startedAt == now && steady
    {
      startedAt := now;
      totals, talkers, recent := Totals(0, 0, 0, 0, 0, NoCounts()), map[], [];
      history, latest, steady := [], now, true;
      CountsNone<M, I>();
    }
  }

  /** `_classify_and_record`: what is shorter than an Ethernet header changes nothing. */
  method ClassifyAndRecord(c: Collector<Octets, Octets>, packet: Octets, now: int)
    requires c.Valid()
    modifies c
    ensures c.Valid()
    ensures |packet| < MIN_FRAME ==> c.history == old(c.history) && c.totals == old(c.totals)
    ensures |packet| >= MIN_FRAME ==>
              c.history == old(c.history) + [Seen(Classify(packet), now)] && c.latest == now && AddsUp(c.totals)
    ensures c.steady == (old(c.steady) && (|packet| >= MIN_FRAME ==> old(c.latest) <= now))
  {
    hide Classify, TotalsOf, TalkersRefine, AddsUp, Shaped;
    if |packet| < MIN_FRAME {
      return;
    }
    ClassifyIsShaped(packet);
    c.Record(Classify(packet), now);
  }

  /** The window, source by source. */
  method GroupRecent<M(==, !new)>(recent: seq<Stamp<M>>) returns (byMac: map<M, Rate>, bytes: nat)
    ensures bytes == StampBytes(recent)
    ensures forall m :: (if m in byMac then byMac[m] else Rate(0, 0)) == RateOf(recent, m)
  {
    byMac, bytes := map[], 0;
    for i := 0 to |recent|
      invariant bytes == StampBytes(recent[..i])
      invariant forall m :: (if m in byMac then byMac[m] else Rate(0, 0)) == RateOf(recent[..i], m)
    {
      var x := recent[i];
      assert recent[..i + 1][..i] == recent[..i];
      var entry := if x.mac in byMac then byMac[x.mac] else Rate(0, 0);
      assert entry == RateOf(recent[..i], x.mac);
      byMac := byMac[x.mac := Rate(entry.packets + 1, entry.bytes + x.length)];
      bytes := bytes + x.length;
    }
    assert recent[..|recent|] == recent;
  }

  method ListRows<M(==, !new), I>(talkers: map<M, Talker<I>>, byMac: map<M, Rate>, recent: seq<Stamp<M>>)
    returns (rows: seq<Row<M, I>>)
    requires forall m :: (if m in byMac then byMac[m] else Rate(0, 0)) == RateOf(recent, m)
    ensures Reports(rows, talkers, recent)
  {
    hide RateOf, Shown;
    rows := [];
    var rest := talkers.Keys;
    while rest != {}
      invariant rest <= talkers.Keys && |rows| + |rest| == |talkers.Keys|
      invariant forall k :: 0 <= k < |rows| ==> RowMac(rows[k]) in talkers.Keys - rest
      invariant forall k :: 0 <= k < |rows| ==> rows[k].mac in talkers && rows[k] == Row(rows[k].mac, talkers[rows[k].mac], Shown(RateOf(recent, rows[k].mac)))
      invariant Distinct(rows, RowMac)
      decreases rest
    {
      var m :| m in rest;
      rows := rows + [Row(m, talkers[m], Shown(if m in byMac then byMac[m] else Rate(0, 0)))];
      rest := rest - {m};
    }
  }

  /** The talkers with their rates, the one with the most bytes first; and the bytes in the window. */
  method RankedRows<M(==, !new), I>(talkers: map<M, Talker<I>>, recent: seq<Stamp<M>>) returns (rows: seq<Row<M, I>>, bytes: nat)
    ensures Reports(rows, talkers, recent) && Ascending(RankOf, rows)
    ensures bytes == StampBytes(recent)
  {
    hide RateOf, StampBytes, RankOf, Shown;
    var recentByMac, total := GroupRecent(recent);
    var unsorted := ListRows(talkers, recentByMac, recent);
    rows, bytes := SortBy(RankOf, unsorted), total;
    SortBySorts(RankOf, unsorted);
    PermutedLists(unsorted, rows, RowMac, talkers.Keys);
  }
}
