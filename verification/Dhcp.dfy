/**
 The DHCP server monitor (backend/capture/dhcp_monitor.py): the option scan and message parser, and the
 bounded server table against the history of the messages handled.
 */
module Dhcp {
  import opened Bytes
  import opened Folds
  import opened Frames
  import opened Admission
  import opened Tlv
  import opened Wrappers

  // ----- Options and messages -----

  const MESSAGE_TYPE := 53
  const SERVER_IDENTIFIER := 54
  const FIXED_LEN := 240
  const COOKIE: Octets := [99, 130, 83, 99]
  const OFFER := 2
  const ACK := 5
  const SERVER_PORT := 67
  const UDP := 17
  const IPV4_ETHERTYPE := 0x0800

  function Parsed(before: map<int, Octets>, item: Item): map<int, Octets> {
    if item.tag == DHCP_PAD then before else before[item.tag := item.value]
  }

  lemma ParsedOne(items: seq<Item>, item: Item)
    ensures Fold(Parsed, map[], items + [item]) == Parsed(Fold(Parsed, map[], items), item)
    ensures Fold(Parsed, map[], []) == map[]
  {
    hide Fold;
    FoldOne(Parsed, map[], items, item);
    FoldNone(Parsed, map[]);
  }

  /** The option at a cursor. */
  lemma OptionAt(p: Octets, i: nat)
    requires i < |p|
    ensures Next(Format.Dhcp, p[i..]) ==
            if p[i] == DHCP_END then Stop
            else if p[i] == DHCP_PAD then Take(Item(DHCP_PAD, []), 1)
            else if i + 1 >= |p| || i + 2 + (p[i + 1] as int) > |p| then Stop
            else Take(Item(p[i], p[i + 2..i + 2 + (p[i + 1] as int)]), 2 + (p[i + 1] as int))
  {
    if i + 1 < |p| && i + 2 + (p[i + 1] as int) <= |p| {
      assert p[i..][2..2 + (p[i + 1] as int)] == p[i + 2..i + 2 + (p[i + 1] as int)];
    }
  }

  lemma NoOptionAt(p: Octets)
    ensures Next(Format.Dhcp, p[|p|..]) == Stop
  {
  }

  /** `_parse_dhcp_options`: the fold of the options that scanning visits. */
  method ParseDhcpOptions(options: Octets) returns (parsed: map<int, Octets>)
    ensures parsed == Fold(Parsed, map[], Scan(Format.Dhcp, options))
  {
    hide Fold, Scan, Next;
    parsed := map[];
    var i := 0;
    ghost var done: seq<Item> := [];
    ParsedOne([], Item(DHCP_PAD, []));
    assert options[0..] == options;
    while i < |options|
      invariant 0 <= i <= |options|
      invariant done + Scan(Format.Dhcp, options[i..]) == Scan(Format.Dhcp, options)
      invariant parsed == Fold(Parsed, map[], done)
    {
      OptionAt(options, i);
      var code := options[i] as int;
      if code == DHCP_END {
        CursorStop(Format.Dhcp, options, i, done);
        return;
      }
      if code == DHCP_PAD {
        CursorTake(Format.Dhcp, options, i, done);
        ParsedOne(done, Item(DHCP_PAD, []));
        done := done + [Item(DHCP_PAD, [])];
        i := i + 1;
        continue;
      }
      if i + 1 >= |options| {
        CursorStop(Format.Dhcp, options, i, done);
        return;
      }
      var length := options[i + 1] as int;
      var value := Slice(options, i + 2, i + 2 + length);
      if |value| < length {
        CursorStop(Format.Dhcp, options, i, done);
        return;
      }
      CursorTake(Format.Dhcp, options, i, done);
      ParsedOne(done, Item(code, value));
      done := done + [Item(code, value)];
      parsed := parsed[code := value];
      i := i + 2 + length;
    }
    NoOptionAt(options);
    CursorStop(Format.Dhcp, options, i, done);
  }

  function Coded(code: int): Item -> bool {
    (item: Item) => item.tag == code && item.tag != DHCP_PAD
  }

  function ValueOf(item: Option<Item>): Option<Octets> {
    if item == None then None else Some(item.value.value)
  }

  function Get(options: map<int, Octets>, code: int): Option<Octets> {
    if code in options then Some(options[code]) else None
  }

  /** An option's value is that of its last occurrence; pads are no options. */
  lemma {:induction false} OptionIsLast(items: seq<Item>, code: int)
    ensures Get(Fold(Parsed, map[], items), code) == ValueOf(LastWith(items, Coded(code)))
    decreases |items|
  {
    if items != [] {
      OptionIsLast(items[..|items| - 1], code);
    }
  }

  /** `_parse_dhcp`: message type, offered address and server identifier. */
  function ParseDhcp(payload: Octets): Option<(int, Octets, Option<Octets>)> {
    if |payload| < FIXED_LEN || payload[236..240] != COOKIE then None
    else
      var options := Fold(Parsed, map[], Scan(Format.Dhcp, payload[FIXED_LEN..]));
      match Get(options, MESSAGE_TYPE)
      case None => None
      case Some(raw) =>
        if raw == [] then None
        else
          var identifier := Get(options, SERVER_IDENTIFIER);
          var server := if identifier != None && |identifier.value| == 4 then identifier else None;
          Some((raw[0] as int, payload[16..20], server))
  }

  /** A message is read from its last type and identifier options, wherever the options field is cut. */
  lemma ParsesCutMessage(fixed: Octets, cookie: Octets, items: seq<Item>, tail: Octets, k: nat)
    requires |fixed| == 236 && |cookie| == 4 && AllEncodable(Format.Dhcp, items) && Ends(Format.Dhcp, tail)
    requires k <= |EncodeAll(Format.Dhcp, items) + tail|
    ensures var whole := items[..Whole(Format.Dhcp, items, k)];
            var kind := ValueOf(LastWith(whole, Coded(53)));
            var identifier := ValueOf(LastWith(whole, Coded(54)));
            ParseDhcp(fixed + cookie + (EncodeAll(Format.Dhcp, items) + tail)[..k]) ==
            if cookie != [99, 130, 83, 99] || kind == None || kind.value == [] then None
            else Some((kind.value[0] as int, fixed[16..20],
                       if identifier != None && |identifier.value| == 4 then identifier else None))
  {
    hide Fold, Scan, LastWith;
    var options := (EncodeAll(Format.Dhcp, items) + tail)[..k];
    var payload := fixed + cookie + options;
    assert payload[236..240] == cookie;
    assert payload[FIXED_LEN..] == options;
    assert payload[16..20] == fixed[16..20];
    ScanOfCut(Format.Dhcp, items, tail, k);
    var whole := items[..Whole(Format.Dhcp, items, k)];
    OptionIsLast(whole, MESSAGE_TYPE);
    OptionIsLast(whole, SERVER_IDENTIFIER);
  }

  datatype Message<M, I> = Message(server: I, mac: M, isOffer: bool, offered: Option<I>, now: int)

  /** The message of a packet, at time `now`; None for what the handler ignores. */
  function MessageOf(packet: Octets, now: int): Option<Message<Octets, Octets>> {
    if |packet| < 42 || U16(packet, 12) != IPV4_ETHERTYPE || packet[23] != UDP then None
    else
      var udp := 14 + (packet[14] as int) % 16 * 4;
      if |packet| < udp + 8 || U16(packet, udp) != SERVER_PORT then None
      else match ParseDhcp(packet[udp + 8..])
        case None => None
        case Some((kind, offered, identifier)) =>
          if kind != OFFER && kind != ACK then None
          else
            var server := if identifier == None then packet[26..30] else identifier.value;
            Some(Message(server, packet[6..12], kind == OFFER, if offered == [0, 0, 0, 0] then None else Some(offered), now))
  }

  /** Of a UDP datagram in an Ethernet frame: only one from port 67 with an offer or acknowledgement is a message. */
  lemma ParsesDatagram(dst: Octets, src: Octets, h: Octets, udp: Octets, payload: Octets, now: int)
    requires |dst| == 6 && |src| == 6 && IsIpv4Header(h) && |udp| == 8
    ensures var parsed := ParseDhcp(payload);
            MessageOf(Ethernet(dst, src, 0x0800, h + (udp + payload)), now) ==
            if h[9] != 17 || U16(udp, 0) != 67 || parsed == None then None
            else
              var (kind, offered, identifier) := parsed.value;
              if kind != 2 && kind != 5 then None
              else Some(Message(if identifier == None then h[12..16] else identifier.value, src, kind == 2,
                                if offered == [0, 0, 0, 0] then None else Some(offered), now))
  {
    hide U16, Ethernet, ParseDhcp;
    var p := Ethernet(dst, src, IPV4_ETHERTYPE, h + (udp + payload));
    EthernetFields(dst, src, IPV4_ETHERTYPE, h + (udp + payload));
    Ipv4Fields(p, h, udp + payload);
    var at := ETHERNET_LEN + |h|;
    Behind(p, at, 0, 2);
    HeadPort(udp, payload);
    assert p[at + 8..] == p[at..][8..];
    assert (udp + payload)[8..] == payload;
  }

  /** What is no DHCP message: a payload too short for the fixed part, a frame that is not IPv4. */
  lemma PassesOverOthers(dst: Octets, src: Octets, ethertype: int, payload: Octets, now: int)
    requires |dst| == 6 && |src| == 6 && 0 <= ethertype < 0x1_0000
    ensures |payload| < 240 ==> ParseDhcp(payload) == None
    ensures ethertype != 0x0800 ==> MessageOf(Ethernet(dst, src, ethertype, payload), now) == None
  {
    EthernetFields(dst, src, ethertype, payload);
  }

  lemma HeadPort(udp: Octets, payload: Octets)
    requires |udp| == 8
    ensures U16(udp + payload, 0) == U16(udp, 0)
  {
  }

  // ----- The server table -----

  const MAX_SERVERS := 50
  const MAX_OFFERED := 5

  datatype Entry<M, !I> = Entry(mac: M, offers: nat, acks: nat, firstSeen: int, lastSeen: int, offered: set<I>)

  function ServersOf<M, I>(h: seq<Message<M, I>>): (r: seq<I>)
    ensures |r| == |h| && forall i :: 0 <= i < |h| ==> r[i] == h[i].server
  {
    seq(|h|, i requires 0 <= i < |h| => h[i].server)
  }

  /** The messages of one server. */
  function Of<M, I(==)>(h: seq<Message<M, I>>, server: I): seq<Message<M, I>> {
    if h == [] then []
    else
      var before := Of(h[..|h| - 1], server);
      if h[|h| - 1].server == server then before + [h[|h| - 1]] else before
  }

  function CountOffers<M, I>(h: seq<Message<M, I>>): (n: nat)
    ensures n <= |h|
  {
    if h == [] then 0 else CountOffers(h[..|h| - 1]) + if h[|h| - 1].isOffer then 1 else 0
  }

  /** The addresses offered, in order, the null address left out. */
  function OfferedIn<M, I>(h: seq<Message<M, I>>): seq<I> {
    if h == [] then []
    else
      var before := OfferedIn(h[..|h| - 1]);
      match h[|h| - 1].offered
      case None => before
      case Some(ip) => before + [ip]
  }

  /** What the table should say about a server, given all its messages. */
  function Summary<M, I(==)>(h: seq<Message<M, I>>): Entry<M, I>
    requires h != []
  {
    var last := h[|h| - 1];
    Entry(last.mac, CountOffers(h), |h| - CountOffers(h), h[0].now, last.now, FirstDistinct(OfferedIn(h), MAX_OFFERED))
  }

  ghost predicate Refines<M, I>(servers: map<I, Entry<M, I>>, h: seq<Message<M, I>>) {
    && servers.Keys == FirstDistinct(ServersOf(h), MAX_SERVERS)
    && forall s :: s in servers ==> Of(h, s) != [] && servers[s] == Summary(Of(h, s))
  }

  /** What one message does to the entry of its server, `before` being None for a new one. */
  function Updated<M, I(==)>(before: Option<Entry<M, I>>, m: Message<M, I>): Entry<M, I> {
    var e := if before == None then Entry(m.mac, 0, 0, m.now, m.now, {}) else before.value;
    Entry(
      m.mac,
      if m.isOffer then e.offers + 1 else e.offers,
      if m.isOffer then e.acks else e.acks + 1,
      e.firstSeen,
      m.now,
      if m.offered != None && |e.offered| < MAX_OFFERED then e.offered + {m.offered.value} else e.offered
    )
  }

  lemma {:induction false} OfEmptyIff<M, I>(h: seq<Message<M, I>>, server: I)
    ensures Of(h, server) == [] <==> server !in ServersOf(h)
    decreases |h|
  {
    if h != [] {
      var n := |h| - 1;
      OfEmptyIff(h[..n], server);
      assert ServersOf(h) == ServersOf(h[..n]) + [h[n].server];
    }
  }

  lemma OfferedOne<M, I>(h: seq<Message<M, I>>, m: Message<M, I>)
    ensures OfferedIn(h + [m]) == if m.offered == None then OfferedIn(h) else OfferedIn(h) + [m.offered.value]
    ensures CountOffers(h + [m]) == CountOffers(h) + if m.isOffer then 1 else 0
    ensures OfferedIn<M, I>([]) == [] && CountOffers<M, I>([]) == 0
  {
    assert (h + [m])[..|h|] == h;
  }

  lemma SummaryOne<M, I>(h: seq<Message<M, I>>, m: Message<M, I>)
    ensures Summary(h + [m]) == Updated(if h == [] then None else Some(Summary(h)), m)
  {
    hide FirstDistinct, OfferedIn, CountOffers;
    OfferedOne(h, m);
    if m.offered != None {
      FirstDistinctOne(OfferedIn(h), m.offered.value, MAX_OFFERED);
    } else {
      FirstDistinctOne(OfferedIn(h), m.server, MAX_OFFERED);
    }
  }

  lemma OfOne<M, I>(h: seq<Message<M, I>>, m: Message<M, I>, s: I)
    ensures Of(h + [m], s) == if m.server == s then Of(h, s) + [m] else Of(h, s)
  {
    assert (h + [m])[..|h|] == h;
  }

  /** The keys a message leaves. */
  lemma KeysOne<M, I>(h: seq<Message<M, I>>, m: Message<M, I>)
    ensures var before := FirstDistinct(ServersOf(h), MAX_SERVERS);
            FirstDistinct(ServersOf(h + [m]), MAX_SERVERS) == if |before| < MAX_SERVERS then before + {m.server} else before
  {
    assert ServersOf(h + [m]) == ServersOf(h) + [m.server];
    assert (ServersOf(h) + [m.server])[..|ServersOf(h)|] == ServersOf(h);
  }

  /** The entry of the message's server. */
  lemma EntryOne<M, I(!new)>(servers: map<I, Entry<M, I>>, h: seq<Message<M, I>>, m: Message<M, I>)
    requires Refines(servers, h)
    requires m.server in servers || |servers| < MAX_SERVERS
    ensures Of(h + [m], m.server) != []
    ensures Updated(if m.server in servers then Some(servers[m.server]) else None, m) == Summary(Of(h + [m], m.server))
  {
    hide FirstDistinct, Of, Summary, Updated, ServersOf;
    OfOne(h, m, m.server);
    SummaryOne(Of(h, m.server), m);
    if m.server !in servers {
      assert |servers| == |servers.Keys|;
      NotFullIsAll(ServersOf(h), MAX_SERVERS);
      OfEmptyIff(h, m.server);
    }
  }

  lemma KeysAfter<M, I(!new)>(servers: map<I, Entry<M, I>>, h: seq<Message<M, I>>, m: Message<M, I>, e: Entry<M, I>)
    requires servers.Keys == FirstDistinct(ServersOf(h), MAX_SERVERS)
    requires m.server in servers || |servers| < MAX_SERVERS
    ensures servers[m.server := e].Keys == FirstDistinct(ServersOf(h + [m]), MAX_SERVERS)
  {
    hide FirstDistinct, ServersOf;
    KeysOne(h, m);
    assert |servers| == |servers.Keys|;
    assert servers[m.server := e].Keys == servers.Keys + {m.server};
  }

  /** A message of a tracked server, or of a new one while there is room, keeps the table in step with the history. */
  lemma MessageRefines<M, I(!new)>(servers: map<I, Entry<M, I>>, h: seq<Message<M, I>>, m: Message<M, I>)
    requires Refines(servers, h)
    requires m.server in servers || |servers| < MAX_SERVERS
    ensures var before := if m.server in servers then Some(servers[m.server]) else None;
            Refines(servers[m.server := Updated(before, m)], h + [m])
  {
    hide FirstDistinct, Of, Summary, Updated, ServersOf;
    var before := if m.server in servers then Some(servers[m.server]) else None;
    var servers' := servers[m.server := Updated(before, m)];
    EntryOne(servers, h, m);
    KeysAfter(servers, h, m, Updated(before, m));
    forall s | s in servers'
      ensures Of(h + [m], s) != [] && servers'[s] == Summary(Of(h + [m], s))
    {
      if s != m.server {
        OfOne(h, m, s);
        assert s in servers;
      }
    }
  }

  /** A new server is ignored once the table is full. */
  lemma IgnoredRefines<M, I(!new)>(servers: map<I, Entry<M, I>>, h: seq<Message<M, I>>, m: Message<M, I>)
    requires Refines(servers, h) && m.server !in servers && |servers| >= MAX_SERVERS
    ensures Refines(servers, h + [m])
  {
    hide FirstDistinct, Of, Summary, ServersOf;
    KeysOne(h, m);
    assert |servers| == |servers.Keys|;
    forall s | s in servers
      ensures Of(h + [m], s) == Of(h, s)
    {
      OfOne(h, m, s);
    }
  }

  class Monitor<M(==), I(==, !new)> {
    var servers: map<I, Entry<M, I>>
    /** The messages handled since the last reset. */
    ghost var history: seq<Message<M, I>>

    ghost predicate Valid()
      reads this
    {
      Refines(servers, history)
    }

    constructor ()
      ensures Valid() && history == []
    {
      servers, history := map[], [];
    }

    /** `handle_packet`, on a packet that carries a message. */
    method HandleMessage(m: Message<M, I>)
      requires Valid()
      modifies this
      ensures Valid() && history == old(history) + [m]
    {
      hide Refines;
      if m.server !in servers && |servers| >= MAX_SERVERS {
        IgnoredRefines(servers, history, m);
        history := history + [m];
        return;
      }
      MessageRefines(servers, history, m);
      var before := if m.server in servers then Some(servers[m.server]) else None;
      servers := servers[m.server := Updated(before, m)];
      history := history + [m];
    }

    method Reset()
      requires Valid()
      modifies this
      ensures Valid() && history == [] && servers == map[]
    {
      servers, history := map[], [];
    }
  }

  /** `handle_packet`: a packet without an offer or acknowledgement changes nothing. */
  method HandlePacket(monitor: Monitor<Octets, Octets>, packet: Octets, now: int)
    requires monitor.Valid()
    modifies monitor
    ensures monitor.Valid()
    ensures match MessageOf(packet, now)
            case None => monitor.history == old(monitor.history) && monitor.servers == old(monitor.servers)
            case Some(m) => monitor.history == old(monitor.history) + [m]
  {
    hide MessageOf, Refines;
    var m := MessageOf(packet, now);
    if m != None {
      monitor.HandleMessage(m.value);
    }
  }

  /**
   What the table says of any history: a server is listed exactly when fewer than 50 others were seen
   before it; its counters add up to its messages.
   */
  lemma ListedIff<M, I(!new)>(servers: map<I, Entry<M, I>>, h: seq<Message<M, I>>, i: nat)
    requires Refines(servers, h) && i < |h|
    requires forall j :: 0 <= j < i ==> h[j].server != h[i].server
    ensures h[i].server in servers <==> |Elements(ServersOf(h[..i]))| < 50
    ensures |servers| <= 50
    ensures h[i].server in servers ==>
              var e := servers[h[i].server];
              e.offers + e.acks == |Of(h, h[i].server)| && |e.offered| <= 5
  {
    hide FirstDistinct, Of;
    assert ServersOf(h)[..i] == ServersOf(h[..i]);
    AmongFirstIff(ServersOf(h), MAX_SERVERS, i);
    assert |servers| == |servers.Keys|;
  }
}
