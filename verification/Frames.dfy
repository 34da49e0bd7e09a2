/** The layout of Ethernet frames, ARP packets (RFC 826) and IPv4 headers (section 3.1 of RFC 791) that the capture modules rely on. */
module Frames {
  import opened Bytes

  const ETHERNET_LEN := 14

  /** Destination, source, type, payload. */
  function Ethernet(dst: Octets, src: Octets, ethertype: int, payload: Octets): (p: Octets)
    requires |dst| == 6 && |src| == 6 && 0 <= ethertype < 0x1_0000
    ensures |p| == ETHERNET_LEN + |payload|
  {
    dst + src + PackU16(ethertype) + payload
  }

  lemma EthernetFields(dst: Octets, src: Octets, ethertype: int, payload: Octets)
    requires |dst| == 6 && |src| == 6 && 0 <= ethertype < 0x1_0000
    ensures var p := Ethernet(dst, src, ethertype, payload);
            p[..6] == dst && p[6..12] == src && U16(p, 12) == ethertype && p[ETHERNET_LEN..] == payload
  {
    hide U16, PackU16;
    U16Packed(dst + src, ethertype, payload);
  }

  /** What stands at some distance behind a head. */
  lemma Behind(p: Octets, at: nat, i: nat, j: nat)
    requires at <= |p| && i <= j <= |p| - at
    ensures p[at + i..at + j] == p[at..][i..j]
    ensures i + 2 <= |p| - at ==> U16(p, at + i) == U16(p[at..], i)
    ensures i < |p| - at ==> p[at + i] == p[at..][i]
  {
  }

  /** A header whose length field is right: four times the low half of its first byte. */
  predicate IsIpv4Header(h: Octets) {
    |h| >= 20 && |h| == (h[0] as int) % 16 * 4
  }

  /** The fields of an IPv4 packet behind an Ethernet header that the parsers look at. */
  lemma Ipv4Fields(p: Octets, h: Octets, segment: Octets)
    requires |p| >= ETHERNET_LEN && p[ETHERNET_LEN..] == h + segment && IsIpv4Header(h)
    ensures |p| == ETHERNET_LEN + |h| + |segment|
    ensures 14 + (p[14] as int) % 16 * 4 == ETHERNET_LEN + |h|
    ensures p[23] == h[9] && p[26..30] == h[12..16] && p[30..34] == h[16..20]
    ensures p[ETHERNET_LEN + |h|..] == segment
  {
    var payload := p[ETHERNET_LEN..];
    assert p[14] == payload[0] && p[23] == payload[9];
    assert p[26..30] == payload[12..16] && p[30..34] == payload[16..20];
    assert payload[12..16] == h[12..16] && payload[16..20] == h[16..20];
    assert p[ETHERNET_LEN + |h|..] == payload[|h|..];
  }
}
