/**
 Duplicate-address detection (backend/capture/ip_conflict.py): which MACs claim which IP, with claims
 that expire after ten minutes and at most 500 tracked addresses.  Times are ticks of one second; the
 results hold as long as the clock does not run backwards.
 */
module IpConflict {
  import opened Bytes
  import opened Frames
  import opened Sets
  import opened Wrappers

  const ARP_ETHERTYPE := 0x0806
  const MAC_TTL := 600
  const MAX_TRACKED_IPS: nat := 500
  const PROBE_IP: Octets := [0, 0, 0, 0]

  datatype Claim<I, M> = Claim(ip: I, mac: M, time: int)

  type Owners<I, M> = map<I, map<M, int>>

  /** Sender IP and MAC of an Ethernet ARP packet. */
  function ParseArp(packet: Octets): (r: Option<(Octets, Octets)>) {
    if |packet| < 42 then None
    else if U16(packet, 12) != ARP_ETHERTYPE then None
    else Some((packet[28..32], packet[22..28]))
  }

  /** Of an ARP packet in an Ethernet frame: the sender's protocol and hardware address. */
  lemma ParsesArp(dst: Octets, src: Octets, ethertype: int, arp: Octets)
    requires |dst| == 6 && |src| == 6 && 0 <= ethertype < 0x1_0000
    ensures ParseArp(Ethernet(dst, src, ethertype, arp)) ==
            if ethertype == 0x0806 && |arp| >= 28 then Some((arp[14..18], arp[8..14])) else None
  {
    hide U16, Ethernet;
    var p := Ethernet(dst, src, ethertype, arp);
    EthernetFields(dst, src, ethertype, arp);
    if |arp| >= 28 {
      Behind(p, ETHERNET_LEN, 14, 18);
      Behind(p, ETHERNET_LEN, 8, 14);
    }
  }

  // ----- What the history of claims says -----

  ghost predicate Nondecreasing<I(!new), M(!new)>(h: seq<Claim<I, M>>) {
    forall i, j :: 0 <= i < j < |h| ==> h[i].time <= h[j].time
  }

  /** When `mac` last claimed `ip`. */
  ghost function LastTime<I(!new), M(!new)>(h: seq<Claim<I, M>>, ip: I, mac: M): Option<int> {
    if h == [] then None
    else if h[|h| - 1].ip == ip && h[|h| - 1].mac == mac then Some(h[|h| - 1].time)
    else LastTime(h[..|h| - 1], ip, mac)
  }

  ghost predicate IsLive<I(!new), M(!new)>(h: seq<Claim<I, M>>, ip: I, mac: M, now: int) {
    LastTime(h, ip, mac) != None && now - LastTime(h, ip, mac).value <= MAC_TTL
  }

  ghost function LiveIps<I(!new), M(!new)>(h: seq<Claim<I, M>>, now: int): set<I> {
    set i | 0 <= i < |h| && now - h[i].time <= MAC_TTL :: h[i].ip
  }

  ghost function LiveMacs<I(!new), M(!new)>(h: seq<Claim<I, M>>, ip: I, now: int): set<M> {
    set i | 0 <= i < |h| && h[i].ip == ip && now - h[i].time <= MAC_TTL :: h[i].mac
  }

  /** A new address is tracked only while fewer than 500 others are live. */
  ghost predicate IsAccepted<I(!new), M(!new)>(accepted: seq<Claim<I, M>>, c: Claim<I, M>) {
    c.ip in LiveIps(accepted, c.time) || |LiveIps(accepted, c.time)| < MAX_TRACKED_IPS
  }

  ghost function Accepted<I(!new), M(!new)>(offered: seq<Claim<I, M>>): seq<Claim<I, M>> {
    if offered == [] then []
    else
      var before := Accepted(offered[..|offered| - 1]);
      var c := offered[|offered| - 1];
      if IsAccepted(before, c) then before + [c] else before
  }

  /** The table holds exactly the live claims, and no empty inner map. */
  ghost predicate Refines<I(!new), M(!new)>(owners: Owners<I, M>, h: seq<Claim<I, M>>, now: int) {
    && (forall ip, mac :: ip in owners && mac in owners[ip] <==> IsLive(h, ip, mac, now))
    && (forall ip, mac :: ip in owners && mac in owners[ip] ==> LastTime(h, ip, mac) == Some(owners[ip][mac]))
    && (forall ip :: ip in owners ==> owners[ip] != map[])
  }

  lemma {:induction false} LastTimeIsLast<I(!new), M(!new)>(h: seq<Claim<I, M>>, ip: I, mac: M)
    requires Nondecreasing(h)
    ensures LastTime(h, ip, mac) != None ==>
              exists i :: 0 <= i < |h| && h[i] == Claim(ip, mac, LastTime(h, ip, mac).value)
    ensures forall i :: 0 <= i < |h| && h[i].ip == ip && h[i].mac == mac ==>
              LastTime(h, ip, mac) != None && h[i].time <= LastTime(h, ip, mac).value
    decreases |h|
  {
    if h != [] {
      var last := |h| - 1;
      LastTimeIsLast(h[..last], ip, mac);
      if h[last].ip == ip && h[last].mac == mac {
        assert h[last] == Claim(ip, mac, h[last].time);
      } else if LastTime(h[..last], ip, mac) != None {
        var i :| 0 <= i < last && h[..last][i] == Claim(ip, mac, LastTime(h[..last], ip, mac).value);
        assert h[i] == h[..last][i];
      }
      forall i | 0 <= i < |h| && h[i].ip == ip && h[i].mac == mac
        ensures LastTime(h, ip, mac) != None && h[i].time <= LastTime(h, ip, mac).value
      {
        if i < last {
          assert h[..last][i] == h[i];
        }
      }
    }
  }

  /** A claim is live when some claim of the pair, not only the last, is within the TTL. */
  lemma LiveMacsAreLive<I(!new), M(!new)>(h: seq<Claim<I, M>>, ip: I, mac: M, now: int)
    requires Nondecreasing(h)
    ensures mac in LiveMacs(h, ip, now) <==> IsLive(h, ip, mac, now)
    ensures IsLive(h, ip, mac, now) ==> ip in LiveIps(h, now)
  {
    LastTimeIsLast(h, ip, mac);
  }

  /** A refining table tracks exactly the live addresses, and each with exactly its live claimants. */
  lemma RefiningTableKeys<I(!new), M(!new)>(owners: Owners<I, M>, h: seq<Claim<I, M>>, now: int)
    requires Nondecreasing(h) && Refines(owners, h, now)
    ensures owners.Keys == LiveIps(h, now)
    ensures forall ip :: ip in owners ==> owners[ip].Keys == LiveMacs(h, ip, now)
  {
    forall ip | ip in owners
      ensures ip in LiveIps(h, now) && owners[ip].Keys == LiveMacs(h, ip, now)
    {
      forall mac ensures mac in owners[ip].Keys <==> mac in LiveMacs(h, ip, now) { LiveMacsAreLive(h, ip, mac, now); }
      var mac :| mac in owners[ip].Keys;
      LiveMacsAreLive(h, ip, mac, now);
    }
    forall i | 0 <= i < |h| && now - h[i].time <= MAC_TTL
      ensures h[i].ip in owners
    {
      LiveMacsAreLive(h, h[i].ip, h[i].mac, now);
    }
  }

  // ----- Pruning -----

  function LivePart<M>(macs: map<M, int>, now: int): map<M, int> {
    map mac | mac in macs && now - macs[mac] <= MAC_TTL :: macs[mac]
  }

  function Pruned<I, M>(owners: Owners<I, M>, now: int): Owners<I, M> {
    map ip | ip in owners && LivePart(owners[ip], now) != map[] :: LivePart(owners[ip], now)
  }

  lemma PruneRefines<I(!new), M(!new)>(owners: Owners<I, M>, h: seq<Claim<I, M>>, before: int, now: int)
    requires Refines(owners, h, before) && before <= now
    ensures Refines(Pruned(owners, now), h, now)
  {
    var pruned := Pruned(owners, now);
    forall ip, mac
      ensures ip in pruned && mac in pruned[ip] <==> IsLive(h, ip, mac, now)
    {
      if IsLive(h, ip, mac, now) {
        assert IsLive(h, ip, mac, before);
        assert mac in LivePart(owners[ip], now);
      }
    }
  }

  // ----- Claims -----

  /** What `handle_packet` does to a pruned table. */
  function Claimed<I, M>(owners: Owners<I, M>, c: Claim<I, M>): Owners<I, M> {
    if c.ip in owners then owners[c.ip := owners[c.ip][c.mac := c.time]]
    else if |owners| >= MAX_TRACKED_IPS then owners
    else owners[c.ip := map[c.mac := c.time]]
  }

  lemma LastTimeStep<I(!new), M(!new)>(h: seq<Claim<I, M>>, c: Claim<I, M>, ip: I, mac: M)
    ensures LastTime(h + [c], ip, mac) == if ip == c.ip && mac == c.mac then Some(c.time) else LastTime(h, ip, mac)
  {
    assert (h + [c])[..|h|] == h;
  }

  lemma StoredRefines<I(!new), M(!new)>(owners: Owners<I, M>, h: seq<Claim<I, M>>, c: Claim<I, M>)
    requires Refines(owners, h, c.time)
    ensures var macs := if c.ip in owners then owners[c.ip] else map[];
            Refines(owners[c.ip := macs[c.mac := c.time]], h + [c], c.time)
  {
    hide LastTime;
    var macs := if c.ip in owners then owners[c.ip] else map[];
    var owners' := owners[c.ip := macs[c.mac := c.time]];
    forall ip, mac
      ensures ip in owners' && mac in owners'[ip] <==> IsLive(h + [c], ip, mac, c.time)
      ensures ip in owners' && mac in owners'[ip] ==> LastTime(h + [c], ip, mac) == Some(owners'[ip][mac])
    {
      LastTimeStep(h, c, ip, mac);
      assert ip in owners && mac in owners[ip] <==> IsLive(h, ip, mac, c.time);
    }
    forall ip | ip in owners'
      ensures owners'[ip] != map[]
    {
      if ip == c.ip {
        assert c.mac in owners'[ip];
      }
    }
  }

  lemma ClaimRefines<I(!new), M(!new)>(owners: Owners<I, M>, h: seq<Claim<I, M>>, c: Claim<I, M>)
    requires Nondecreasing(h) && Refines(owners, h, c.time)
    ensures Refines(Claimed(owners, c), if IsAccepted(h, c) then h + [c] else h, c.time)
  {
    hide Refines, LiveIps, LiveMacs;
    RefiningTableKeys(owners, h, c.time);
    assert |owners| == |owners.Keys|;
    if IsAccepted(h, c) {
      StoredRefines(owners, h, c);
    }
  }

  lemma AcceptedStep<I(!new), M(!new)>(offered: seq<Claim<I, M>>, c: Claim<I, M>)
    ensures Accepted(offered + [c]) == if IsAccepted(Accepted(offered), c) then Accepted(offered) + [c] else Accepted(offered)
  {
    assert (offered + [c])[..|offered|] == offered;
  }

  // ----- Whole runs -----

  lemma {:induction false} AcceptedIsNondecreasing<I(!new), M(!new)>(offered: seq<Claim<I, M>>)
    requires Nondecreasing(offered)
    ensures Nondecreasing(Accepted(offered))
    ensures forall i :: 0 <= i < |Accepted(offered)| ==> Accepted(offered)[i] in offered
    decreases |offered|
  {
    if offered != [] {
      var init, c := offered[..|offered| - 1], offered[|offered| - 1];
      AcceptedIsNondecreasing(init);
      forall i | 0 <= i < |Accepted(init)|
        ensures Accepted(init)[i].time <= c.time
      {
        var k :| 0 <= k < |init| && init[k] == Accepted(init)[i];
        assert offered[k] == init[k];
      }
    }
  }

  /** At no time are more than 500 addresses tracked. */
  lemma {:induction false} TrackedIpsBounded<I(!new), M(!new)>(offered: seq<Claim<I, M>>, now: int)
    requires Nondecreasing(offered) && forall i :: 0 <= i < |offered| ==> offered[i].time <= now
    ensures |LiveIps(Accepted(offered), now)| <= 500
    decreases |offered|
  {
    if offered != [] {
      var init, c := offered[..|offered| - 1], offered[|offered| - 1];
      var h := Accepted(init);
      TrackedIpsBounded(init, c.time);
      LiveIpsShrink(h, c.time, now);
      if IsAccepted(h, c) {
        LiveIpsStep(h, c, now);
        SubsetCard(LiveIps(h + [c], now), LiveIps(h, c.time) + {c.ip});
      }
    }
  }

  lemma LiveIpsShrink<I(!new), M(!new)>(h: seq<Claim<I, M>>, before: int, now: int)
    requires before <= now
    ensures LiveIps(h, now) <= LiveIps(h, before) && |LiveIps(h, now)| <= |LiveIps(h, before)|
  {
    SubsetCard(LiveIps(h, now), LiveIps(h, before));
  }

  lemma LiveIpsStep<I(!new), M(!new)>(h: seq<Claim<I, M>>, c: Claim<I, M>, now: int)
    requires c.time <= now
    ensures LiveIps(h + [c], now) <= LiveIps(h, c.time) + {c.ip}
  {
    var h' := h + [c];
    forall i | 0 <= i < |h'| && now - h'[i].time <= MAC_TTL
      ensures h'[i].ip in LiveIps(h, c.time) + {c.ip}
    {
      if i < |h| {
        assert h'[i] == h[i];
      }
    }
  }

  // ----- The tracker -----

  /** `conflicts` reports the addresses with two or more live claimants, and their latest claims. */
  ghost predicate Reports<I(!new), M(!new)>(conflicts: Owners<I, M>, h: seq<Claim<I, M>>, now: int) {
    && (forall ip :: ip in conflicts <==> |LiveMacs(h, ip, now)| >= 2)
    && (forall ip :: ip in conflicts ==> conflicts[ip].Keys == LiveMacs(h, ip, now))
    && (forall ip, mac :: ip in conflicts && mac in conflicts[ip] ==> LastTime(h, ip, mac) == Some(conflicts[ip][mac]))
  }

  class ConflictTracker {
    var owners: Owners<Octets, Octets>
    ghost var offered: seq<Claim<Octets, Octets>>
    ghost var clock: int
    ghost var steady: bool  // the clock has not run backwards

    ghost predicate InStep()
      reads this
    {
      && Nondecreasing(offered) && Refines(owners, Accepted(offered), clock)
      && forall i :: 0 <= i < |offered| ==> offered[i].time <= clock
    }

    ghost predicate Valid()
      reads this
    {
      steady ==> InStep()
    }

    constructor (ghost now: int)
      ensures Valid() && steady && offered == [] && clock == now
    {
      owners, offered, clock, steady := map[], [], now, true;
    }

    /** Lazy expiry: the stale claims of every address, then the addresses left without any. */
    method PruneStaleMacs(now: int)
      modifies this`owners
      ensures owners == Pruned(old(owners), now)
    {
      var before := owners;
      var todo := owners.Keys;
      var staleIps: set<Octets> := {};
      while todo != {}
        invariant todo <= before.Keys && owners.Keys == before.Keys
        invariant forall ip :: ip in before && ip in todo ==> owners[ip] == before[ip]
        invariant forall ip :: ip in before && ip !in todo ==> owners[ip] == LivePart(before[ip], now)
        invariant forall ip :: ip in staleIps <==> ip in before && ip !in todo && LivePart(before[ip], now) == map[]
        decreases todo
      {
        var ip :| ip in todo;
        var macs := owners[ip];
        var staleMacs := set mac | mac in macs && now - macs[mac] > MAC_TTL;
        owners := owners[ip := macs - staleMacs];
        assert macs - staleMacs == LivePart(before[ip], now);
        if owners[ip] == map[] {
          staleIps := staleIps + {ip};
        }
        todo := todo - {ip};
      }
      owners := owners - staleIps;
    }

    method HandlePacket(packet: Octets, now: int)
      requires Valid()
      modifies this
      ensures Valid()
      ensures match ParseArp(packet)
              case None => offered == old(offered) && owners == old(owners) && clock == old(clock) && steady == old(steady)
              case Some((ip, mac)) =>
                if ip == [0, 0, 0, 0] then offered == old(offered) && owners == old(owners) && clock == old(clock) && steady == old(steady)
                else offered == old(offered) + [Claim(ip, mac, now)] && clock == now
                     && steady == (old(steady) && old(clock) <= now)
                     && owners == Claimed(Pruned(old(owners), now), Claim(ip, mac, now))
    {
      hide Refines, IsAccepted, Accepted, Pruned;
      var parsed := ParseArp(packet);
      if parsed == None {
        return;
      }
      var (ip, mac) := parsed.value;
      if ip == PROBE_IP {
        return;
      }
      ghost var c := Claim(ip, mac, now);
      ghost var before := owners;
      PruneStaleMacs(now);
      steady := steady && clock <= now;
      if steady {
        ClaimKeepsStep(before, offered, clock, c);
      }
      if ip in owners {
        owners := owners[ip := owners[ip][mac := now]];
      } else if |owners| < MAX_TRACKED_IPS {
        owners := owners[ip := map[mac := now]];
      }
      offered, clock := offered + [c], now;
    }

    method GetConflicts(now: int) returns (conflicts: Owners<Octets, Octets>, tracked: nat)
      requires Valid()
      modifies this
      ensures Valid() && offered == old(offered) && clock == now && steady == (old(steady) && old(clock) <= now)
      ensures owners == Pruned(old(owners), now) && tracked == |owners|
      ensures conflicts == map ip | ip in owners && |owners[ip]| >= 2 :: owners[ip]
      ensures steady ==> Reports(conflicts, Accepted(offered), now)
      ensures steady ==> tracked == |LiveIps(Accepted(offered), now)| <= MAX_TRACKED_IPS
    {
      hide Refines, Accepted, Pruned, Reports, LiveIps;
      ghost var before := owners;
      PruneStaleMacs(now);
      steady := steady && clock <= now;
      conflicts := map ip | ip in owners && |owners[ip]| >= 2 :: owners[ip];
      tracked := |owners|;
      if steady {
        ghost var h := Accepted(offered);
        AcceptedIsNondecreasing(offered);
        PruneRefines(before, h, clock, now);
        TrackedIpsBounded(offered, now);
        RefiningTableKeys(owners, h, now);
        assert tracked == |owners.Keys|;
        ConflictsReport(owners, h, now);
      }
      clock := now;
    }

    method Reset(ghost now: int)
      modifies this
      ensures Valid() && steady && offered == [] && owners == map[] && clock == now
    {
      owners, offered, clock, steady := map[], [], now, true;
    }
  }

  /** Pruning and storing a claim, as long as the clock does not run backwards. */
  lemma ClaimKeepsStep<I(!new), M(!new)>(owners: Owners<I, M>, offered: seq<Claim<I, M>>, before: int, c: Claim<I, M>)
    requires Nondecreasing(offered) && Refines(owners, Accepted(offered), before) && before <= c.time
    requires forall i :: 0 <= i < |offered| ==> offered[i].time <= before
    ensures Refines(Claimed(Pruned(owners, c.time), c), Accepted(offered + [c]), c.time)
    ensures Nondecreasing(offered + [c])
  {
    hide Refines, IsAccepted, Accepted, Pruned;
    AcceptedIsNondecreasing(offered);
    PruneRefines(owners, Accepted(offered), before, c.time);
    ClaimRefines(Pruned(owners, c.time), Accepted(offered), c);
    AcceptedStep(offered, c);
  }

  lemma ConflictsReport<I(!new), M(!new)>(owners: Owners<I, M>, h: seq<Claim<I, M>>, now: int)
    requires Nondecreasing(h) && Refines(owners, h, now)
    ensures Reports(map ip | ip in owners && |owners[ip]| >= 2 :: owners[ip], h, now)
  {
    var conflicts := map ip | ip in owners && |owners[ip]| >= 2 :: owners[ip];
    RefiningTableKeys(owners, h, now);
    forall ip
      ensures ip in conflicts <==> |LiveMacs(h, ip, now)| >= 2
    {
      UntrackedHasNoMacs(h, ip, now);
      if ip in owners {
        assert |owners[ip]| == |owners[ip].Keys|;
      }
    }
  }

  lemma TwoOf<M(!new)>(s: set<M>)
    ensures |s| >= 2 <==> exists a, b :: a in s && b in s && a != b
  {
    if a, b :| a in s && b in s && a != b {
      SubsetCard({a, b}, s);
    }
    if |s| >= 2 {
      var a :| a in s;
      assert |s - {a}| >= 1;
      var b :| b in s - {a};
    }
  }

  /** A conflict is what it is: two claims of one address by different MACs, both at most ten minutes old. */
  lemma ConflictIff<I(!new), M(!new)>(conflicts: Owners<I, M>, h: seq<Claim<I, M>>, now: int, ip: I)
    requires Reports(conflicts, h, now)
    ensures ip in conflicts <==>
            exists i, j :: && 0 <= i < |h| && 0 <= j < |h| && h[i].ip == ip && h[j].ip == ip && h[i].mac != h[j].mac
                           && now - h[i].time <= 600 && now - h[j].time <= 600
  {
    TwoOf(LiveMacs(h, ip, now));
    if a, b :| a in LiveMacs(h, ip, now) && b in LiveMacs(h, ip, now) && a != b {
      var i :| 0 <= i < |h| && h[i].ip == ip && now - h[i].time <= 600 && h[i].mac == a;
      var j :| 0 <= j < |h| && h[j].ip == ip && now - h[j].time <= 600 && h[j].mac == b;
    }
    if i, j :| && 0 <= i < |h| && 0 <= j < |h| && h[i].ip == ip && h[j].ip == ip && h[i].mac != h[j].mac
               && now - h[i].time <= 600 && now - h[j].time <= 600 {
      assert h[i].mac in LiveMacs(h, ip, now) && h[j].mac in LiveMacs(h, ip, now);
    }
  }

  /** A claim is passed over exactly when its address has no live claim and 500 others have. */
  lemma PassedOverIff<I(!new), M(!new)>(offered: seq<Claim<I, M>>, c: Claim<I, M>)
    ensures var h := Accepted(offered);
            Accepted(offered + [c]) == h <==>
            |LiveIps(h, c.time)| >= 500 && forall i :: 0 <= i < |h| && h[i].ip == c.ip ==> c.time - h[i].time > 600
  {
    assert (offered + [c])[..|offered|] == offered;
    var h := Accepted(offered);
    assert |h + [c]| == |h| + 1;
    hide Accepted;
    if c.ip in LiveIps(h, c.time) {
      var i :| 0 <= i < |h| && c.time - h[i].time <= 600 && h[i].ip == c.ip;
    }
    if i :| 0 <= i < |h| && h[i].ip == c.ip && c.time - h[i].time <= 600 {
      assert c.ip in LiveIps(h, c.time);
    }
  }

  lemma UntrackedHasNoMacs<I(!new), M(!new)>(h: seq<Claim<I, M>>, ip: I, now: int)
    ensures ip !in LiveIps(h, now) ==> LiveMacs(h, ip, now) == {}
  {
  }
}
