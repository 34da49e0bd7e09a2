/** The CDP payload parser of backend/discovery/cdp.py.  UTF-8 decoding and line splitting are parameters. */
module Cdp {
  import opened Bytes
  import opened Folds
  import opened Tlv
  import opened Wrappers

  datatype Neighbor = Neighbor(
    deviceId: Option<string>,
    portId: Option<string>,
    platform: Option<string>,
    softwareVersion: Option<string>,
    nativeVlan: Option<int>,
    address: Option<Octets>
  )

  /** `decode("utf-8", errors="replace")`, and the stripped first line of a nonempty text. */
  datatype Decoders = Decoders(text: Octets -> string, firstLine: string -> string)

  const NOTHING := Neighbor(None, None, None, None, None, None)

  const DEVICE_ID := 0x0001
  const ADDRESSES := 0x0002
  const PORT_ID := 0x0003
  const SOFTWARE_VERSION := 0x0005
  const PLATFORM := 0x0006
  const NATIVE_VLAN := 0x000a
  const MANAGEMENT_ADDRESSES := 0x0016
  const PREAMBLE := 4

  // ----- Address lists -----

  /** One entry of an address list. */
  datatype Entry = Entry(protocolType: byte, protocol: Octets, address: Octets)

  const NLPID := 1
  const NLPID_IP: Octets := [0xcc]

  predicate IsIpv4(protocolType: int, protocol: Octets, declaredLength: int) {
    protocolType == NLPID && protocol == NLPID_IP && declaredLength == 4
  }

  lemma IsIpv4Iff(protocolType: int, protocol: Octets, declaredLength: int)
    ensures IsIpv4(protocolType, protocol, declaredLength) <==>
            protocolType == 1 && protocol == [0xcc] && declaredLength == 4
  {
  }

  /** The first IPv4 address among the next `count` entries; a cut one keeps the octets it has. */
  function FirstIpv4(rest: Octets, count: nat): Option<Octets>
    decreases count
  {
    if count == 0 || |rest| < 2 then None
    else
      var h := 4 + (rest[1] as int);
      if |rest| < h then None
      else
        var declaredLength := U16(rest, h - 2);
        if IsIpv4(rest[0], rest[2..h - 2], declaredLength) then Some(Slice(rest, h, h + declaredLength))
        else FirstIpv4(From(rest, h + declaredLength), count - 1)
  }

  lemma FirstNone(rest: Octets, count: nat)
    requires count == 0 || |rest| < 2 || |rest| < 4 + (rest[1] as int)
    ensures FirstIpv4(rest, count) == None
  {
  }

  lemma FirstSome(rest: Octets, count: nat)
    requires count > 0 && |rest| >= 2 && |rest| >= 4 + (rest[1] as int)
    ensures var h := 4 + (rest[1] as int);
            var n := U16(rest, h - 2);
            FirstIpv4(rest, count) ==
            if IsIpv4(rest[0], Slice(rest, 2, h - 2), n) then Some(Slice(rest, h, h + n))
            else FirstIpv4(From(rest, h + n), count - 1)
  {
  }

  /** One turn of the loop, at an offset that holds a whole entry head. */
  lemma FirstAt(value: Octets, offset: nat, count: nat)
    requires count > 0 && offset + 2 <= |value| && offset + 4 + (value[offset + 1] as int) <= |value|
    ensures var h := 4 + (value[offset + 1] as int);
            var n := U16(value, offset + h - 2);
            FirstIpv4(From(value, offset), count) ==
            if IsIpv4(value[offset], Slice(value, offset + 2, offset + h - 2), n) then
              Some(Slice(value, offset + h, offset + h + n))
            else FirstIpv4(From(value, offset + h + n), count - 1)
  {
    hide FirstIpv4, U16, IsIpv4, Slice;
    var rest, h := From(value, offset), 4 + (value[offset + 1] as int);
    FirstSome(rest, count);
    FieldFrom(value, offset, h - 2);
    var n := U16(rest, h - 2);
    SliceFrom(value, offset, 2, h - 2);
    SliceFrom(value, offset, h, h + n);
    FromFrom(value, offset, h + n);
  }

  /** The loop ends where an entry head is missing. */
  lemma NoneAt(value: Octets, offset: nat, count: nat)
    requires count == 0 || offset + 2 > |value| || offset + 4 + (value[offset + 1] as int) > |value|
    ensures FirstIpv4(From(value, offset), count) == None
  {
    hide FirstIpv4;
    FirstNone(From(value, offset), count);
  }

  /** `_parse_address_tlv`. */
  method ParseAddressTlv(value: Octets) returns (r: Option<Octets>)
    ensures r == if |value| < 4 then None else FirstIpv4(value[4..], U32(value, 0))
  {
    hide FirstIpv4, U16, From, Slice;
    if |value| < 4 {
      return None;
    }
    var count := U32(value, 0);
    var offset := 4;
    FromStart(value, 4);
    for k := 0 to count
      invariant offset >= 4
      invariant FirstIpv4(From(value, offset), count - k) == FirstIpv4(value[4..], count)
    {
      if offset + 2 > |value| {
        NoneAt(value, offset, count - k);
        return None;
      }
      var protocolType, protocolLength := value[offset], value[offset + 1] as int;
      if offset + 2 + protocolLength + 2 > |value| {
        NoneAt(value, offset, count - k);
        return None;
      }
      FirstAt(value, offset, count - k);
      offset := offset + 2;
      var protocol := Slice(value, offset, offset + protocolLength);
      offset := offset + protocolLength;
      var addressLength := U16(value, offset);
      offset := offset + 2;
      var address := Slice(value, offset, offset + addressLength);
      offset := offset + addressLength;
      if protocolType == NLPID && protocol == NLPID_IP && addressLength == 4 {
        return Some(address);
      }
    }
    NoneAt(value, offset, 0);
    return None;
  }

  predicate EncodableEntry(e: Entry) {
    |e.protocol| < 256 && |e.address| < 0x1_0000
  }

  function EncodeHead(e: Entry): (b: Octets)
    requires EncodableEntry(e)
    ensures |b| == 4 + |e.protocol|
  {
    [e.protocolType, |e.protocol|] + e.protocol + PackU16(|e.address|)
  }

  function EncodeEntries(es: seq<Entry>): Octets
    requires forall i :: 0 <= i < |es| ==> EncodableEntry(es[i])
  {
    if es == [] then [] else EncodeHead(es[0]) + es[0].address + EncodeEntries(es[1..])
  }

  /** The first IPv4 address, as far as the first `k` bytes hold it. */
  function Shown(es: seq<Entry>, k: nat): Option<Octets>
    decreases |es|
  {
    if es == [] then None
    else
      var h := 4 + |es[0].protocol|;
      if k < h then None
      else if es[0].protocolType == 1 && es[0].protocol == [0xcc] && |es[0].address| == 4 then Some(Slice(es[0].address, 0, k - h))
      else if k < h + |es[0].address| then None
      else Shown(es[1..], k - h - |es[0].address|)
  }

  lemma HeadFields(e: Entry, rest: Octets)
    requires EncodableEntry(e)
    ensures var b := EncodeHead(e) + rest;
            var h := 4 + |e.protocol|;
            b[0] == e.protocolType && b[1] == |e.protocol| && Slice(b, 2, h - 2) == e.protocol &&
            U16(b, h - 2) == |e.address|
  {
    var b := EncodeHead(e) + rest;
    var p := [e.protocolType, |e.protocol|] + e.protocol;
    U16Packed(p, |e.address|, rest);
    assert b == p + PackU16(|e.address|) + rest;
    assert b[2..2 + |e.protocol|] == e.protocol;
  }

  /** The octets of an address behind its head, in a cut list. */
  lemma SliceBehind(head: Octets, address: Octets, rest: Octets, k: nat)
    requires |head| <= k <= |head + (address + rest)|
    ensures Slice((head + (address + rest))[..k], |head|, |head| + |address|) == Slice(address, 0, k - |head|)
  {
    var cut := (head + (address + rest))[..k];
    if k < |head| + |address| {
      assert cut[|head|..k] == address[..k - |head|];
    } else {
      assert cut[|head|..|head| + |address|] == address;
    }
  }

  /** An address list cut anywhere: the first IPv4 address is returned with as many octets as are left of it. */
  lemma {:induction false} AddressesOfCut(es: seq<Entry>, k: nat)
    requires forall i :: 0 <= i < |es| ==> EncodableEntry(es[i])
    requires k <= |EncodeEntries(es)|
    ensures FirstIpv4(EncodeEntries(es)[..k], |es|) == Shown(es, k)
    decreases |es|
  {
    hide FirstIpv4, IsIpv4, EncodeHead, EncodableEntry, U16;
    var cut := EncodeEntries(es)[..k];
    if es == [] {
      FirstNone(cut, 0);
    } else {
      assert EncodableEntry(es[0]);
      IsIpv4Iff(es[0].protocolType, es[0].protocol, |es[0].address|);
      var e, h := es[0], 4 + |es[0].protocol|;
      var tail := e.address + EncodeEntries(es[1..]);
      var all := EncodeHead(e) + tail;
      assert EncodeEntries(es) == all;
      HeadFields(e, tail);
      assert forall i :: 0 <= i < k ==> cut[i] == all[i];
      if k < h {
        FirstNone(cut, |es|);
      } else {
        var kept := tail[..k - h];
        assert cut == EncodeHead(e) + kept;
        HeadFields(e, kept);
        FirstSome(cut, |es|);
        SliceBehind(EncodeHead(e), e.address, EncodeEntries(es[1..]), k);
        if k < h + |e.address| {
          FirstNone([], |es| - 1);
          assert From(cut, h + |e.address|) == [];
        } else {
          var rest := EncodeEntries(es[1..]);
          assert From(cut, h + |e.address|) == rest[..k - h - |e.address|];
          AddressesOfCut(es[1..], k - h - |e.address|);
        }
      }
    }
  }

  // ----- TLVs -----

  function AddressOf(value: Octets): Option<Octets> {
    if |value| < 4 then None else FirstIpv4(value[4..], U32(value, 0))
  }

  /** The whole TLV value: the entry count in front of the list. */
  lemma AddressListOfCut(es: seq<Entry>, k: nat)
    requires |es| < 0x1_0000_0000 && forall i :: 0 <= i < |es| ==> EncodableEntry(es[i])
    requires k <= |EncodeEntries(es)|
    ensures AddressOf(PackU32(|es|) + EncodeEntries(es)[..k]) == Shown(es, k)
  {
    hide FirstIpv4, U32, PackU32, EncodableEntry, Shown;
    var v := PackU32(|es|) + EncodeEntries(es)[..k];
    U32Packed([], |es|, EncodeEntries(es)[..k]);
    assert v == [] + PackU32(|es|) + EncodeEntries(es)[..k];
    assert v[4..] == EncodeEntries(es)[..k];
    AddressesOfCut(es, k);
  }

  /** Whether an address list yields a nonempty address text. */
  predicate YieldsAddress(value: Octets) {
    AddressOf(value) != None && AddressOf(value) != Some([])
  }

  predicate IsAddressTag(tag: nat) {
    tag == ADDRESSES || tag == MANAGEMENT_ADDRESSES
  }

  /** A software version without any text: taking its first line raises. */
  predicate Raises(d: Decoders, item: Item) {
    item.tag == SOFTWARE_VERSION && d.text(item.value) == ""
  }

  /** What a TLV that does not raise does to the record. */
  function Apply(d: Decoders, nb: Neighbor, item: Item): Neighbor {
    var v := item.value;
    if item.tag == DEVICE_ID then nb.(deviceId := Some(d.text(v)))
    else if item.tag == PORT_ID then nb.(portId := Some(d.text(v)))
    else if item.tag == SOFTWARE_VERSION then nb.(softwareVersion := Some(d.firstLine(d.text(v))))
    else if item.tag == PLATFORM then nb.(platform := Some(d.text(v)))
    else if item.tag == NATIVE_VLAN && |v| >= 2 then nb.(nativeVlan := Some(U16(v, 0)))
    else if IsAddressTag(item.tag) && YieldsAddress(v) then nb.(address := AddressOf(v))
    else nb
  }

  /** None when some TLV raises: the dispatcher then drops the packet. */
  function Applying(d: Decoders): (Option<Neighbor>, Item) -> Option<Neighbor> {
    (before: Option<Neighbor>, item: Item) => if before == None || Raises(d, item) then None else Some(Apply(d, before.value, item))
  }

  const START: Option<Neighbor> := Some(NOTHING)

  function Tagged(tag: nat): Item -> bool {
    (item: Item) => item.tag == tag
  }

  function HasVlan(): Item -> bool {
    (item: Item) => item.tag == NATIVE_VLAN && |item.value| >= 2
  }

  function HasAddress(): Item -> bool {
    (item: Item) => IsAddressTag(item.tag) && YieldsAddress(item.value)
  }

  function TextOf(d: Decoders, item: Option<Item>): Option<string> {
    if item == None then None else Some(d.text(item.value.value))
  }

  function VersionOf(d: Decoders, item: Option<Item>): Option<string> {
    if item == None then None else Some(d.firstLine(d.text(item.value.value)))
  }

  function VlanOf(item: Option<Item>): Option<int> {
    if item == None || |item.value.value| < 2 then None else Some(U16(item.value.value, 0))
  }

  function AddressIn(item: Option<Item>): Option<Octets> {
    if item == None then None else AddressOf(item.value.value)
  }

  /** The record, field by field: each from the last TLV that carries it. */
  function ByField(d: Decoders, items: seq<Item>): Neighbor {
    Neighbor(
      TextOf(d, LastWith(items, Tagged(DEVICE_ID))),
      TextOf(d, LastWith(items, Tagged(PORT_ID))),
      TextOf(d, LastWith(items, Tagged(PLATFORM))),
      VersionOf(d, LastWith(items, Tagged(SOFTWARE_VERSION))),
      VlanOf(LastWith(items, HasVlan())),
      AddressIn(LastWith(items, HasAddress()))
    )
  }

  lemma ByFieldOne(d: Decoders, items: seq<Item>, item: Item)
    ensures ByField(d, items + [item]) == Apply(d, ByField(d, items), item)
  {
    hide LastWith, AddressOf, YieldsAddress, U16;
    LastWithOneMore(items, item, Tagged(DEVICE_ID));
    LastWithOneMore(items, item, Tagged(PORT_ID));
    LastWithOneMore(items, item, Tagged(PLATFORM));
    LastWithOneMore(items, item, Tagged(SOFTWARE_VERSION));
    LastWithOneMore(items, item, HasVlan());
    LastWithOneMore(items, item, HasAddress());
  }

  /** Parsing fails exactly when a visited software-version TLV holds no text; otherwise last wins. */
  lemma {:induction false} FieldsAreLast(d: Decoders, items: seq<Item>)
    ensures Fold(Applying(d), START, items) == if exists i :: 0 <= i < |items| && Raises(d, items[i]) then None else Some(ByField(d, items))
    decreases |items|
  {
    hide Apply, Raises;
    if items != [] {
      var n := |items| - 1;
      FieldsAreLast(d, items[..n]);
      assert forall i :: 0 <= i < n ==> items[..n][i] == items[i];
      hide ByField;
      ByFieldOne(d, items[..n], items[n]);
      assert items[..n] + [items[n]] == items;
    }
  }

  /**
   By the numbers of the protocol: unless some software version (type 5) holds no text, what the last TLV of each
   kind says.  Type 10 counts with two bytes at least, types 2 and 22 with an IPv4 address of some octets.
   */
  lemma TypesSay(d: Decoders, items: seq<Item>, i: nat)
    requires i < |items|
    ensures Fold(Applying(d), START, items) == None <==> exists j :: 0 <= j < |items| && items[j].tag == 5 && d.text(items[j].value) == ""
    ensures Fold(Applying(d), START, items) != None ==>
              var nb, v := Fold(Applying(d), START, items).value, items[i].value;
              && (IsLast(items, i, (x: Item) => x.tag == 1) ==> nb.deviceId == Some(d.text(v)))
              && (IsLast(items, i, (x: Item) => x.tag == 3) ==> nb.portId == Some(d.text(v)))
              && (IsLast(items, i, (x: Item) => x.tag == 5) ==> nb.softwareVersion == Some(d.firstLine(d.text(v))))
              && (IsLast(items, i, (x: Item) => x.tag == 6) ==> nb.platform == Some(d.text(v)))
              && (IsLast(items, i, (x: Item) => x.tag == 10 && |x.value| >= 2) ==> nb.nativeVlan == Some(U16(v, 0)))
              && (IsLast(items, i, (x: Item) => (x.tag == 2 || x.tag == 22) && AddressOf(x.value) !in [None, Some([])]) ==>
                    nb.address == AddressOf(v))
  {
    hide Fold, LastWith, U16, AddressOf;
    FieldsAreLast(d, items);
    SameLast(items, i);
    LastWithIs(items, i, Tagged(1));
    LastWithIs(items, i, Tagged(3));
    LastWithIs(items, i, Tagged(5));
    LastWithIs(items, i, Tagged(6));
    LastWithIs(items, i, HasVlan());
    LastWithIs(items, i, HasAddress());
  }

  lemma SameLast(items: seq<Item>, i: nat)
    ensures IsLast(items, i, (x: Item) => x.tag == 1) ==> IsLast(items, i, Tagged(1))
    ensures IsLast(items, i, (x: Item) => x.tag == 3) ==> IsLast(items, i, Tagged(3))
    ensures IsLast(items, i, (x: Item) => x.tag == 5) ==> IsLast(items, i, Tagged(5))
    ensures IsLast(items, i, (x: Item) => x.tag == 6) ==> IsLast(items, i, Tagged(6))
    ensures IsLast(items, i, (x: Item) => x.tag == 10 && |x.value| >= 2) ==> IsLast(items, i, HasVlan())
    ensures IsLast(items, i, (x: Item) => (x.tag == 2 || x.tag == 22) && AddressOf(x.value) !in [None, Some([])]) ==>
              IsLast(items, i, HasAddress())
  {
    hide AddressOf;
  }

  /** A field is empty exactly when no TLV carries it. */
  lemma NothingSaid(d: Decoders, items: seq<Item>)
    requires Fold(Applying(d), START, items) != None
    ensures var nb := Fold(Applying(d), START, items).value;
            && (nb.deviceId == None <==> NoneHas(items, (x: Item) => x.tag == 1))
            && (nb.portId == None <==> NoneHas(items, (x: Item) => x.tag == 3))
            && (nb.softwareVersion == None <==> NoneHas(items, (x: Item) => x.tag == 5))
            && (nb.platform == None <==> NoneHas(items, (x: Item) => x.tag == 6))
            && (nb.nativeVlan == None <==> NoneHas(items, (x: Item) => x.tag == 10 && |x.value| >= 2))
            && (nb.address == None <==>
                  NoneHas(items, (x: Item) => (x.tag == 2 || x.tag == 22) && AddressOf(x.value) !in [None, Some([])]))
  {
    hide Fold, LastWith, U16, AddressOf;
    FieldsAreLast(d, items);
    LastWithIsLast(items, Tagged(1));
    LastWithIsLast(items, Tagged(3));
    LastWithIsLast(items, Tagged(5));
    LastWithIsLast(items, Tagged(6));
    LastWithIsLast(items, HasVlan());
    LastHas(items, HasVlan());
    LastWithIsLast(items, HasAddress());
    LastHas(items, HasAddress());
  }

  lemma ApplyingOne(d: Decoders, items: seq<Item>, item: Item)
    ensures Fold(Applying(d), START, items + [item]) ==
            var before := Fold(Applying(d), START, items);
            if before == None || Raises(d, item) then None else Some(Apply(d, before.value, item))
    ensures Fold(Applying(d), START, []) == START
  {
    hide Fold, Apply, Raises;
    FoldOne(Applying(d), START, items, item);
    FoldNone(Applying(d), START);
  }

  lemma {:induction false} FoldStaysNone(d: Decoders, items: seq<Item>, more: seq<Item>)
    requires Fold(Applying(d), START, items) == None
    ensures Fold(Applying(d), START, items + more) == None
    decreases |more|
  {
    hide Fold, Applying;
    if more == [] {
      assert items + more == items;
    } else {
      var n := |more| - 1;
      FoldStaysNone(d, items, more[..n]);
      ApplyingOne(d, items + more[..n], more[n]);
      assert items + more == items + more[..n] + [more[n]];
    }
  }

  /** The TLV at a cursor, which may stand behind the end. */
  lemma CursorAt(p: Octets, i: nat, done: seq<Item>)
    ensures var rest := From(p, i);
            done + Scan(Format.Cdp, rest) ==
            if i + 4 > |p| then done
            else
              var tlvLen := U16(p, i + 2);
              var value := Slice(p, i + 4, i + tlvLen);
              if |value| < tlvLen - 4 then done
              else done + [Item(U16(p, i), value)] + Scan(Format.Cdp, From(p, i + if tlvLen >= 4 then tlvLen else |p|))
  {
    hide U16, Scan, Slice;
    var rest := From(p, i);
    FromEnd(p, i);
    if i + 4 > |p| {
      ScanStop(Format.Cdp, rest);
    } else {
      FieldFrom(p, i, 0);
      FieldFrom(p, i, 2);
      var tlvLen := U16(p, i + 2);
      if |Slice(p, i + 4, i + tlvLen)| < tlvLen - 4 {
        ScanStop(Format.Cdp, rest);
      } else {
        NextStart(p, i);
        ScanTake(Format.Cdp, rest);
      }
    }
  }

  /** `_parse_cdp_payload`: the fold of the TLVs behind the four bytes of version, time to live and checksum. */
  method ParseCdpPayload(payload: Octets, d: Decoders) returns (r: Option<Neighbor>)
    ensures r == if |payload| < PREAMBLE then Some(NOTHING)
                 else Fold(Applying(d), START, Scan(Format.Cdp, payload[PREAMBLE..]))
  {
    hide Fold, Scan, Next, Apply, Applying, Raises, U16, From, Slice;
    var neighbor := NOTHING;
    if |payload| < PREAMBLE {
      return Some(neighbor);
    }
    var i, n := PREAMBLE, |payload|;
    ghost var all := Scan(Format.Cdp, payload[PREAMBLE..]);
    ghost var done: seq<Item> := [];
    ApplyingOne(d, [], Item(0, []));
    FromStart(payload, i);
    while i + 4 <= n
      invariant i >= PREAMBLE
      invariant done + Scan(Format.Cdp, From(payload, i)) == all
      invariant Fold(Applying(d), START, done) == Some(neighbor)
    {
      CursorAt(payload, i, done);
      var tlvType, tlvLen := U16(payload, i), U16(payload, i + 2);
      var value := Slice(payload, i + 4, i + tlvLen);
      if |value| < tlvLen - 4 {
        return Some(neighbor);
      }
      i := i + if tlvLen >= 4 then tlvLen else n;
      ApplyingOne(d, done, Item(tlvType, value));
      done := done + [Item(tlvType, value)];
      if Raises(d, Item(tlvType, value)) {
        FoldStaysNone(d, done, Scan(Format.Cdp, From(payload, i)));
        return None;
      }
      neighbor := Apply(d, neighbor, Item(tlvType, value));
    }
    CursorAt(payload, i, done);
    r := Some(neighbor);
  }

  /** Where one turn of the loop leaves its cursor. */
  lemma NextStart(payload: Octets, start: nat)
    requires start + 4 <= |payload|
    requires var tlvLen := U16(payload, start + 2); |Slice(payload, start + 4, start + tlvLen)| >= tlvLen - 4
    ensures var rest, tlvLen := From(payload, start), U16(payload, start + 2);
            var size := if tlvLen >= 4 then tlvLen else |payload|;
            Next(Format.Cdp, rest).Take? &&
            Next(Format.Cdp, rest).item == Item(U16(payload, start), Slice(payload, start + 4, start + tlvLen)) &&
            rest[Next(Format.Cdp, rest).size..] == From(payload, start + size)
  {
    hide U16;
    FieldFrom(payload, start, 0);
    FieldFrom(payload, start, 2);
    var tlvLen := U16(payload, start + 2);
    if tlvLen >= 4 {
      SliceFrom(payload, start, 4, tlvLen);
      FromFrom(payload, start, tlvLen);
    } else {
      FromFrom(payload, start, |payload| - start);
    }
  }

  /** One empty software-version TLV loses the whole packet, whatever else it says. */
  lemma EmptyVersionLosesPacket(d: Decoders, before: seq<Item>, after: seq<Item>)
    requires d.text([]) == ""
    ensures Fold(Applying(d), START, before + [Item(SOFTWARE_VERSION, [])] + after) == None
  {
    var items := before + [Item(SOFTWARE_VERSION, [])] + after;
    FieldsAreLast(d, items);
    assert Raises(d, items[|before|]);
  }

  /** A length below that of the header makes its TLV the last one, with an empty value. */
  lemma MalformedLengthEnds(items: seq<Item>, tag: int, size: nat, junk: Octets)
    requires AllEncodable(Format.Cdp, items) && 0 <= tag < 0x1_0000 && size < HEADER_LEN
    ensures Scan(Format.Cdp, EncodeAll(Format.Cdp, items) + (PackU16(tag) + PackU16(size) + junk)) == items + [Item(tag, [])]
  {
    hide PackU16, U16;
    var bad := PackU16(tag) + PackU16(size) + junk;
    ScanAfter(Format.Cdp, items, bad);
    U16Packed([], tag, PackU16(size) + junk);
    U16Packed(PackU16(tag), size, junk);
    assert bad == [] + PackU16(tag) + (PackU16(size) + junk);
    ScanTake(Format.Cdp, bad);
    assert bad[|bad|..] == [];
    ScanStop(Format.Cdp, []);
  }

  /** A CDP packet cut anywhere, with fewer bytes than a header left over at most. */
  lemma CutCdp(d: Decoders, items: seq<Item>, tail: Octets, k: nat)
    requires AllEncodable(Format.Cdp, items) && |tail| < HEADER_LEN
    requires k <= |EncodeAll(Format.Cdp, items) + tail|
    ensures var whole := items[..Whole(Format.Cdp, items, k)];
            Fold(Applying(d), START, Scan(Format.Cdp, (EncodeAll(Format.Cdp, items) + tail)[..k])) ==
            if exists i :: 0 <= i < |whole| && Raises(d, whole[i]) then None else Some(ByField(d, whole))
  {
    ScanOfCut(Format.Cdp, items, tail, k);
    FieldsAreLast(d, items[..Whole(Format.Cdp, items, k)]);
  }
}
