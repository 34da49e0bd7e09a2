/** The LLDPDU parser of backend/discovery/lldp.py.  UTF-8 decoding and stripping are parameters. */
module Lldp {
  import opened Bytes
  import opened Folds
  import opened Tlv
  import opened Wrappers

  /** A MAC address shown in hex, or text. */
  datatype Id = Mac(octets: Octets) | Text(text: string)

  datatype Address = IPv4(octets: Octets) | IPv6(octets: Octets)

  datatype Neighbor = Neighbor(
    chassisId: Option<Id>,
    portId: Option<Id>,
    portDescription: Option<string>,
    systemName: Option<string>,
    systemDescription: Option<string>,
    managementIp: Option<Address>,
    vlan: Option<int>
  )

  /** `decode("utf-8", errors="replace")` and `str.strip`. */
  datatype Decoders = Decoders(text: Octets -> string, strip: string -> string)

  const NOTHING := Neighbor(None, None, None, None, None, None, None)

  const CHASSIS_ID := 1
  const PORT_ID := 2
  const PORT_DESCRIPTION := 4
  const SYSTEM_NAME := 5
  const SYSTEM_DESCRIPTION := 6
  const MANAGEMENT_ADDRESS := 8
  const ORGANIZATIONAL := 127
  const VLAN_OUI: Octets := [0x00, 0x80, 0xc2]

  /** `_parse_chassis_id` with `macSubtype` 4, and `_parse_port_id` with 3. */
  function ParseId(d: Decoders, macSubtype: int, subtype: int, value: Octets): Id {
    if subtype == macSubtype && |value| == 6 then Mac(value) else Text(d.text(value))
  }

  /** `_parse_management_address`. */
  function ParseManagementAddress(value: Octets): Option<Address> {
    if |value| < 2 then None
    else
      var addr := Slice(value, 2, 1 + (value[0] as int));
      if value[1] == 1 && |addr| == 4 then Some(IPv4(addr))
      else if value[1] == 2 && |addr| == 16 then Some(IPv6(addr))
      else None
  }

  /** Subtype and address behind their length; anything else, such as the interface number, may follow. */
  function EncodeManagementAddress(a: Address, rest: Octets): Octets
    requires |a.octets| == if a.IPv4? then 4 else 16
  {
    [1 + |a.octets|, if a.IPv4? then 1 else 2] + a.octets + rest
  }

  lemma ManagementAddressRoundTrip(a: Address, rest: Octets)
    requires |a.octets| == if a.IPv4? then 4 else 16
    ensures ParseManagementAddress(EncodeManagementAddress(a, rest)) == Some(a)
  {
    var v := EncodeManagementAddress(a, rest);
    assert v[2..2 + |a.octets|] == a.octets;
  }

  /**
   Exactly when an IPv4 address is read: its four octets are there, and the declared length either
   stops right behind them or runs past the end of a value that stops there.
   */
  lemma ManagementIpv4Iff(value: Octets)
    ensures (exists o: Octets :: ParseManagementAddress(value) == Some(IPv4(o))) <==>
            |value| >= 6 && value[1] == 1 && (value[0] == 5 || (value[0] > 5 && |value| == 6))
    ensures forall o: Octets :: ParseManagementAddress(value) == Some(IPv4(o)) ==> o == value[2..6]
  {
    if |value| >= 6 && value[1] == 1 && (value[0] == 5 || (value[0] > 5 && |value| == 6)) {
      assert ParseManagementAddress(value) == Some(IPv4(value[2..6]));
    }
  }

  /** And an IPv6 address, whose subtype is 2 and length 16. */
  lemma ManagementIpv6Iff(value: Octets)
    ensures (exists o: Octets :: ParseManagementAddress(value) == Some(IPv6(o))) <==>
            |value| >= 18 && value[1] == 2 && (value[0] == 17 || (value[0] > 17 && |value| == 18))
    ensures forall o: Octets :: ParseManagementAddress(value) == Some(IPv6(o)) ==> o == value[2..18]
  {
    if |value| >= 18 && value[1] == 2 && (value[0] == 17 || (value[0] > 17 && |value| == 18)) {
      assert ParseManagementAddress(value) == Some(IPv6(value[2..18]));
    }
  }

  /** What one TLV does to the record. */
  function Apply(d: Decoders, nb: Neighbor, item: Item): Neighbor {
    var v := item.value;
    if item.tag == CHASSIS_ID && v != [] then nb.(chassisId := Some(ParseId(d, 4, v[0], v[1..])))
    else if item.tag == PORT_ID && v != [] then nb.(portId := Some(ParseId(d, 3, v[0], v[1..])))
    else if item.tag == PORT_DESCRIPTION then nb.(portDescription := Some(d.text(v)))
    else if item.tag == SYSTEM_NAME then nb.(systemName := Some(d.text(v)))
    else if item.tag == SYSTEM_DESCRIPTION then nb.(systemDescription := Some(d.strip(d.text(v))))
    else if item.tag == MANAGEMENT_ADDRESS then
      if ParseManagementAddress(v) != None then nb.(managementIp := ParseManagementAddress(v)) else nb
    else if item.tag == ORGANIZATIONAL && |v| >= 6 then
      if v[..3] == VLAN_OUI && v[3] == 3 then nb.(vlan := Some(U16(v, 4))) else nb
    else nb
  }

  function Applying(d: Decoders): (Neighbor, Item) -> Neighbor {
    (nb: Neighbor, item: Item) => Apply(d, nb, item)
  }

  // ----- Which TLV a field comes from -----

  function Filled(tag: nat): Item -> bool {
    (item: Item) => item.tag == tag && item.value != []
  }

  function Tagged(tag: nat): Item -> bool {
    (item: Item) => item.tag == tag
  }

  function HasAddress(): Item -> bool {
    (item: Item) => item.tag == MANAGEMENT_ADDRESS && ParseManagementAddress(item.value) != None
  }

  function HasVlan(): Item -> bool {
    (item: Item) => item.tag == ORGANIZATIONAL && |item.value| >= 6 && item.value[..3] == VLAN_OUI && item.value[3] == 3
  }

  function IdOf(d: Decoders, macSubtype: int, item: Option<Item>): Option<Id> {
    if item == None || item.value.value == [] then None
    else Some(ParseId(d, macSubtype, item.value.value[0], item.value.value[1..]))
  }

  function TextOf(d: Decoders, item: Option<Item>): Option<string> {
    if item == None then None else Some(d.text(item.value.value))
  }

  function StrippedOf(d: Decoders, item: Option<Item>): Option<string> {
    if item == None then None else Some(d.strip(d.text(item.value.value)))
  }

  function AddressOf(item: Option<Item>): Option<Address> {
    if item == None then None else ParseManagementAddress(item.value.value)
  }

  function VlanOf(item: Option<Item>): Option<int> {
    if item == None || |item.value.value| < 6 then None else Some(U16(item.value.value, 4))
  }

  /** The record, field by field: each from the last TLV that carries it. */
  function ByField(d: Decoders, items: seq<Item>): Neighbor {
    Neighbor(
      IdOf(d, 4, LastWith(items, Filled(CHASSIS_ID))),
      IdOf(d, 3, LastWith(items, Filled(PORT_ID))),
      TextOf(d, LastWith(items, Tagged(PORT_DESCRIPTION))),
      TextOf(d, LastWith(items, Tagged(SYSTEM_NAME))),
      StrippedOf(d, LastWith(items, Tagged(SYSTEM_DESCRIPTION))),
      AddressOf(LastWith(items, HasAddress())),
      VlanOf(LastWith(items, HasVlan()))
    )
  }

  lemma ByFieldOne(d: Decoders, items: seq<Item>, item: Item)
    ensures ByField(d, items + [item]) == Apply(d, ByField(d, items), item)
  {
    hide LastWith, ParseId, ParseManagementAddress, U16;
    LastWithOneMore(items, item, Filled(CHASSIS_ID));
    LastWithOneMore(items, item, Filled(PORT_ID));
    LastWithOneMore(items, item, Tagged(PORT_DESCRIPTION));
    LastWithOneMore(items, item, Tagged(SYSTEM_NAME));
    LastWithOneMore(items, item, Tagged(SYSTEM_DESCRIPTION));
    LastWithOneMore(items, item, HasAddress());
    LastWithOneMore(items, item, HasVlan());
  }

  lemma {:induction false} FieldsAreLast(d: Decoders, items: seq<Item>)
    ensures Fold(Applying(d), NOTHING, items) == ByField(d, items)
    decreases |items|
  {
    hide Apply;
    if items != [] {
      var n := |items| - 1;
      FieldsAreLast(d, items[..n]);
      hide ByField;
      ByFieldOne(d, items[..n], items[n]);
      assert items[..n] + [items[n]] == items;
    }
  }

  /**
   By the numbers of IEEE 802.1AB: what the last TLV of each kind says, and that a field is empty when there
   is none.  Types 1 and 2 count with a subtype, type 8 with an address, type 127 with the 802.1 port VLAN id.
   */
  lemma TypesSay(d: Decoders, items: seq<Item>, i: nat)
    requires i < |items|
    ensures var nb, v := Fold(Applying(d), NOTHING, items), items[i].value;
            && (IsLast(items, i, (x: Item) => x.tag == 1 && x.value != []) ==>
                  nb.chassisId == Some(if v[0] == 4 && |v| == 7 then Mac(v[1..]) else Text(d.text(v[1..]))))
            && (IsLast(items, i, (x: Item) => x.tag == 2 && x.value != []) ==>
                  nb.portId == Some(if v[0] == 3 && |v| == 7 then Mac(v[1..]) else Text(d.text(v[1..]))))
            && (IsLast(items, i, (x: Item) => x.tag == 4) ==> nb.portDescription == Some(d.text(v)))
            && (IsLast(items, i, (x: Item) => x.tag == 5) ==> nb.systemName == Some(d.text(v)))
            && (IsLast(items, i, (x: Item) => x.tag == 6) ==> nb.systemDescription == Some(d.strip(d.text(v))))
            && (IsLast(items, i, (x: Item) => x.tag == 8 && ParseManagementAddress(x.value) != None) ==>
                  nb.managementIp == ParseManagementAddress(v))
            && (IsLast(items, i, (x: Item) => x.tag == 127 && |x.value| >= 6 && x.value[..4] == [0, 128, 194, 3]) ==>
                  nb.vlan == Some(U16(v, 4)))
  {
    hide Fold, LastWith, U16, ParseManagementAddress;
    FieldsAreLast(d, items);
    SameKinds();
    LastWithIs(items, i, Filled(1));
    LastWithIs(items, i, Filled(2));
    LastWithIs(items, i, Tagged(4));
    LastWithIs(items, i, Tagged(5));
    LastWithIs(items, i, Tagged(6));
    LastWithIs(items, i, HasAddress());
    LastWithIs(items, i, HasVlan());
    SameLast(items, i);
  }

  lemma SameLast(items: seq<Item>, i: nat)
    ensures IsLast(items, i, (x: Item) => x.tag == 1 && x.value != []) ==> IsLast(items, i, Filled(1))
    ensures IsLast(items, i, (x: Item) => x.tag == 2 && x.value != []) ==> IsLast(items, i, Filled(2))
    ensures IsLast(items, i, (x: Item) => x.tag == 4) ==> IsLast(items, i, Tagged(4))
    ensures IsLast(items, i, (x: Item) => x.tag == 5) ==> IsLast(items, i, Tagged(5))
    ensures IsLast(items, i, (x: Item) => x.tag == 6) ==> IsLast(items, i, Tagged(6))
    ensures IsLast(items, i, (x: Item) => x.tag == 8 && ParseManagementAddress(x.value) != None) ==> IsLast(items, i, HasAddress())
    ensures IsLast(items, i, (x: Item) => x.tag == 127 && |x.value| >= 6 && x.value[..4] == [0, 128, 194, 3]) ==>
              IsLast(items, i, HasVlan())
  {
    hide ParseManagementAddress;
    SameKinds();
  }

  /** The identifier of IEEE 802.1 and its subtype 3, together. */
  lemma SameKinds()
    ensures forall x: Item {:trigger HasVlan()(x)} ::
              HasVlan()(x) <==> x.tag == 127 && |x.value| >= 6 && x.value[..4] == [0, 128, 194, 3]
  {
    forall x: Item
      ensures HasVlan()(x) <==> x.tag == 127 && |x.value| >= 6 && x.value[..4] == [0, 128, 194, 3]
    {
      if |x.value| >= 6 {
        var v := x.value;
        assert v[..4] == v[..3] + [v[3]];
        assert [0, 128, 194, 3][..3] == [0, 128, 194] && v[..4][..3] == v[..3];
      }
    }
  }

  /** A field is empty exactly when no TLV carries it. */
  lemma NothingSaid(d: Decoders, items: seq<Item>)
    ensures var nb := Fold(Applying(d), NOTHING, items);
            && (nb.chassisId == None <==> NoneHas(items, (x: Item) => x.tag == 1 && x.value != []))
            && (nb.portId == None <==> NoneHas(items, (x: Item) => x.tag == 2 && x.value != []))
            && (nb.portDescription == None <==> NoneHas(items, (x: Item) => x.tag == 4))
            && (nb.systemName == None <==> NoneHas(items, (x: Item) => x.tag == 5))
            && (nb.systemDescription == None <==> NoneHas(items, (x: Item) => x.tag == 6))
            && (nb.managementIp == None <==> NoneHas(items, (x: Item) => x.tag == 8 && ParseManagementAddress(x.value) != None))
            && (nb.vlan == None <==> NoneHas(items, (x: Item) => x.tag == 127 && |x.value| >= 6 && x.value[..4] == [0, 128, 194, 3]))
  {
    hide Fold, LastWith, U16, ParseManagementAddress, ParseId;
    FieldsAreLast(d, items);
    SameKinds();
    LastWithIsLast(items, Filled(1));
    LastWithIsLast(items, Filled(2));
    LastWithIsLast(items, Tagged(4));
    LastWithIsLast(items, Tagged(5));
    LastWithIsLast(items, Tagged(6));
    LastWithIsLast(items, HasAddress());
    LastWithIsLast(items, HasVlan());
    LastHas(items, HasAddress());
    LastHas(items, HasVlan());
    LastHas(items, Filled(1));
    LastHas(items, Filled(2));
  }

  /** The TLV at a cursor. */
  lemma TlvAt(p: Octets, i: nat)
    requires i + 2 <= |p|
    ensures var tag, size := U16(p, i) / 512, U16(p, i) % 512;
            Next(Format.Lldp, p[i..]) ==
            var value := Slice(p, i + 2, i + 2 + size);
            if |value| < size || tag == 0 then Stop else Take(Item(tag, value), 2 + size)
  {
    hide U16;
    FieldFrom(p, i, 0);
    FromStart(p, i);
    var size := U16(p, i) % 512;
    if i + 2 + size <= |p| {
      assert p[i..][2..2 + size] == p[i + 2..i + 2 + size];
    }
  }

  lemma NoTlvAt(p: Octets, i: nat)
    requires i <= |p| < i + 2
    ensures Next(Format.Lldp, p[i..]) == Stop
  {
  }

  lemma ApplyingOne(d: Decoders, items: seq<Item>, item: Item)
    ensures Fold(Applying(d), NOTHING, items + [item]) == Apply(d, Fold(Applying(d), NOTHING, items), item)
    ensures Fold(Applying(d), NOTHING, []) == NOTHING
  {
    hide Fold, Apply;
    FoldOne(Applying(d), NOTHING, items, item);
    FoldNone(Applying(d), NOTHING);
  }

  /** `_parse_lldpdu`: the fold of the TLVs that scanning visits. */
  method ParseLldpdu(payload: Octets, d: Decoders) returns (neighbor: Neighbor)
    ensures neighbor == Fold(Applying(d), NOTHING, Scan(Format.Lldp, payload))
  {
    hide Fold, Scan, Next, Apply, Applying, U16, Slice;
    neighbor := NOTHING;
    var i, n := 0, |payload|;
    ghost var done: seq<Item> := [];
    ApplyingOne(d, [], Item(0, []));
    assert payload[0..] == payload;
    while i + 2 <= n
      invariant 0 <= i <= n
      invariant done + Scan(Format.Lldp, payload[i..]) == Scan(Format.Lldp, payload)
      invariant neighbor == Fold(Applying(d), NOTHING, done)
    {
      ghost var start := i;
      TlvAt(payload, i);
      var header := U16(payload, i);
      var tlvType, tlvLen := header / 512, header % 512;
      i := i + 2;
      var value := Slice(payload, i, i + tlvLen);
      i := i + tlvLen;
      if |value| < tlvLen || tlvType == 0 {
        CursorStop(Format.Lldp, payload, start, done);
        return;
      }
      CursorTake(Format.Lldp, payload, start, done);
      ApplyingOne(d, done, Item(tlvType, value));
      done := done + [Item(tlvType, value)];
      neighbor := Apply(d, neighbor, Item(tlvType, value));
    }
    NoTlvAt(payload, i);
    CursorStop(Format.Lldp, payload, i, done);
  }

  /**
   An LLDPDU cut anywhere yields the fields of the TLVs wholly before the cut, each from the last of
   them that carries it; what follows the end marker is ignored.
   */
  lemma CutLldpdu(d: Decoders, items: seq<Item>, tail: Octets, k: nat)
    requires AllEncodable(Format.Lldp, items) && Ends(Format.Lldp, tail)
    requires k <= |EncodeAll(Format.Lldp, items) + tail|
    ensures Fold(Applying(d), NOTHING, Scan(Format.Lldp, (EncodeAll(Format.Lldp, items) + tail)[..k])) ==
            ByField(d, items[..Whole(Format.Lldp, items, k)])
  {
    ScanOfCut(Format.Lldp, items, tail, k);
    FieldsAreLast(d, items[..Whole(Format.Lldp, items, k)]);
  }
}
