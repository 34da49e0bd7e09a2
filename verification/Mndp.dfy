/** The MNDP payload parser of backend/discovery/mndp.py.  UTF-8 decoding is a parameter. */
module Mndp {
  import opened Bytes
  import opened Folds
  import opened Tlv
  import opened Wrappers

  datatype Neighbor = Neighbor(
    macAddress: Option<Octets>,
    identity: Option<string>,
    platform: Option<string>,
    version: Option<string>,
    board: Option<string>,
    uptimeSeconds: Option<int>,
    softwareId: Option<string>,
    interfaceName: Option<string>,
    ipv4Address: Option<Octets>
  )

  const NOTHING := Neighbor(None, None, None, None, None, None, None, None, None)

  const MAC_ADDRESS := 0x0001
  const IDENTITY := 0x0005
  const VERSION := 0x0007
  const PLATFORM := 0x0008
  const UPTIME := 0x000a
  const SOFTWARE_ID := 0x000b
  const BOARD := 0x000c
  const INTERFACE_NAME := 0x0010
  const IPV4_ADDRESS := 0x0011
  const PREAMBLE := 4

  /** What one TLV does to the record. */
  function Apply(text: Octets -> string, nb: Neighbor, item: Item): Neighbor {
    var v := item.value;
    if item.tag == MAC_ADDRESS && |v| == 6 then nb.(macAddress := Some(v))
    else if item.tag == IDENTITY then nb.(identity := Some(text(v)))
    else if item.tag == VERSION then nb.(version := Some(text(v)))
    else if item.tag == PLATFORM then nb.(platform := Some(text(v)))
    else if item.tag == UPTIME && |v| == 4 then nb.(uptimeSeconds := Some(LittleU32(v, 0)))
    else if item.tag == SOFTWARE_ID then nb.(softwareId := Some(text(v)))
    else if item.tag == BOARD then nb.(board := Some(text(v)))
    else if item.tag == INTERFACE_NAME then nb.(interfaceName := Some(text(v)))
    else if item.tag == IPV4_ADDRESS && |v| == 4 then nb.(ipv4Address := Some(v))
    else nb
  }

  function Applying(text: Octets -> string): (Neighbor, Item) -> Neighbor {
    (nb: Neighbor, item: Item) => Apply(text, nb, item)
  }

  function Tagged(tag: nat): Item -> bool {
    (item: Item) => item.tag == tag
  }

  function Sized(tag: nat, size: nat): Item -> bool {
    (item: Item) => item.tag == tag && |item.value| == size
  }

  function TextOf(text: Octets -> string, item: Option<Item>): Option<string> {
    if item == None then None else Some(text(item.value.value))
  }

  function ValueOf(item: Option<Item>): Option<Octets> {
    if item == None then None else Some(item.value.value)
  }

  function UptimeOf(item: Option<Item>): Option<int> {
    if item == None || |item.value.value| != 4 then None else Some(LittleU32(item.value.value, 0))
  }

  /** The record, field by field: each from the last TLV that carries it. */
  function ByField(text: Octets -> string, items: seq<Item>): Neighbor {
    Neighbor(
      ValueOf(LastWith(items, Sized(MAC_ADDRESS, 6))),
      TextOf(text, LastWith(items, Tagged(IDENTITY))),
      TextOf(text, LastWith(items, Tagged(PLATFORM))),
      TextOf(text, LastWith(items, Tagged(VERSION))),
      TextOf(text, LastWith(items, Tagged(BOARD))),
      UptimeOf(LastWith(items, Sized(UPTIME, 4))),
      TextOf(text, LastWith(items, Tagged(SOFTWARE_ID))),
      TextOf(text, LastWith(items, Tagged(INTERFACE_NAME))),
      ValueOf(LastWith(items, Sized(IPV4_ADDRESS, 4)))
    )
  }

  lemma ByFieldOne(text: Octets -> string, items: seq<Item>, item: Item)
    ensures ByField(text, items + [item]) == Apply(text, ByField(text, items), item)
  {
    hide LastWith, LittleU32;
    LastWithOneMore(items, item, Sized(MAC_ADDRESS, 6));
    LastWithOneMore(items, item, Tagged(IDENTITY));
    LastWithOneMore(items, item, Tagged(PLATFORM));
    LastWithOneMore(items, item, Tagged(VERSION));
    LastWithOneMore(items, item, Tagged(BOARD));
    LastWithOneMore(items, item, Sized(UPTIME, 4));
    LastWithOneMore(items, item, Tagged(SOFTWARE_ID));
    LastWithOneMore(items, item, Tagged(INTERFACE_NAME));
    LastWithOneMore(items, item, Sized(IPV4_ADDRESS, 4));
  }

  lemma {:induction false} FieldsAreLast(text: Octets -> string, items: seq<Item>)
    ensures Fold(Applying(text), NOTHING, items) == ByField(text, items)
    decreases |items|
  {
    hide Apply;
    if items != [] {
      var n := |items| - 1;
      FieldsAreLast(text, items[..n]);
      hide ByField;
      ByFieldOne(text, items[..n], items[n]);
      assert items[..n] + [items[n]] == items;
    }
  }

  /**
   By the numbers of the protocol: what the last TLV of each kind says.  Types 1, 10 and 17 count with values of
   6, 4 and 4 bytes; the uptime is little-endian.
   */
  lemma TypesSay(text: Octets -> string, items: seq<Item>, i: nat)
    requires i < |items|
    ensures var nb, v := Fold(Applying(text), NOTHING, items), items[i].value;
            && (IsLast(items, i, (x: Item) => x.tag == 1 && |x.value| == 6) ==> nb.macAddress == Some(v))
            && (IsLast(items, i, (x: Item) => x.tag == 5) ==> nb.identity == Some(text(v)))
            && (IsLast(items, i, (x: Item) => x.tag == 7) ==> nb.version == Some(text(v)))
            && (IsLast(items, i, (x: Item) => x.tag == 8) ==> nb.platform == Some(text(v)))
            && (IsLast(items, i, (x: Item) => x.tag == 10 && |x.value| == 4) ==>
                  nb.uptimeSeconds == Some((v[0] as int) + 256 * ((v[1] as int) + 256 * ((v[2] as int) + 256 * (v[3] as int)))))
            && (IsLast(items, i, (x: Item) => x.tag == 11) ==> nb.softwareId == Some(text(v)))
            && (IsLast(items, i, (x: Item) => x.tag == 12) ==> nb.board == Some(text(v)))
            && (IsLast(items, i, (x: Item) => x.tag == 16) ==> nb.interfaceName == Some(text(v)))
            && (IsLast(items, i, (x: Item) => x.tag == 17 && |x.value| == 4) ==> nb.ipv4Address == Some(v))
  {
    hide Fold, LastWith;
    FieldsAreLast(text, items);
    SameLast(items, i);
    LastWithIs(items, i, Sized(1, 6));
    LastWithIs(items, i, Tagged(5));
    LastWithIs(items, i, Tagged(7));
    LastWithIs(items, i, Tagged(8));
    LastWithIs(items, i, Sized(10, 4));
    LastWithIs(items, i, Tagged(11));
    LastWithIs(items, i, Tagged(12));
    LastWithIs(items, i, Tagged(16));
    LastWithIs(items, i, Sized(17, 4));
  }

  lemma SameLast(items: seq<Item>, i: nat)
    ensures IsLast(items, i, (x: Item) => x.tag == 1 && |x.value| == 6) ==> IsLast(items, i, Sized(1, 6))
    ensures IsLast(items, i, (x: Item) => x.tag == 5) ==> IsLast(items, i, Tagged(5))
    ensures IsLast(items, i, (x: Item) => x.tag == 7) ==> IsLast(items, i, Tagged(7))
    ensures IsLast(items, i, (x: Item) => x.tag == 8) ==> IsLast(items, i, Tagged(8))
    ensures IsLast(items, i, (x: Item) => x.tag == 10 && |x.value| == 4) ==> IsLast(items, i, Sized(10, 4))
    ensures IsLast(items, i, (x: Item) => x.tag == 11) ==> IsLast(items, i, Tagged(11))
    ensures IsLast(items, i, (x: Item) => x.tag == 12) ==> IsLast(items, i, Tagged(12))
    ensures IsLast(items, i, (x: Item) => x.tag == 16) ==> IsLast(items, i, Tagged(16))
    ensures IsLast(items, i, (x: Item) => x.tag == 17 && |x.value| == 4) ==> IsLast(items, i, Sized(17, 4))
  {
  }

  /** A field is empty exactly when no TLV carries it. */
  lemma NothingSaid(text: Octets -> string, items: seq<Item>)
    ensures var nb := Fold(Applying(text), NOTHING, items);
            && (nb.macAddress == None <==> NoneHas(items, (x: Item) => x.tag == 1 && |x.value| == 6))
            && (nb.identity == None <==> NoneHas(items, (x: Item) => x.tag == 5))
            && (nb.version == None <==> NoneHas(items, (x: Item) => x.tag == 7))
            && (nb.platform == None <==> NoneHas(items, (x: Item) => x.tag == 8))
            && (nb.uptimeSeconds == None <==> NoneHas(items, (x: Item) => x.tag == 10 && |x.value| == 4))
            && (nb.softwareId == None <==> NoneHas(items, (x: Item) => x.tag == 11))
            && (nb.board == None <==> NoneHas(items, (x: Item) => x.tag == 12))
            && (nb.interfaceName == None <==> NoneHas(items, (x: Item) => x.tag == 16))
            && (nb.ipv4Address == None <==> NoneHas(items, (x: Item) => x.tag == 17 && |x.value| == 4))
  {
    hide Fold, LastWith, LittleU32;
    FieldsAreLast(text, items);
    LastWithIsLast(items, Sized(1, 6));
    LastWithIsLast(items, Tagged(5));
    LastWithIsLast(items, Tagged(7));
    LastWithIsLast(items, Tagged(8));
    LastWithIsLast(items, Sized(10, 4));
    LastHas(items, Sized(10, 4));
    LastWithIsLast(items, Tagged(11));
    LastWithIsLast(items, Tagged(12));
    LastWithIsLast(items, Tagged(16));
    LastWithIsLast(items, Sized(17, 4));
  }

  /** The TLV at a cursor. */
  lemma TlvAt(p: Octets, i: nat)
    requires i + 4 <= |p|
    ensures var tag, size := U16(p, i), U16(p, i + 2);
            Next(Format.Mndp, p[i..]) ==
            var value := Slice(p, i + 4, i + 4 + size);
            if |value| < size then Stop else Take(Item(tag, value), 4 + size)
  {
    hide U16;
    FieldFrom(p, i, 0);
    FieldFrom(p, i, 2);
    FromStart(p, i);
    var size := U16(p, i + 2);
    if i + 4 + size <= |p| {
      assert p[i..][4..4 + size] == p[i + 4..i + 4 + size];
    }
  }

  lemma NoTlvAt(p: Octets, i: nat)
    requires i <= |p| < i + 4
    ensures Next(Format.Mndp, p[i..]) == Stop
  {
  }

  lemma ApplyingOne(text: Octets -> string, items: seq<Item>, item: Item)
    ensures Fold(Applying(text), NOTHING, items + [item]) == Apply(text, Fold(Applying(text), NOTHING, items), item)
    ensures Fold(Applying(text), NOTHING, []) == NOTHING
  {
    hide Fold, Apply;
    FoldOne(Applying(text), NOTHING, items, item);
    FoldNone(Applying(text), NOTHING);
  }

  /** `_parse_mndp_payload`: the fold of the TLVs behind header and sequence number. */
  method ParseMndpPayload(payload: Octets, text: Octets -> string) returns (neighbor: Neighbor)
    ensures neighbor == if |payload| < PREAMBLE then NOTHING
                        else Fold(Applying(text), NOTHING, Scan(Format.Mndp, payload[PREAMBLE..]))
  {
    hide Fold, Scan, Next, Apply, Applying, U16, Slice;
    neighbor := NOTHING;
    if |payload| < PREAMBLE {
      return;
    }
    var i, n := PREAMBLE, |payload|;
    ghost var done: seq<Item> := [];
    ApplyingOne(text, [], Item(0, []));
    while i + 4 <= n
      invariant PREAMBLE <= i <= n
      invariant done + Scan(Format.Mndp, payload[i..]) == Scan(Format.Mndp, payload[PREAMBLE..])
      invariant neighbor == Fold(Applying(text), NOTHING, done)
    {
      ghost var start := i;
      TlvAt(payload, i);
      var tlvType, tlvLen := U16(payload, i), U16(payload, i + 2);
      i := i + 4;
      var value := Slice(payload, i, i + tlvLen);
      if |value| < tlvLen {
        CursorStop(Format.Mndp, payload, start, done);
        return;
      }
      i := i + tlvLen;
      CursorTake(Format.Mndp, payload, start, done);
      ApplyingOne(text, done, Item(tlvType, value));
      done := done + [Item(tlvType, value)];
      neighbor := Apply(text, neighbor, Item(tlvType, value));
    }
    NoTlvAt(payload, i);
    CursorStop(Format.Mndp, payload, i, done);
  }

  /** An MNDP packet cut anywhere, with fewer bytes than a header left over at most. */
  lemma CutMndp(text: Octets -> string, items: seq<Item>, tail: Octets, k: nat)
    requires AllEncodable(Format.Mndp, items) && |tail| < HEADER_LEN
    requires k <= |EncodeAll(Format.Mndp, items) + tail|
    ensures Fold(Applying(text), NOTHING, Scan(Format.Mndp, (EncodeAll(Format.Mndp, items) + tail)[..k])) ==
            ByField(text, items[..Whole(Format.Mndp, items, k)])
  {
    ScanOfCut(Format.Mndp, items, tail, k);
    FieldsAreLast(text, items[..Whole(Format.Mndp, items, k)]);
  }
}
