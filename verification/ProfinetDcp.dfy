/**
 PROFINET DCP Identify responses (backend/tools/profinet_scan.py): the walk over the padded blocks and
 the device record they make.  UTF-8 and IDNA decoding are parameters.
 */
module ProfinetDcp {
  import opened Bytes
  import opened Folds
  import opened Tlv
  import opened Wrappers
  import ProfinetNames

  // ----- The block walk -----

  const BLOCK_HEADER := 4
  const BLOCKS_AT := 26

  /**
   The blocks visited from `offset` on: a block's header must lie before `end`, its data only inside
   the frame.  A block is an item whose tag is option and suboption.
   */
  function Walk(frame: Octets, offset: nat, end: nat): seq<Item>
    requires end <= |frame|
    decreases end - offset
  {
    if offset + BLOCK_HEADER > end then []
    else
      var size := U16(frame, offset + 2);
      var start := offset + BLOCK_HEADER;
      if start + size > |frame| then []
      else [Item(U16(frame, offset), frame[start..start + size])] + Walk(frame, start + size + size % 2, end)
  }

  ghost predicate IsBlock(b: Item) {
    b.tag < 0x1_0000 && |b.value| < 0x1_0000
  }

  ghost predicate AllBlocks(blocks: seq<Item>) {
    forall i :: 0 <= i < |blocks| ==> IsBlock(blocks[i])
  }

  /** A block, with one pad byte behind data of odd length. */
  function Laid(b: Item, pad: byte): (r: Octets)
    requires IsBlock(b)
    ensures |r| == BLOCK_HEADER + |b.value| + |b.value| % 2
  {
    PackU16(b.tag) + PackU16(|b.value|) + b.value + if |b.value| % 2 == 1 then [pad] else []
  }

  function Layout(blocks: seq<Item>, pad: byte): Octets
    requires AllBlocks(blocks)
  {
    if blocks == [] then [] else Laid(blocks[0], pad) + Layout(blocks[1..], pad)
  }

  /** How many leading blocks have their header in the first `declared` bytes and their data in the first `present`. */
  function Visited(blocks: seq<Item>, declared: int, present: int): (n: nat)
    ensures n <= |blocks|
    decreases |blocks|
  {
    if blocks == [] || BLOCK_HEADER > declared || BLOCK_HEADER + |blocks[0].value| > present then 0
    else
      var size := BLOCK_HEADER + |blocks[0].value| + |blocks[0].value| % 2;
      1 + Visited(blocks[1..], declared - size, present - size)
  }

  lemma LaidFields(pre: Octets, b: Item, pad: byte, post: Octets)
    requires IsBlock(b)
    ensures var f := pre + Laid(b, pad) + post;
            U16(f, |pre|) == b.tag && U16(f, |pre| + 2) == |b.value| &&
            f[|pre| + BLOCK_HEADER..|pre| + BLOCK_HEADER + |b.value|] == b.value
  {
    hide U16, PackU16;
    var f := pre + Laid(b, pad) + post;
    var rest := b.value + (if |b.value| % 2 == 1 then [pad] else []) + post;
    U16Packed(pre, b.tag, PackU16(|b.value|) + rest);
    U16Packed(pre + PackU16(b.tag), |b.value|, rest);
    assert f == pre + PackU16(b.tag) + (PackU16(|b.value|) + rest);
    assert f == (pre + PackU16(b.tag)) + PackU16(|b.value|) + rest;
  }

  lemma CutFields(frame: Octets, at: nat, k: nat)
    requires at + 2 <= k <= |frame|
    ensures U16(frame[..k], at) == U16(frame, at)
  {
  }

  /** One turn of the walk over a cut frame. */
  lemma WalkOne(pre: Octets, b: Item, pad: byte, post: Octets, k: nat, end: nat)
    requires IsBlock(b) && |pre| + BLOCK_HEADER <= end <= k <= |pre + Laid(b, pad) + post|
    ensures var cut := (pre + Laid(b, pad) + post)[..k];
            Walk(cut, |pre|, end) ==
            if |pre| + BLOCK_HEADER + |b.value| > k then [] else [b] + Walk(cut, |pre| + |Laid(b, pad)|, end)
  {
    hide U16, Laid;
    var f := pre + Laid(b, pad) + post;
    LaidFields(pre, b, pad, post);
    CutFields(f, |pre|, k);
    CutFields(f, |pre| + 2, k);
    if |pre| + BLOCK_HEADER + |b.value| <= k {
      assert f[..k][|pre| + BLOCK_HEADER..|pre| + BLOCK_HEADER + |b.value|] == b.value;
    }
  }

  lemma WalkShort(frame: Octets, offset: nat, end: nat)
    requires end <= |frame| && offset + BLOCK_HEADER > end
    ensures Walk(frame, offset, end) == []
  {
  }

  /**
   The walk over laid-out blocks, in a frame cut at byte `k` and with any declared length that does not
   reach past them: exactly the leading blocks that fit are visited, in order.
   */
  lemma {:induction false} WalkOfLayout(pre: Octets, blocks: seq<Item>, pad: byte, post: Octets, k: nat, end: nat)
    requires AllBlocks(blocks) && end <= k <= |pre + Layout(blocks, pad) + post|
    requires |pre| <= k && end < |pre| + |Layout(blocks, pad)| + BLOCK_HEADER
    ensures Walk((pre + Layout(blocks, pad) + post)[..k], |pre|, end) ==
            blocks[..Visited(blocks, end - |pre|, k - |pre|)]
    decreases |blocks|
  {
    hide Walk, Laid, IsBlock;
    var f := pre + Layout(blocks, pad) + post;
    if blocks == [] || |pre| + BLOCK_HEADER > end {
      WalkShort(f[..k], |pre|, end);
    } else {
      var b, rest := blocks[0], Layout(blocks[1..], pad);
      assert f == pre + Laid(b, pad) + (rest + post);
      WalkOne(pre, b, pad, rest + post, k, end);
      if |pre| + BLOCK_HEADER + |b.value| <= k {
        var pre' := pre + Laid(b, pad);
        if |pre'| <= k {
          assert f == pre' + rest + post;
          WalkOfLayout(pre', blocks[1..], pad, post, k, end);
        } else {
          WalkShort(f[..k], |pre'|, end);
        }
        var n := Visited(blocks[1..], end - |pre'|, k - |pre'|);
        assert blocks[..1 + n] == [b] + blocks[1..][..n];
      }
    }
  }

  // ----- The device record -----

  const VENDOR_VALUE := 0x0201
  const NAME_OF_STATION := 0x0202
  const DEVICE_ID := 0x0203
  const DEVICE_ROLE := 0x0204
  const IP_PARAMETER := 0x0102

  datatype Device = Device(
    mac: Octets,
    ip: Option<Octets>,
    subnetMask: Option<Octets>,
    gateway: Option<Octets>,
    ipInfo: Option<string>,
    nameOfStation: Option<string>,
    nameDecoded: Option<string>,
    vendorValue: Option<string>,
    vendorId: Option<int>,
    deviceId: Option<int>,
    role: Option<string>
  )

  function Blank(mac: Octets): Device {
    Device(mac, None, None, None, None, None, None, None, None, None, None)
  }

  predicate Flag(role: int, bit: int)
    requires bit > 0
  {
    role / bit % 2 == 1
  }

  function RoleNames(role: int): seq<string> {
    (if Flag(role, 1) then ["IO-Device"] else []) + (if Flag(role, 2) then ["IO-Controller"] else []) +
    (if Flag(role, 4) then ["IO-Multidevice"] else []) + (if Flag(role, 8) then ["PN-Supervisor"] else [])
  }

  function JoinNames(names: seq<string>): string {
    if names == [] then [] else if |names| == 1 then names[0] else names[0] + ", " + JoinNames(names[1..])
  }

  function RoleText(role: int): Option<string> {
    if RoleNames(role) != [] then Some(JoinNames(RoleNames(role)))
    else if role == 0 then Some("None")
    else None
  }

  function Host(b: Octets): Option<Octets> {
    if b == [0, 0, 0, 0] then None else Some(b)
  }

  function IpInfo(info: int): Option<string> {
    if info % 16 == 0 then Some("no IP set")
    else if info % 16 == 1 then Some("IP set")
    else if info % 16 == 2 then Some("IP set via DHCP")
    else None
  }

  lemma FlagIs(role: nat, bit: nat, q: nat)
    requires bit > 0 && q == role / (2 * bit)
    ensures Flag(role, bit) <==> role % (2 * bit) >= bit
  {
    var r := role % (2 * bit);
    assert role == 2 * bit * q + r;
    assert 2 * bit * q + r == bit * (2 * q) + r;
    if r >= bit {
      Quotient(role, bit, 2 * q + 1, r - bit);
    } else {
      Quotient(role, bit, 2 * q, r);
    }
  }

  lemma Quotient(a: nat, b: nat, q: nat, r: nat)
    requires r < b && a == b * q + r
    ensures a / b == q
  {
    var q' := a / b;
    assert a == b * q' + a % b;
    Scaled(q' + 1, q, b);
    Scaled(q + 1, q', b);
  }

  lemma Scaled(x: nat, y: nat, b: nat)
    ensures x <= y ==> b * x <= b * y
  {
    if x <= y {
      assert b * y == b * x + b * (y - x);
    }
  }

  lemma FlagsAre(role: byte)
    ensures Flag(role, 1) <==> role % 2 == 1
    ensures Flag(role, 2) <==> role % 4 >= 2
    ensures Flag(role, 4) <==> role % 8 >= 4
    ensures Flag(role, 8) <==> role % 16 >= 8
  {
    hide Flag;
    FlagIs(role, 1, role / 2);
    FlagIs(role, 2, role / 4);
    FlagIs(role, 4, role / 8);
    FlagIs(role, 8, role / 16);
  }

  /** A role names exactly the functions whose bits are set, each once. */
  lemma RoleNamesSay(role: byte)
    ensures forall name :: name in RoleNames(role) <==>
              || (name == "IO-Device" && role % 2 == 1) || (name == "IO-Controller" && role % 4 >= 2)
              || (name == "IO-Multidevice" && role % 8 >= 4) || (name == "PN-Supervisor" && role % 16 >= 8)
    ensures |RoleNames(role)| == (if role % 2 == 1 then 1 else 0) + (if role % 4 >= 2 then 1 else 0)
                                 + (if role % 8 >= 4 then 1 else 0) + (if role % 16 >= 8 then 1 else 0)
  {
    FlagsAre(role);
    hide Flag;
  }

  /** And in the order of their bits. */
  lemma RoleNamesInOrder()
    ensures RoleNames(15) == ["IO-Device", "IO-Controller", "IO-Multidevice", "PN-Supervisor"]
  {
  }

  /** Names stand in their order, with a comma and a space between any two. */
  lemma {:induction false} JoinNamesSay(a: seq<string>, b: seq<string>)
    requires a != [] && b != []
    ensures JoinNames(a + b) == JoinNames(a) + [',', ' '] + JoinNames(b)
    ensures |a| == 1 ==> JoinNames(a) == a[0]
    decreases |a|
  {
    if |a| == 1 {
      assert (a + b)[1..] == b;
    } else {
      JoinNamesSay(a[1..], b);
      assert (a + b)[1..] == a[1..] + b;
    }
  }

  /** A role without a known function is "None" when it is zero, and not shown otherwise. */
  lemma RoleTextSays(role: byte)
    ensures if role == 0 then RoleText(role) == Some("None")
            else if role % 16 == 0 then RoleText(role) == None
            else RoleText(role) == Some(JoinNames(RoleNames(role)))
  {
    RoleNamesSay(role);
    hide JoinNames, RoleNames;
  }

  /** `_parse_device_block` and `_parse_ip_block`. */
  function Apply(text: Octets -> string, dev: Device, b: Item): Device {
    var v := b.value;
    if b.tag == VENDOR_VALUE then dev.(vendorValue := Some(text(Slice(v, 2, |v|))))
    else if b.tag == NAME_OF_STATION then dev.(nameOfStation := Some(text(Slice(v, 2, |v|))))
    else if b.tag == DEVICE_ID && |v| >= 6 then dev.(vendorId := Some(U16(v, 2)), deviceId := Some(U16(v, 4)))
    else if b.tag == DEVICE_ROLE && |v| >= 3 then dev.(role := RoleText(v[2]))
    else if b.tag == IP_PARAMETER && |v| >= 14 then
      dev.(ip := Host(v[2..6]), subnetMask := Host(v[6..10]), gateway := Host(v[10..14]), ipInfo := IpInfo(U16(v, 0)))
    else dev
  }

  function Applying(text: Octets -> string): (Device, Item) -> Device {
    (dev: Device, b: Item) => Apply(text, dev, b)
  }

  function Sized(tag: nat, size: nat): Item -> bool {
    (b: Item) => b.tag == tag && |b.value| >= size
  }

  function TextOf(text: Octets -> string, b: Option<Item>): Option<string> {
    if b == None then None else Some(text(Slice(b.value.value, 2, |b.value.value|)))
  }

  function U16Of(b: Option<Item>, at: nat): Option<int> {
    if b == None || |b.value.value| < at + 2 then None else Some(U16(b.value.value, at))
  }

  function HostOf(b: Option<Item>, at: nat): Option<Octets> {
    if b == None || |b.value.value| < at + 4 then None else Host(b.value.value[at..at + 4])
  }

  function RoleOf(b: Option<Item>): Option<string> {
    if b == None || |b.value.value| < 3 then None else RoleText(b.value.value[2])
  }

  function InfoOf(b: Option<Item>): Option<string> {
    if b == None || |b.value.value| < 2 then None else IpInfo(U16(b.value.value, 0))
  }

  /** The record, field by field: each from the last block that carries it. */
  function ByField(text: Octets -> string, mac: Octets, blocks: seq<Item>): Device {
    var ip, id := LastWith(blocks, Sized(IP_PARAMETER, 14)), LastWith(blocks, Sized(DEVICE_ID, 6));
    Device(
      mac,
      HostOf(ip, 2),
      HostOf(ip, 6),
      HostOf(ip, 10),
      InfoOf(ip),
      TextOf(text, LastWith(blocks, Sized(NAME_OF_STATION, 0))),
      None,
      TextOf(text, LastWith(blocks, Sized(VENDOR_VALUE, 0))),
      U16Of(id, 2),
      U16Of(id, 4),
      RoleOf(LastWith(blocks, Sized(DEVICE_ROLE, 3)))
    )
  }

  lemma ByFieldOne(text: Octets -> string, mac: Octets, blocks: seq<Item>, b: Item)
    ensures ByField(text, mac, blocks + [b]) == Apply(text, ByField(text, mac, blocks), b)
  {
    hide LastWith, U16, Host, IpInfo, RoleText, Slice;
    LastWithOneMore(blocks, b, Sized(IP_PARAMETER, 14));
    LastWithOneMore(blocks, b, Sized(DEVICE_ID, 6));
    LastWithOneMore(blocks, b, Sized(NAME_OF_STATION, 0));
    LastWithOneMore(blocks, b, Sized(VENDOR_VALUE, 0));
    LastWithOneMore(blocks, b, Sized(DEVICE_ROLE, 3));
  }

  lemma {:induction false} FieldsAreLast(text: Octets -> string, mac: Octets, blocks: seq<Item>)
    ensures Fold(Applying(text), Blank(mac), blocks) == ByField(text, mac, blocks)
    decreases |blocks|
  {
    hide Apply;
    if blocks != [] {
      var n := |blocks| - 1;
      FieldsAreLast(text, mac, blocks[..n]);
      hide ByField;
      ByFieldOne(text, mac, blocks[..n], blocks[n]);
      assert blocks[..n] + [blocks[n]] == blocks;
    }
  }

  /**
   By the numbers of the protocol (IEC 61158-6-10): what the last block of each kind says.  Values stand behind two
   bytes of block information; four zero bytes are no address.
   */
  lemma BlocksSay(text: Octets -> string, mac: Octets, blocks: seq<Item>, i: nat)
    requires i < |blocks|
    ensures var dev, v := Fold(Applying(text), Blank(mac), blocks), blocks[i].value;
            && dev.mac == mac && dev.nameDecoded == None
            && (IsLast(blocks, i, (x: Item) => x.tag == 0x0201) ==> dev.vendorValue == Some(text(if |v| >= 2 then v[2..] else [])))
            && (IsLast(blocks, i, (x: Item) => x.tag == 0x0202) ==> dev.nameOfStation == Some(text(if |v| >= 2 then v[2..] else [])))
            && (IsLast(blocks, i, (x: Item) => x.tag == 0x0203 && |x.value| >= 6) ==>
                  dev.vendorId == Some(U16(v, 2)) && dev.deviceId == Some(U16(v, 4)))
            && (IsLast(blocks, i, (x: Item) => x.tag == 0x0204 && |x.value| >= 3) ==> dev.role == RoleText(v[2]))
            && (IsLast(blocks, i, (x: Item) => x.tag == 0x0102 && |x.value| >= 14) ==>
                  && dev.ip == (if v[2..6] == [0, 0, 0, 0] then None else Some(v[2..6]))
                  && dev.subnetMask == (if v[6..10] == [0, 0, 0, 0] then None else Some(v[6..10]))
                  && dev.gateway == (if v[10..14] == [0, 0, 0, 0] then None else Some(v[10..14]))
                  && (v[1] % 16 == 0 <==> dev.ipInfo == Some("no IP set"))
                  && (v[1] % 16 == 1 <==> dev.ipInfo == Some("IP set"))
                  && (v[1] % 16 == 2 <==> dev.ipInfo == Some("IP set via DHCP"))
                  && (v[1] % 16 > 2 <==> dev.ipInfo == None))
  {
    hide Fold, LastWith, RoleText;
    FieldsAreLast(text, mac, blocks);
    SameLast(blocks, i);
    LastWithIs(blocks, i, Sized(0x0201, 0));
    LastWithIs(blocks, i, Sized(0x0202, 0));
    LastWithIs(blocks, i, Sized(0x0203, 6));
    LastWithIs(blocks, i, Sized(0x0204, 3));
    LastWithIs(blocks, i, Sized(0x0102, 14));
    var v := blocks[i].value;
    assert Slice(v, 2, |v|) == if |v| >= 2 then v[2..] else [];
    hide Slice;
    if |v| >= 14 {
      IpInfoSays(v);
    }
    hide IpInfo, U16;
  }

  /** The low half of the second byte tells how the address was set. */
  lemma IpInfoSays(v: Octets)
    requires |v| >= 2
    ensures var info := IpInfo(U16(v, 0));
            && (v[1] % 16 == 0 <==> info == Some("no IP set")) && (v[1] % 16 == 1 <==> info == Some("IP set"))
            && (v[1] % 16 == 2 <==> info == Some("IP set via DHCP")) && (v[1] % 16 > 2 <==> info == None)
  {
    assert U16(v, 0) % 16 == v[1] % 16;
    assert "no IP set"[0] != "IP set"[0] && |"IP set"| != |"IP set via DHCP"| && |"no IP set"| != |"IP set via DHCP"|;
  }

  lemma SameLast(blocks: seq<Item>, i: nat)
    ensures IsLast(blocks, i, (x: Item) => x.tag == 0x0201) ==> IsLast(blocks, i, Sized(0x0201, 0))
    ensures IsLast(blocks, i, (x: Item) => x.tag == 0x0202) ==> IsLast(blocks, i, Sized(0x0202, 0))
    ensures IsLast(blocks, i, (x: Item) => x.tag == 0x0203 && |x.value| >= 6) ==> IsLast(blocks, i, Sized(0x0203, 6))
    ensures IsLast(blocks, i, (x: Item) => x.tag == 0x0204 && |x.value| >= 3) ==> IsLast(blocks, i, Sized(0x0204, 3))
    ensures IsLast(blocks, i, (x: Item) => x.tag == 0x0102 && |x.value| >= 14) ==> IsLast(blocks, i, Sized(0x0102, 14))
  {
  }

  /** What is missing when no block carries it. */
  lemma NothingSaid(text: Octets -> string, mac: Octets, blocks: seq<Item>)
    ensures var dev := Fold(Applying(text), Blank(mac), blocks);
            && (dev.vendorValue == None <==> NoneHas(blocks, (x: Item) => x.tag == 0x0201))
            && (dev.nameOfStation == None <==> NoneHas(blocks, (x: Item) => x.tag == 0x0202))
            && (dev.vendorId == None <==> NoneHas(blocks, (x: Item) => x.tag == 0x0203 && |x.value| >= 6))
            && (dev.deviceId == None <==> NoneHas(blocks, (x: Item) => x.tag == 0x0203 && |x.value| >= 6))
            && (NoneHas(blocks, (x: Item) => x.tag == 0x0204 && |x.value| >= 3) ==> dev.role == None)
            && (NoneHas(blocks, (x: Item) => x.tag == 0x0102 && |x.value| >= 14) ==>
                  dev.ip == None && dev.subnetMask == None && dev.gateway == None && dev.ipInfo == None)
  {
    hide Fold, LastWith, U16, Host, IpInfo, RoleText, Slice;
    FieldsAreLast(text, mac, blocks);
    LastWithIsLast(blocks, Sized(0x0201, 0));
    LastWithIsLast(blocks, Sized(0x0202, 0));
    LastWithIsLast(blocks, Sized(0x0203, 6));
    LastHas(blocks, Sized(0x0203, 6));
    LastWithIsLast(blocks, Sized(0x0204, 3));
    LastWithIsLast(blocks, Sized(0x0102, 14));
  }

  // ----- Responses -----

  const PROFINET_ETHERTYPE := 0x8892
  const IDENTIFY_RESPONSE := 0xfeff
  const IDENTIFY_SERVICE := 0x05
  const RESPONSE_SUCCESS := 0x01

  predicate IsResponse(frame: Octets) {
    |frame| >= BLOCKS_AT && U16(frame, 12) == PROFINET_ETHERTYPE && U16(frame, 14) == IDENTIFY_RESPONSE &&
    frame[16] == IDENTIFY_SERVICE && frame[17] == RESPONSE_SUCCESS
  }

  /** The frame type of PROFINET DCP, and the frame id, service and type of a successful Identify response. */
  lemma IsResponseIff(frame: Octets)
    ensures IsResponse(frame) <==> |frame| >= 26 && frame[12..18] == [0x88, 0x92, 0xfe, 0xff, 0x05, 0x01]
  {
    if |frame| >= 26 {
      var six := frame[12..18];
      assert forall i :: 0 <= i < 6 ==> six[i] == frame[12 + i];
    }
  }

  /** Where the declared data ends, inside the frame. */
  function EndOf(frame: Octets): (end: nat)
    requires |frame| >= BLOCKS_AT
    ensures BLOCKS_AT <= end <= |frame|
  {
    if BLOCKS_AT + U16(frame, 24) <= |frame| then BLOCKS_AT + U16(frame, 24) else |frame|
  }

  ghost function Named(dev: Device, idna: string -> Option<string>): Device {
    dev.(nameDecoded := ProfinetNames.StationName(dev.nameOfStation, idna))
  }

  lemma ApplyingOne(text: Octets -> string, mac: Octets, blocks: seq<Item>, b: Item)
    ensures Fold(Applying(text), Blank(mac), blocks + [b]) == Apply(text, Fold(Applying(text), Blank(mac), blocks), b)
    ensures Fold(Applying(text), Blank(mac), []) == Blank(mac)
  {
    hide Fold, Apply;
    FoldOne(Applying(text), Blank(mac), blocks, b);
    FoldNone(Applying(text), Blank(mac));
  }

  /** `_parse_response`: the fold of the blocks the walk visits, and the decoded name. */
  method ParseResponse(frame: Octets, text: Octets -> string, idna: string -> Option<string>) returns (r: Option<Device>)
    ensures r == if !IsResponse(frame) then None
                 else Some(Named(Fold(Applying(text), Blank(frame[6..12]), Walk(frame, BLOCKS_AT, EndOf(frame))), idna))
    ensures r != None ==> r.value.nameDecoded == ProfinetNames.StationName(r.value.nameOfStation, idna)
  {
    hide Fold, Walk, Apply, Applying, Blank, ProfinetNames.StationName, U16;
    if !IsResponse(frame) {
      return None;
    }
    var mac := frame[6..12];
    var device := Blank(mac);
    var offset, end := BLOCKS_AT, EndOf(frame);
    ghost var all := Walk(frame, offset, end);
    ghost var done: seq<Item> := [];
    ApplyingOne(text, mac, [], Item(0, []));
    while offset + BLOCK_HEADER <= end
      invariant done + Walk(frame, offset, end) == all
      invariant device == Fold(Applying(text), Blank(mac), done)
      decreases end - offset
    {
      var tag, blockLen := U16(frame, offset), U16(frame, offset + 2);
      var blockStart := offset + BLOCK_HEADER;
      var blockEnd := blockStart + blockLen;
      WalkAt(frame, offset, end, done);
      if blockEnd > |frame| {
        break;
      }
      var block := Item(tag, frame[blockStart..blockEnd]);
      ApplyingOne(text, mac, done, block);
      offset := blockEnd + blockLen % 2;
      done := done + [block];
      device := Apply(text, device, block);
    }
    WalkEnds(frame, offset, end);
    assert done + [] == done;
    var decoded := ProfinetNames.DecodeStationName(device.nameOfStation, idna);
    r := Some(device.(nameDecoded := decoded));
  }

  lemma WalkAt(frame: Octets, offset: nat, end: nat, done: seq<Item>)
    requires end <= |frame| && offset + BLOCK_HEADER <= end
    ensures var start := offset + BLOCK_HEADER;
            var size := U16(frame, offset + 2);
            done + Walk(frame, offset, end) ==
            if start + size > |frame| then done
            else done + [Item(U16(frame, offset), frame[start..start + size])] + Walk(frame, start + size + size % 2, end)
  {
    hide U16;
  }

  lemma WalkEnds(frame: Octets, offset: nat, end: nat)
    requires end <= |frame|
    requires offset + BLOCK_HEADER > end || offset + BLOCK_HEADER + U16(frame, offset + 2) > |frame|
    ensures Walk(frame, offset, end) == []
  {
  }

  /** A response header, with the length of the data behind it. */
  function Header(dst: Octets, mac: Octets, xidAndDelay: Octets, declared: int): (h: Octets)
    requires |dst| == 6 && |mac| == 6 && |xidAndDelay| == 6 && 0 <= declared < 0x1_0000
    ensures |h| == BLOCKS_AT
  {
    dst + mac + PackU16(PROFINET_ETHERTYPE) + PackU16(IDENTIFY_RESPONSE) + [IDENTIFY_SERVICE, RESPONSE_SUCCESS] +
    xidAndDelay + PackU16(declared)
  }

  lemma HeaderFields(dst: Octets, mac: Octets, xidAndDelay: Octets, declared: int, rest: Octets)
    requires |dst| == 6 && |mac| == 6 && |xidAndDelay| == 6 && 0 <= declared < 0x1_0000
    ensures var f := Header(dst, mac, xidAndDelay, declared) + rest;
            IsResponse(f) && f[6..12] == mac && U16(f, 24) == declared
  {
    hide U16, PackU16;
    var h := Header(dst, mac, xidAndDelay, declared);
    var f := h + rest;
    var service: Octets := [IDENTIFY_SERVICE, RESPONSE_SUCCESS];
    var tail := xidAndDelay + PackU16(declared) + rest;
    U16Packed(dst + mac, PROFINET_ETHERTYPE, PackU16(IDENTIFY_RESPONSE) + service + tail);
    U16Packed(dst + mac + PackU16(PROFINET_ETHERTYPE), IDENTIFY_RESPONSE, service + tail);
    U16Packed(h[..24], declared, rest);
    assert f == dst + mac + PackU16(PROFINET_ETHERTYPE) + (PackU16(IDENTIFY_RESPONSE) + service + tail);
    assert f == (dst + mac + PackU16(PROFINET_ETHERTYPE)) + PackU16(IDENTIFY_RESPONSE) + (service + tail);
    assert f == h[..24] + PackU16(declared) + rest;
  }

  /** The pad bytes behind the last block. */
  function LastPad(blocks: seq<Item>): int {
    if blocks == [] then 0 else |blocks[|blocks| - 1].value| % 2
  }

  lemma {:induction false} AllVisited(blocks: seq<Item>, pad: byte, declared: int, present: int)
    requires AllBlocks(blocks)
    requires |Layout(blocks, pad)| - LastPad(blocks) <= declared && |Layout(blocks, pad)| <= present
    ensures Visited(blocks, declared, present) == |blocks|
    decreases |blocks|
  {
    hide IsBlock;
    if blocks != [] {
      var size := |Laid(blocks[0], pad)|;
      if blocks[1..] == [] {
        assert Layout(blocks[1..], pad) == [];
        assert Visited(blocks[1..], declared - size, present - size) == 0;
      } else {
        LayoutLong(blocks[1..], pad);
        AllVisited(blocks[1..], pad, declared - size, present - size);
      }
    }
  }

  lemma LayoutLong(blocks: seq<Item>, pad: byte)
    requires AllBlocks(blocks) && blocks != []
    ensures |Layout(blocks, pad)| >= BLOCK_HEADER + LastPad(blocks)
  {
    if |blocks| > 1 {
      LayoutLong(blocks[1..], pad);
    }
  }

  /**
   A response whose blocks are laid out with one pad byte after each odd-length block, whether or not
   the declared length counts the last pad byte, and with any Ethernet padding behind: the record is
   that of exactly these blocks, each field from the last block that carries it.
   */
  lemma ResponseOfBlocks(dst: Octets, mac: Octets, xidAndDelay: Octets, declared: int, blocks: seq<Item>, pad: byte,
                         padding: Octets, text: Octets -> string)
    requires |dst| == 6 && |mac| == 6 && |xidAndDelay| == 6 && 0 <= declared < 0x1_0000 && AllBlocks(blocks)
    requires |Layout(blocks, pad)| - LastPad(blocks) <= declared <= |Layout(blocks, pad)|
    ensures var frame := Header(dst, mac, xidAndDelay, declared) + Layout(blocks, pad) + padding;
            IsResponse(frame) &&
            Fold(Applying(text), Blank(frame[6..12]), Walk(frame, BLOCKS_AT, EndOf(frame))) == ByField(text, mac, blocks)
  {
    hide IsResponse, Header, ByField, Fold, Walk, U16, IsBlock;
    var h := Header(dst, mac, xidAndDelay, declared);
    var frame := h + Layout(blocks, pad) + padding;
    HeaderFields(dst, mac, xidAndDelay, declared, Layout(blocks, pad) + padding);
    assert frame == h + (Layout(blocks, pad) + padding);
    assert frame[..|frame|] == frame;
    var end := EndOf(frame);
    assert end == BLOCKS_AT + declared;
    WalkOfLayout(h, blocks, pad, padding, |frame|, end);
    AllVisited(blocks, pad, declared, |frame| - BLOCKS_AT);
    assert blocks[..|blocks|] == blocks;
    FieldsAreLast(text, mac, blocks);
  }
}
