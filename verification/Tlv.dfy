/**
 The four type-length-value formats that the discovery and capture modules scan: LLDPDUs
 (backend/discovery/lldp.py), CDP (cdp.py), MNDP (mndp.py) and DHCP options (backend/capture/dhcp_monitor.py).
 `Next` is one turn of a scanning loop at the current position; the encoders are the wire formats.
 */
module Tlv {
  import opened Bytes
  import opened Wrappers

  datatype Format = Lldp | Cdp | Mndp | Dhcp

  /** One TLV.  A DHCP pad is the item with tag 0 and no value. */
  datatype Item = Item(tag: nat, value: Octets)

  datatype Step = Take(item: Item, size: nat) | Stop

  const HEADER_LEN := 4
  const LLDP_LENGTHS := 512
  const DHCP_PAD := 0
  const DHCP_END := 255

  /** What a loop does with the bytes from its cursor on: consume an item of some size, or end. */
  function Next(f: Format, rest: Octets): (s: Step)
    ensures s.Take? ==> 0 < s.size <= |rest|
  {
    match f
    case Lldp =>
      if |rest| < 2 then Stop
      else
        var tag, size := U16(rest, 0) / LLDP_LENGTHS, U16(rest, 0) % LLDP_LENGTHS;
        if |rest| < 2 + size || tag == 0 then Stop else Take(Item(tag, rest[2..2 + size]), 2 + size)
    case Cdp =>
      // The length counts the header; one below 4 yields an empty value and ends the scan.
      if |rest| < HEADER_LEN then Stop
      else
        var tag, size := U16(rest, 0), U16(rest, 2);
        if size < HEADER_LEN then Take(Item(tag, []), |rest|)
        else if |rest| < size then Stop
        else Take(Item(tag, rest[HEADER_LEN..size]), size)
    case Mndp =>
      if |rest| < HEADER_LEN then Stop
      else
        var tag, size := U16(rest, 0), U16(rest, 2);
        if |rest| < HEADER_LEN + size then Stop
        else Take(Item(tag, rest[HEADER_LEN..HEADER_LEN + size]), HEADER_LEN + size)
    case Dhcp =>
      if |rest| < 1 || rest[0] == DHCP_END then Stop
      else if rest[0] == DHCP_PAD then Take(Item(DHCP_PAD, []), 1)
      else if |rest| < 2 || |rest| < 2 + (rest[1] as int) then Stop
      else Take(Item(rest[0], rest[2..2 + (rest[1] as int)]), 2 + (rest[1] as int))
  }

  /** The items a loop visits, in order. */
  function Scan(f: Format, p: Octets): seq<Item>
    decreases |p|
  {
    match Next(f, p)
    case Stop => []
    case Take(item, size) => [item] + Scan(f, p[size..])
  }

  lemma ScanTake(f: Format, p: Octets)
    requires Next(f, p).Take?
    ensures Scan(f, p) == [Next(f, p).item] + Scan(f, p[Next(f, p).size..])
  {
  }

  lemma ScanStop(f: Format, p: Octets)
    requires Next(f, p).Stop?
    ensures Scan(f, p) == []
  {
  }

  /** A cursor at `i`, with the items before it done: what is left when the loop takes an item. */
  lemma CursorTake(f: Format, p: Octets, i: nat, done: seq<Item>)
    requires i <= |p| && Next(f, p[i..]).Take?
    ensures var t := Next(f, p[i..]);
            i + t.size <= |p| && done + Scan(f, p[i..]) == done + [t.item] + Scan(f, p[i + t.size..])
  {
    hide Next, Scan;
    var t := Next(f, p[i..]);
    ScanTake(f, p[i..]);
    assert p[i..][t.size..] == p[i + t.size..];
  }

  /** And when it ends. */
  lemma CursorStop(f: Format, p: Octets, i: nat, done: seq<Item>)
    requires i <= |p| && Next(f, p[i..]).Stop?
    ensures done + Scan(f, p[i..]) == done
  {
    hide Next, Scan;
    ScanStop(f, p[i..]);
  }

  // ----- The wire formats -----

  ghost predicate Encodable(f: Format, item: Item) {
    match f
    case Lldp => 1 <= item.tag < 128 && |item.value| < LLDP_LENGTHS
    case Cdp => item.tag < 0x1_0000 && HEADER_LEN + |item.value| < 0x1_0000
    case Mndp => item.tag < 0x1_0000 && |item.value| < 0x1_0000
    case Dhcp => (item.tag == DHCP_PAD && item.value == []) || (1 <= item.tag < DHCP_END && |item.value| < 256)
  }

  function Encode(f: Format, item: Item): (b: Octets)
    requires Encodable(f, item)
    ensures b != []
  {
    match f
    case Lldp => PackU16(item.tag * LLDP_LENGTHS + |item.value|) + item.value
    case Cdp => PackU16(item.tag) + PackU16(HEADER_LEN + |item.value|) + item.value
    case Mndp => PackU16(item.tag) + PackU16(|item.value|) + item.value
    case Dhcp => if item.tag == DHCP_PAD then [DHCP_PAD] else [item.tag, |item.value|] + item.value
  }

  ghost predicate AllEncodable(f: Format, items: seq<Item>) {
    forall i :: 0 <= i < |items| ==> Encodable(f, items[i])
  }

  function EncodeAll(f: Format, items: seq<Item>): Octets
    requires AllEncodable(f, items)
  {
    if items == [] then [] else Encode(f, items[0]) + EncodeAll(f, items[1..])
  }

  function EndMarker(f: Format): Octets {
    match f
    case Lldp => [0, 0]
    case Dhcp => [DHCP_END]
    case _ => []
  }

  /** What may follow the items: an end marker and anything; without one, less than a header. */
  ghost predicate Ends(f: Format, tail: Octets) {
    if EndMarker(f) == [] then |tail| < HEADER_LEN else EndMarker(f) <= tail || |tail| < |EndMarker(f)|
  }

  lemma LldpHeader(tag: nat, size: nat)
    requires size < LLDP_LENGTHS
    ensures (tag * LLDP_LENGTHS + size) / LLDP_LENGTHS == tag && (tag * LLDP_LENGTHS + size) % LLDP_LENGTHS == size
  {
  }

  lemma NextOfLldp(item: Item, rest: Octets)
    requires Encodable(Lldp, item)
    ensures Next(Lldp, Encode(Lldp, item) + rest) == Take(item, |Encode(Lldp, item)|)
  {
    hide U16, PackU16;
    var v := item.value;
    var header := item.tag * LLDP_LENGTHS + |v|;
    var b := Encode(Lldp, item) + rest;
    LldpHeader(item.tag, |v|);
    U16Packed([], header, v + rest);
    assert b == [] + PackU16(header) + (v + rest);
    assert b[2..2 + |v|] == v;
  }

  lemma NextOfCdp(item: Item, rest: Octets)
    requires Encodable(Cdp, item)
    ensures Next(Cdp, Encode(Cdp, item) + rest) == Take(item, |Encode(Cdp, item)|)
  {
    hide U16, PackU16;
    var v := item.value;
    var b := Encode(Cdp, item) + rest;
    U16Packed([], item.tag, PackU16(HEADER_LEN + |v|) + v + rest);
    U16Packed(PackU16(item.tag), HEADER_LEN + |v|, v + rest);
    assert b == [] + PackU16(item.tag) + (PackU16(HEADER_LEN + |v|) + v + rest);
    assert b == PackU16(item.tag) + PackU16(HEADER_LEN + |v|) + (v + rest);
    assert b[HEADER_LEN..HEADER_LEN + |v|] == v;
  }

  lemma NextOfMndp(item: Item, rest: Octets)
    requires Encodable(Mndp, item)
    ensures Next(Mndp, Encode(Mndp, item) + rest) == Take(item, |Encode(Mndp, item)|)
  {
    hide U16, PackU16;
    var v := item.value;
    var b := Encode(Mndp, item) + rest;
    U16Packed([], item.tag, PackU16(|v|) + v + rest);
    U16Packed(PackU16(item.tag), |v|, v + rest);
    assert b == [] + PackU16(item.tag) + (PackU16(|v|) + v + rest);
    assert b == PackU16(item.tag) + PackU16(|v|) + (v + rest);
    assert b[HEADER_LEN..HEADER_LEN + |v|] == v;
  }

  lemma NextOfDhcp(item: Item, rest: Octets)
    requires Encodable(Dhcp, item)
    ensures Next(Dhcp, Encode(Dhcp, item) + rest) == Take(item, |Encode(Dhcp, item)|)
  {
    if item.tag != DHCP_PAD {
      assert (Encode(Dhcp, item) + rest)[2..2 + |item.value|] == item.value;
    }
  }

  lemma NextOfEncoded(f: Format, item: Item, rest: Octets)
    requires Encodable(f, item)
    ensures Next(f, Encode(f, item) + rest) == Take(item, |Encode(f, item)|)
  {
    hide Next, Encode, Encodable;
    match f {
      case Lldp => NextOfLldp(item, rest);
      case Cdp => NextOfCdp(item, rest);
      case Mndp => NextOfMndp(item, rest);
      case Dhcp => NextOfDhcp(item, rest);
    }
  }

  lemma NextOfCut(f: Format, item: Item, k: nat)
    requires Encodable(f, item) && k < |Encode(f, item)|
    ensures Next(f, Encode(f, item)[..k]).Stop?
  {
    hide U16;
    NextOfEncoded(f, item, []);
    assert Encode(f, item) + [] == Encode(f, item);
    var e := Encode(f, item);
    assert forall i :: 0 <= i < k ==> e[..k][i] == e[i];
    if f.Lldp? {
      if k >= 2 {
        U16Cut(e, 0, k);
      }
    } else if !f.Dhcp? && k >= HEADER_LEN {
      U16Cut(e, 2, k);
    }
  }

  lemma U16Cut(e: Octets, i: nat, k: nat)
    requires i + 2 <= k <= |e|
    ensures U16(e[..k], i) == U16(e, i)
  {
  }

  lemma NextAtEnd(f: Format, tail: Octets, k: nat)
    requires Ends(f, tail) && k <= |tail|
    ensures Next(f, tail[..k]).Stop?
  {
    assert forall i :: 0 <= i < k ==> tail[..k][i] == tail[i];
    if EndMarker(f) != [] && EndMarker(f) <= tail {
      assert tail[0] == EndMarker(f)[0];
      assert f.Lldp? ==> tail[1] == EndMarker(f)[1];
    }
  }

  /** How many of the items lie wholly in the first `k` bytes. */
  function Whole(f: Format, items: seq<Item>, k: nat): (w: nat)
    requires AllEncodable(f, items)
    ensures w <= |items|
    decreases |items|
  {
    if items == [] || k < |Encode(f, items[0])| then 0
    else 1 + Whole(f, items[1..], k - |Encode(f, items[0])|)
  }

  lemma {:induction false} WholeFitsBytes(f: Format, items: seq<Item>, k: nat, w: nat)
    requires AllEncodable(f, items) && w <= |items|
    ensures |EncodeAll(f, items[..w])| <= k <==> w <= Whole(f, items, k)
    decreases |items|
  {
    hide Encode, Encodable;
    if w > 0 {
      assert items[..w][0] == items[0] && items[..w][1..] == items[1..][..w - 1];
      if k >= |Encode(f, items[0])| {
        WholeFitsBytes(f, items[1..], k - |Encode(f, items[0])|, w - 1);
      }
    }
  }

  /**
   Scanning inverts encoding, wherever the input is cut: the items visited are those wholly before
   the cut, and nothing after an end marker counts.
   */
  lemma {:induction false} ScanOfCut(f: Format, items: seq<Item>, tail: Octets, k: nat)
    requires AllEncodable(f, items) && Ends(f, tail) && k <= |EncodeAll(f, items) + tail|
    ensures Scan(f, (EncodeAll(f, items) + tail)[..k]) == items[..Whole(f, items, k)]
    decreases |items|
  {
    hide Next, Encode, Encodable, Scan, Ends;
    var b := EncodeAll(f, items) + tail;
    if items == [] {
      assert b == tail;
      NextAtEnd(f, tail, k);
      ScanStop(f, b[..k]);
    } else {
      var e, b' := Encode(f, items[0]), EncodeAll(f, items[1..]) + tail;
      assert b == e + b';
      if k < |e| {
        assert b[..k] == e[..k];
        NextOfCut(f, items[0], k);
        ScanStop(f, b[..k]);
      } else {
        assert b[..k] == e + b'[..k - |e|];
        NextOfEncoded(f, items[0], b'[..k - |e|]);
        ScanTake(f, b[..k]);
        assert b[..k][|e|..] == b'[..k - |e|];
        ScanOfCut(f, items[1..], tail, k - |e|);
        var w := Whole(f, items[1..], k - |e|);
        assert items[..1 + w] == [items[0]] + items[1..][..w];
      }
    }
  }

  /** Encoded items are visited before whatever stands behind them, well-formed or not. */
  lemma {:induction false} ScanAfter(f: Format, items: seq<Item>, rest: Octets)
    requires AllEncodable(f, items)
    ensures Scan(f, EncodeAll(f, items) + rest) == items + Scan(f, rest)
    decreases |items|
  {
    hide Next, Encode, Encodable, Scan;
    var b := EncodeAll(f, items) + rest;
    if items == [] {
      assert b == rest;
    } else {
      var e, b' := Encode(f, items[0]), EncodeAll(f, items[1..]) + rest;
      assert b == e + b';
      NextOfEncoded(f, items[0], b');
      ScanTake(f, b);
      assert b[|e|..] == b';
      ScanAfter(f, items[1..], rest);
      assert items == [items[0]] + items[1..];
    }
  }

  lemma ScanOfEncoded(f: Format, items: seq<Item>, tail: Octets)
    requires AllEncodable(f, items) && Ends(f, tail)
    ensures Scan(f, EncodeAll(f, items) + tail) == items
  {
    hide Ends, Encodable;
    var b := EncodeAll(f, items) + tail;
    assert b[..|b|] == b && items[..|items|] == items;
    ScanOfCut(f, items, tail, |b|);
    WholeFitsBytes(f, items, |b|, |items|);
  }

  // ----- The last item that matters -----

  function LastWith(items: seq<Item>, p: Item -> bool): Option<Item> {
    if items == [] then None
    else if p(items[|items| - 1]) then Some(items[|items| - 1])
    else LastWith(items[..|items| - 1], p)
  }

  /** Item `i` has the property, and no later one does. */
  ghost predicate IsLast(items: seq<Item>, i: nat, p: Item -> bool) {
    i < |items| && p(items[i]) && forall j :: i < j < |items| ==> !p(items[j])
  }

  ghost predicate NoneHas(items: seq<Item>, p: Item -> bool) {
    forall i :: 0 <= i < |items| ==> !p(items[i])
  }

  lemma LastWithIs(items: seq<Item>, i: nat, p: Item -> bool)
    ensures IsLast(items, i, p) ==> LastWith(items, p) == Some(items[i])
    ensures NoneHas(items, p) ==> LastWith(items, p) == None
  {
    LastWithIsLast(items, p);
  }

  lemma {:induction false} LastHas(items: seq<Item>, p: Item -> bool)
    ensures LastWith(items, p) != None ==> p(LastWith(items, p).value)
    decreases |items|
  {
    if items != [] && !p(items[|items| - 1]) {
      LastHas(items[..|items| - 1], p);
    }
  }

  lemma LastWithOneMore(items: seq<Item>, item: Item, p: Item -> bool)
    ensures LastWith(items + [item], p) == if p(item) then Some(item) else LastWith(items, p)
  {
    assert (items + [item])[..|items|] == items;
  }

  lemma {:induction false} LastWithIsLast(items: seq<Item>, p: Item -> bool)
    ensures LastWith(items, p) == None <==> forall i :: 0 <= i < |items| ==> !p(items[i])
    ensures forall i :: 0 <= i < |items| && p(items[i]) && (forall j :: i < j < |items| ==> !p(items[j])) ==>
              LastWith(items, p) == Some(items[i])
    decreases |items|
  {
    if items != [] {
      var n := |items| - 1;
      LastWithIsLast(items[..n], p);
      assert items == items[..n] + [items[n]];
      forall i | 0 <= i < |items| && p(items[i]) && (forall j :: i < j < |items| ==> !p(items[j]))
        ensures LastWith(items, p) == Some(items[i])
      {
        if i < n {
          assert items[..n][i] == items[i];
        }
      }
      if LastWith(items, p) == None {
        assert forall i :: 0 <= i < n ==> items[i] == items[..n][i];
      }
    }
  }
}
