/** The capture loop of backend/capture/dispatcher.py: the framing of tcpdump's pcap output. */
module Dispatcher {
  import opened ByteStream
  import opened Bytes
  import opened Wrappers

  const GLOBAL_HEADER_LEN := 24
  const RECORD_HEADER_LEN := 16

  /** The packets of the records in a stream, behind its global header. */
  function Records(stream: Octets): seq<Octets>
    decreases |stream|
  {
    if |stream| < RECORD_HEADER_LEN then []
    else
      var size := LittleU32(stream, 8);
      var end := RECORD_HEADER_LEN + size;
      if |stream| < end then [] else [stream[RECORD_HEADER_LEN..end]] + Records(stream[end..])
  }

  function Delivered(stream: Octets): seq<Octets> {
    if |stream| < GLOBAL_HEADER_LEN then [] else Records(stream[GLOBAL_HEADER_LEN..])
  }

  class Capture {
    var running: bool
    /** What the handlers have been given. */
    var dispatched: seq<Octets>

    constructor ()
      ensures !running && dispatched == []
    {
      running, dispatched := false, [];
    }

    method Dispatch(packet: Octets)
      modifies this`dispatched
      ensures dispatched == old(dispatched) + [packet]
    {
      dispatched := dispatched + [packet];
    }

    /** One life of a tcpdump process in `_capture_loop`, from its first byte to the end of its output. */
    method CaptureOnce(stdout: Source)
      modifies this, stdout
      ensures dispatched == old(dispatched) + Delivered(old(stdout.rest))
      ensures !running
    {
      hide Records;
      ghost var before, bytes := dispatched, stdout.rest;
      var header := ReadExact(stdout, GLOBAL_HEADER_LEN);
      if header == None {
        assert before + [] == before;
        running := false;
        return;
      }
      running := true;
      while true
        invariant running && before + Records(bytes[GLOBAL_HEADER_LEN..]) == dispatched + Records(stdout.rest)
        decreases |stdout.rest|
      {
        ghost var rest := stdout.rest;
        var recordHeader := ReadExact(stdout, RECORD_HEADER_LEN);
        if recordHeader == None {
          NoRecord(rest);
          break;
        }
        var inclLen := LittleU32(recordHeader.value, 8);
        var packet := ReadExact(stdout, inclLen);
        if packet == None {
          NoRecord(rest);
          break;
        }
        OneRecord(rest);
        Dispatch(packet.value);
      }
      running := false;
    }
  }

  lemma NoRecord(rest: Octets)
    requires |rest| < RECORD_HEADER_LEN || |rest| < RECORD_HEADER_LEN + LittleU32(rest, 8)
    ensures Records(rest) == []
  {
  }

  lemma OneRecord(rest: Octets)
    requires |rest| >= RECORD_HEADER_LEN && |rest| >= RECORD_HEADER_LEN + LittleU32(rest, 8)
    ensures var n := LittleU32(rest, 8);
            n == LittleU32(rest[..RECORD_HEADER_LEN], 8) &&
            Records(rest) == [rest[RECORD_HEADER_LEN..][..n]] + Records(rest[RECORD_HEADER_LEN..][n..])
  {
    var n := LittleU32(rest, 8);
    assert rest[RECORD_HEADER_LEN..][..n] == rest[RECORD_HEADER_LEN..RECORD_HEADER_LEN + n];
    assert rest[RECORD_HEADER_LEN..][n..] == rest[RECORD_HEADER_LEN + n..];
  }

  // ----- Against the format -----

  /** A record: two time fields, the captured and the original length, and the captured bytes. */
  datatype Record = Record(stamp: Octets, original: Octets, packet: Octets)

  ghost predicate Encodable(r: Record) {
    |r.stamp| == 8 && |r.original| == 4 && |r.packet| < 0x1_0000_0000
  }

  function Encode(r: Record): (b: Octets)
    requires Encodable(r)
    ensures |b| == RECORD_HEADER_LEN + |r.packet|
  {
    r.stamp + PackLittleU32(|r.packet|) + r.original + r.packet
  }

  ghost predicate AllEncodable(records: seq<Record>) {
    forall i :: 0 <= i < |records| ==> Encodable(records[i])
  }

  function EncodeAll(records: seq<Record>): Octets
    requires AllEncodable(records)
  {
    if records == [] then [] else Encode(records[0]) + EncodeAll(records[1..])
  }

  function Packets(records: seq<Record>): seq<Octets> {
    seq(|records|, i requires 0 <= i < |records| => records[i].packet)
  }

  /** How many of the records lie wholly in the first `k` bytes. */
  function Whole(records: seq<Record>, k: nat): (w: nat)
    ensures w <= |records|
    decreases |records|
  {
    if records == [] || k < RECORD_HEADER_LEN + |records[0].packet| then 0
    else 1 + Whole(records[1..], k - RECORD_HEADER_LEN - |records[0].packet|)
  }

  lemma RecordFields(r: Record, rest: Octets)
    requires Encodable(r)
    ensures LittleU32(Encode(r) + rest, 8) == |r.packet|
    ensures (Encode(r) + rest)[RECORD_HEADER_LEN..RECORD_HEADER_LEN + |r.packet|] == r.packet
  {
    var n := PackLittleU32(|r.packet|);
    hide PackLittleU32;
    var b := Encode(r) + rest;
    assert b[8] == n[0] && b[9] == n[1] && b[10] == n[2] && b[11] == n[3];
  }

  /** Records cut anywhere, as when tcpdump dies: exactly those wholly before the cut, in order. */
  lemma {:induction false} RecordsOfCut(records: seq<Record>, k: nat)
    requires AllEncodable(records) && k <= |EncodeAll(records)|
    ensures Records(EncodeAll(records)[..k]) == Packets(records[..Whole(records, k)])
    decreases |records|
  {
    hide Records, Encode, Encodable, LittleU32;
    var all := EncodeAll(records);
    if records == [] {
      NoRecord(all[..k]);
    } else {
      var r, rest := records[0], EncodeAll(records[1..]);
      var e := RECORD_HEADER_LEN + |r.packet|;
      assert all == Encode(r) + rest;
      if k < RECORD_HEADER_LEN {
        NoRecord(all[..k]);
      } else {
        RecordFields(r, rest);
        CutField(all, k);
        if k < e {
          NoRecord(all[..k]);
        } else {
          var kept := rest[..k - e];
          assert all[..k] == Encode(r) + kept;
          RecordFields(r, kept);
          OneRecord(all[..k]);
          assert all[..k][RECORD_HEADER_LEN..][..|r.packet|] == all[..k][RECORD_HEADER_LEN..e];
          assert all[..k][RECORD_HEADER_LEN..][|r.packet|..] == kept;
          RecordsOfCut(records[1..], k - e);
          var w := Whole(records[1..], k - e);
          assert Packets(records[..1 + w]) == [r.packet] + Packets(records[1..][..w]);
        }
      }
    }
  }

  lemma CutField(b: Octets, k: nat)
    requires RECORD_HEADER_LEN <= k <= |b|
    ensures LittleU32(b[..k], 8) == LittleU32(b, 8)
  {
  }

  /** What a capture delivers of a stream cut anywhere behind its global header. */
  lemma DeliversWholeRecords(header: Octets, records: seq<Record>, k: nat)
    requires |header| == 24 && AllEncodable(records) && k <= |header + EncodeAll(records)|
    ensures Delivered((header + EncodeAll(records))[..k]) ==
            if k < 24 then [] else Packets(records[..Whole(records, k - 24)])
  {
    hide Records;
    if k >= GLOBAL_HEADER_LEN {
      assert (header + EncodeAll(records))[..k][GLOBAL_HEADER_LEN..] == EncodeAll(records)[..k - GLOBAL_HEADER_LEN];
      RecordsOfCut(records, k - GLOBAL_HEADER_LEN);
    }
  }

  /** However the same bytes are cut into chunks, the same packets are dispatched. */
  method SameHoweverChunked(bytes: Octets, one: nat -> nat, other: nat -> nat) returns (a: seq<Octets>, b: seq<Octets>)
    ensures a == b == Delivered(bytes)
  {
    var c := new Capture();
    var s := new Source(bytes, one);
    c.CaptureOnce(s);
    var c' := new Capture();
    var s' := new Source(bytes, other);
    c'.CaptureOnce(s');
    a, b := c.dispatched, c'.dispatched;
  }
}
