/**
 Reading from a pipe or a socket: each call of `Read` may return fewer bytes than asked for, but at
 least one until the stream has ended.
 */
module ByteStream {
  import opened Bytes
  import opened Wrappers

  class Source {
    /** The bytes not read yet, up to the end of the stream. */
    var rest: Octets
    /** How many bytes each read has ready, at least one: how the stream happens to be cut into chunks. */
    const ready: nat -> nat
    var calls: nat

    constructor (bytes: Octets, ready: nat -> nat)
      ensures rest == bytes
    {
      rest, this.ready, calls := bytes, ready, 0;
    }

    /** `stream.read(count)` and `sock.recv(count)`. */
    method Read(count: nat) returns (chunk: Octets)
      modifies this
      ensures |chunk| <= count && old(rest) == chunk + rest
      ensures count > 0 && old(rest) != [] ==> chunk != []
    {
      var n := ready(calls) + 1;
      n := if n > count then count else n;
      n := if n > |rest| then |rest| else n;
      chunk := rest[..n];
      assert rest == chunk + rest[n..];
      rest := rest[n..];
      calls := calls + 1;
    }
  }

  /** What `ReadExact` returns on a stream of these bytes. */
  function Exactly(stream: Octets, count: nat): Option<Octets> {
    if |stream| < count then None else Some(stream[..count])
  }

  /** What it leaves. */
  function After(stream: Octets, count: nat): Octets {
    if |stream| < count then [] else stream[count..]
  }

  /**
   `_read_exact` of the dispatcher and `_recv_exact` of the clients: the next `count` bytes, however
   they arrive; None when the stream ends before, everything being consumed then.
   */
  method ReadExact(source: Source, count: nat) returns (r: Option<Octets>)
    modifies source
    ensures r == Exactly(old(source.rest), count)
    ensures source.rest == After(old(source.rest), count)
  {
    var data: Octets := [];
    while |data| < count
      invariant |data| <= count && old(source.rest) == data + source.rest
      decreases count - |data|
    {
      var chunk := source.Read(count - |data|);
      if chunk == [] {
        return None;
      }
      data := data + chunk;
    }
    r := Some(data);
  }
}
