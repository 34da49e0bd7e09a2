/**
 The Modbus register-range scanner (backend/tools/modbus_register_scan.py).

 A scan worker reads a range block by block, bisects blocks that a Modbus exception
 rejects, and merges neighbouring segments.  Its lock sections interleave with API
 calls and with other workers: between any two of them the other threads may run any
 events (`Env.others`), and the device may answer each read as it likes (`Env.reply`).
 */
module RegisterScan {
  import ModbusClient
  import opened Sorting
  import opened Wrappers

  // ----- Data -----

  /** The part of `modbus.read`'s result that the scanner looks at. */
  datatype Reply = Reply(ok: bool, message: string)

  const EXCEPTION_PREFIX := "Modbus exception"

  predicate IsException(r: Reply) {
    !r.ok && EXCEPTION_PREFIX <= r.message
  }

  /** What the scanner keeps of a call of the client. */
  function ReplyOf(e: ModbusClient.Ending): Reply {
    var message := ModbusClient.Message(e);
    Reply(message == None, if message == None then "" else message.value)
  }

  /** A block is bisected only when the device has answered with a Modbus exception. */
  lemma ExceptionIff(e: ModbusClient.Ending)
    requires !e.OsError?
    ensures ReplyOf(e).ok <==> e.Answer? && e.outcome.Read?
    ensures IsException(ReplyOf(e)) <==> e.Answer? && e.outcome.Exception?
  {
    ModbusClient.MessagesTell(e);
    hide ModbusClient.Message;
  }

  /** The pair (readable, message): (True, None), (False, message) or (None, "stopped"). */
  datatype Outcome = Readable | Unreadable(message: string) | Stopped

  datatype Segment = Segment(start: int, end: int, outcome: Outcome)

  /** `at` is the number of scheduling points before it. */
  datatype Read = Read(start: int, quantity: int, reply: Reply, at: nat)

  /** The fields of `_state` that change during a scan. */
  datatype Shared = Shared(running: bool, scanId: nat, segments: seq<Segment>, progress: int, total: int)

  /** What one lock section of another thread does. */
  datatype Event =
    | Start(total: nat)
    | Stop
    | Bump(id: nat, count: int)
    | Finish(id: nat, segments: seq<Segment>)

  datatype Env = Env(reply: (nat, int, int) -> Reply, others: nat -> seq<Event>)

  /** The shared state, the number of scheduling points passed and the reads issued so far. */
  datatype World = World(shared: Shared, clock: nat, issued: seq<Read>)

  // ----- Lock sections -----

  function Apply(s: Shared, e: Event): Shared {
    match e
    case Start(total) => Shared(true, s.scanId + 1, [], 0, total)
    case Stop => if s.running then s.(scanId := s.scanId + 1, running := false) else s
    case Bump(id, count) => if s.scanId == id then s.(progress := s.progress + count) else s
    case Finish(id, segments) => if s.scanId == id then s.(segments := segments, running := false) else s
  }

  function ApplyAll(s: Shared, es: seq<Event>): Shared
    decreases |es|
  {
    if es == [] then s else ApplyAll(Apply(s, es[0]), es[1..])
  }

  /** No event is a lock section of worker `me`. */
  ghost predicate Foreign(me: nat, es: seq<Event>) {
    forall i :: 0 <= i < |es| ==> (es[i].Bump? || es[i].Finish?) ==> es[i].id != me
  }

  ghost predicate ForeignEnv(me: nat, env: Env) {
    forall t: nat :: Foreign(me, env.others(t))
  }

  /** The other threads run until this one gets the lock. */
  function Yield(env: Env, w: World): World {
    w.(shared := ApplyAll(w.shared, env.others(w.clock)), clock := w.clock + 1)
  }

  function BumpProgress(env: Env, me: nat, count: int, w: World): World {
    var w1 := Yield(env, w);
    w1.(shared := Apply(w1.shared, Bump(me, count)))
  }

  // ----- The scan as a function of its environment -----

  function Probe(env: Env, me: nat, max: int, start: int, end: int, w: World): (World, seq<Segment>)
    requires 1 <= max && start <= end
    decreases if end - start + 1 > max then 1 else 0, end - start, 1
  {
    var w1 := Yield(env, w);
    if w1.shared.scanId != me then (w1, [Segment(start, end, Stopped)])
    else if end - start + 1 > max then Chunks(env, me, max, start, end, w1)
    else
      var quantity := end - start + 1;
      var reply := env.reply(w1.clock, start, quantity);
      var w2 := w1.(issued := w1.issued + [Read(start, quantity, reply, w1.clock)]);
      if reply.ok then (BumpProgress(env, me, quantity, w2), [Segment(start, end, Readable)])
      else if quantity == 1 || !IsException(reply) then
        (BumpProgress(env, me, quantity, w2), [Segment(start, end, Unreadable(reply.message))])
      else
        var mid := start + quantity / 2;
        var left := Probe(env, me, max, start, mid - 1, w2);
        var right := Probe(env, me, max, mid, end, left.0);
        (right.0, left.1 + right.1)
  }

  function ChunkEnd(max: int, pos: int, end: int): (e: int) {
    if pos + max - 1 <= end then pos + max - 1 else end
  }

  function Chunks(env: Env, me: nat, max: int, pos: int, end: int, w: World): (World, seq<Segment>)
    requires 1 <= max
    decreases 1, end - pos, 0
  {
    if pos > end then (w, [])
    else
      var first := Probe(env, me, max, pos, ChunkEnd(max, pos, end), w);
      var rest := Chunks(env, me, max, ChunkEnd(max, pos, end) + 1, end, first.0);
      (rest.0, first.1 + rest.1)
  }

  function Absorb(merged: seq<Segment>, seg: Segment): seq<Segment> {
    if merged != [] && seg.start == merged[|merged| - 1].end + 1 && seg.outcome == merged[|merged| - 1].outcome
    then merged[|merged| - 1 := merged[|merged| - 1].(end := seg.end)]
    else merged + [seg]
  }

  function Absorbed(segs: seq<Segment>): seq<Segment> {
    if segs == [] then [] else Absorb(Absorbed(segs[..|segs| - 1]), segs[|segs| - 1])
  }

  function Merged(segs: seq<Segment>): seq<Segment> {
    Absorbed(SortBy((seg: Segment) => seg.start, segs))
  }

  function RunScan(env: Env, me: nat, max: int, start: int, end: int, w: World): World
    requires 1 <= max && start <= end
  {
    var p := Probe(env, me, max, start, end, w);
    var w1 := Yield(env, p.0);
    w1.(shared := Apply(w1.shared, Finish(me, Merged(p.1))))
  }

  // ----- One unfolding of `Probe` -----

  function Mid(start: int, end: int): int {
    start + (end - start + 1) / 2
  }

  function BlockRead(env: Env, start: int, end: int, w: World): Read {
    var at := Yield(env, w).clock;
    Read(start, end - start + 1, env.reply(at, start, end - start + 1), at)
  }

  function AfterBlockRead(env: Env, start: int, end: int, w: World): World {
    Yield(env, w).(issued := w.issued + [BlockRead(env, start, end, w)])
  }

  /** The worker is current, reads the block, and an exception makes it bisect. */
  predicate Splits(env: Env, me: nat, start: int, end: int, w: World) {
    Yield(env, w).shared.scanId == me && start < end && IsException(BlockRead(env, start, end, w).reply)
  }

  lemma ProbeSplits(env: Env, me: nat, max: int, start: int, end: int, w: World)
    requires end - start + 1 <= max && Splits(env, me, start, end, w)
    ensures start < Mid(start, end) <= end
    ensures var left := Probe(env, me, max, start, Mid(start, end) - 1, AfterBlockRead(env, start, end, w));
            var right := Probe(env, me, max, Mid(start, end), end, left.0);
            Probe(env, me, max, start, end, w) == (right.0, left.1 + right.1)
  {
  }

  lemma ProbeDoesNotSplit(env: Env, me: nat, max: int, start: int, end: int, w: World)
    requires start <= end && end - start + 1 <= max && !Splits(env, me, start, end, w)
    ensures var p := Probe(env, me, max, start, end, w);
            var reply := BlockRead(env, start, end, w).reply;
            if Yield(env, w).shared.scanId != me then p == (Yield(env, w), [Segment(start, end, Stopped)])
            else p == (BumpProgress(env, me, end - start + 1, AfterBlockRead(env, start, end, w)),
                       [Segment(start, end, if reply.ok then Readable else Unreadable(reply.message))])
  {
  }

  /** A worker that finds itself superseded reads nothing and returns. */
  lemma ProbeStale(env: Env, me: nat, max: int, start: int, end: int, w: World)
    requires 1 <= max && start <= end && Yield(env, w).shared.scanId != me
    ensures Probe(env, me, max, start, end, w) == (Yield(env, w), [Segment(start, end, Stopped)])
  {
  }

  lemma ProbeChunks(env: Env, me: nat, max: int, start: int, end: int, w: World)
    requires 1 <= max && Yield(env, w).shared.scanId == me && end - start + 1 > max
    ensures Probe(env, me, max, start, end, w) == Chunks(env, me, max, start, end, Yield(env, w))
  {
  }

  // ----- What the segments say -----

  /** `segs` are in order and cover [lo, hi] exactly, without gap or overlap. */
  ghost predicate Tiles(segs: seq<Segment>, lo: int, hi: int) {
    if segs == [] then lo == hi + 1
    else segs[0].start == lo <= segs[0].end <= hi && Tiles(segs[1..], segs[0].end + 1, hi)
  }

  /** Every address of every segment has that segment's outcome under `f`. */
  ghost predicate Describes(segs: seq<Segment>, f: int -> Outcome) {
    forall i, a :: 0 <= i < |segs| && segs[i].start <= a <= segs[i].end ==> f(a) == segs[i].outcome
  }

  ghost predicate NeighboursDiffer(segs: seq<Segment>) {
    forall i :: 0 <= i < |segs| - 1 ==> segs[i].outcome != segs[i + 1].outcome
  }

  /** The maximal runs of equal outcomes of `f` over [lo, hi]. */
  ghost predicate MaximalRuns(segs: seq<Segment>, f: int -> Outcome, lo: int, hi: int) {
    Tiles(segs, lo, hi) && Describes(segs, f) && NeighboursDiffer(segs)
  }

  lemma {:induction false} TilesConcat(a: seq<Segment>, b: seq<Segment>, lo: int, mid: int, hi: int)
    requires Tiles(a, lo, mid) && Tiles(b, mid + 1, hi) && mid <= hi
    ensures Tiles(a + b, lo, hi)
  {
    if a == [] {
      assert a + b == b;
    } else {
      TilesConcat(a[1..], b, a[0].end + 1, mid, hi);
      assert (a + b)[1..] == a[1..] + b;
    }
  }

  /** The last segment ends the range, and the others tile what precedes it. */
  lemma {:induction false} TilesLast(segs: seq<Segment>, lo: int, hi: int)
    requires Tiles(segs, lo, hi) && segs != []
    ensures var last := segs[|segs| - 1];
            last.end == hi && lo <= last.start <= hi && Tiles(segs[..|segs| - 1], lo, last.start - 1)
  {
    if |segs| > 1 {
      TilesLast(segs[1..], segs[0].end + 1, hi);
      assert segs[1..][..|segs| - 2] == segs[..|segs| - 1][1..];
    }
  }

  lemma {:induction false} TilesBounds(segs: seq<Segment>, lo: int, hi: int, i: nat)
    requires Tiles(segs, lo, hi) && i < |segs|
    ensures lo <= segs[i].start <= segs[i].end <= hi
    ensures i > 0 ==> lo < segs[i].start
  {
    if i > 0 {
      TilesBounds(segs[1..], segs[0].end + 1, hi, i - 1);
    }
  }

  // ----- Other threads -----

  /** Ids only grow, and while `me` stays current the other threads change nothing. */
  lemma {:induction false} OthersKeepCurrent(me: nat, s: Shared, es: seq<Event>)
    requires Foreign(me, es)
    ensures s.scanId <= ApplyAll(s, es).scanId
    ensures s.scanId == me == ApplyAll(s, es).scanId ==> ApplyAll(s, es) == s
    decreases |es|
  {
    if es != [] {
      OthersKeepCurrent(me, Apply(s, es[0]), es[1..]);
    }
  }

  lemma {:induction false} IdsGrow(s: Shared, es: seq<Event>)
    ensures s.scanId <= ApplyAll(s, es).scanId
    decreases |es|
  {
    if es != [] {
      IdsGrow(Apply(s, es[0]), es[1..]);
    }
  }

  /** No id is handed out twice: a later start's id is above every id seen before it. */
  lemma StartIdIsFresh(s: Shared, es: seq<Event>, total: nat)
    ensures Apply(ApplyAll(s, es), Start(total)).scanId > s.scanId
  {
    IdsGrow(s, es);
  }

  /** Once its id is not current, a worker can never again change the shared state. */
  lemma StaleForever(s: Shared, es: seq<Event>, id: nat, count: int, segments: seq<Segment>)
    requires id < s.scanId
    ensures var s' := ApplyAll(s, es);
            Apply(s', Bump(id, count)) == s' && Apply(s', Finish(id, segments)) == s'
  {
    IdsGrow(s, es);
  }

  lemma OthersLeave(env: Env, me: nat, w: World)
    requires ForeignEnv(me, env)
    ensures w.shared.scanId <= Yield(env, w).shared.scanId
    ensures w.shared.scanId == me == Yield(env, w).shared.scanId ==> Yield(env, w).shared == w.shared
  {
    OthersKeepCurrent(me, w.shared, env.others(w.clock));
  }

  // ----- What one probe of [lo, hi] does -----

  /** A read inside [lo, hi] that `modbus.read`'s checks accept, and that the device answered. */
  ghost predicate ProperRead(env: Env, max: int, lo: int, hi: int, r: Read) {
    && 1 <= r.quantity <= max && lo <= r.start && r.start + r.quantity - 1 <= hi
    && r.reply == env.reply(r.at, r.start, r.quantity)
  }

  /** The segment reports a read of exactly its own addresses, and why it was not split. */
  ghost predicate Evidenced(seg: Segment, issued: seq<Read>) {
    match seg.outcome
    case Readable =>
      exists r :: r in issued && r.reply.ok && r.start == seg.start && r.quantity == seg.end - seg.start + 1
    case Unreadable(message) =>
      exists r :: r in issued && r.reply == Reply(false, message) && r.start == seg.start
                  && r.quantity == seg.end - seg.start + 1 && (r.quantity == 1 || !IsException(r.reply))
    case Stopped => true
  }

  /** The account of a probe that took `w` to `w'` and returned `segs`. */
  ghost predicate Account(env: Env, me: nat, max: int, lo: int, hi: int, w: World, w': World, segs: seq<Segment>) {
    && Tiles(segs, lo, hi)
    && w.issued <= w'.issued
    && (forall r :: r in w'.issued[|w.issued|..] ==> ProperRead(env, max, lo, hi, r))
    && (forall seg :: seg in segs ==> Evidenced(seg, w'.issued[|w.issued|..]))
    && w.shared.scanId <= w'.shared.scanId
    && (w'.shared.scanId == me ==>
          && w'.shared == w.shared.(progress := w.shared.progress + hi - lo + 1)
          && forall seg :: seg in segs ==> seg.outcome != Stopped)
  }

  lemma EvidencedMonotone(seg: Segment, a: seq<Read>, b: seq<Read>)
    requires Evidenced(seg, a) && forall r :: r in a ==> r in b
    ensures Evidenced(seg, b)
  {
  }

  lemma AccountJoin(env: Env, me: nat, max: int, lo: int, mid: int, hi: int,
                    w0: World, w1: World, w2: World, left: seq<Segment>, right: seq<Segment>)
    requires lo <= mid + 1 && mid <= hi
    requires me <= w0.shared.scanId
    requires Account(env, me, max, lo, mid, w0, w1, left) && Account(env, me, max, mid + 1, hi, w1, w2, right)
    ensures Account(env, me, max, lo, hi, w0, w2, left + right)
  {
    TilesConcat(left, right, lo, mid, hi);
    var n0, n1 := |w0.issued|, |w1.issued|;
    assert w2.issued[n0..] == w1.issued[n0..] + w2.issued[n1..];
    forall seg | seg in left + right
      ensures Evidenced(seg, w2.issued[n0..])
    {
      if seg in left {
        EvidencedMonotone(seg, w1.issued[n0..], w2.issued[n0..]);
      } else {
        EvidencedMonotone(seg, w2.issued[n1..], w2.issued[n0..]);
      }
    }
  }

  /** One scheduling point, possibly with one read, before the rest of the work. */
  lemma AccountAfterYield(env: Env, me: nat, max: int, lo: int, hi: int,
                          w: World, w1: World, w': World, segs: seq<Segment>)
    requires ForeignEnv(me, env) && me <= w.shared.scanId
    requires w1.shared == Yield(env, w).shared && w.issued <= w1.issued
    requires forall r :: r in w1.issued[|w.issued|..] ==> ProperRead(env, max, lo, hi, r)
    requires Account(env, me, max, lo, hi, w1, w', segs)
    ensures Account(env, me, max, lo, hi, w, w', segs)
  {
    OthersKeepCurrent(me, w.shared, env.others(w.clock));
    assert w'.issued[|w.issued|..] == w1.issued[|w.issued|..] + w'.issued[|w1.issued|..];
    forall seg | seg in segs
      ensures Evidenced(seg, w'.issued[|w.issued|..])
    {
      EvidencedMonotone(seg, w'.issued[|w1.issued|..], w'.issued[|w.issued|..]);
    }
  }

  /** A block that its own read settles: one segment, and the progress it accounts for. */
  lemma AccountLeaf(env: Env, me: nat, max: int, lo: int, hi: int, w: World, r: Read, outcome: Outcome)
    requires ForeignEnv(me, env) && me <= w.shared.scanId
    requires lo <= hi && r.start == lo && r.quantity == hi - lo + 1 <= max
    requires r.reply == env.reply(r.at, r.start, r.quantity)
    requires r.reply.ok ==> outcome == Readable
    requires !r.reply.ok ==> outcome == Unreadable(r.reply.message) && (lo == hi || !IsException(r.reply))
    ensures Account(env, me, max, lo, hi, w, BumpProgress(env, me, hi - lo + 1, w.(issued := w.issued + [r])),
                    [Segment(lo, hi, outcome)])
  {
    OthersKeepCurrent(me, w.shared, env.others(w.clock));
    var segs := [Segment(lo, hi, outcome)];
    var w' := BumpProgress(env, me, hi - lo + 1, w.(issued := w.issued + [r]));
    assert w'.issued[|w.issued|..] == [r];
    assert segs[1..] == [] && r in [r];
    assert Evidenced(segs[0], [r]);
    assert w'.shared.scanId == me ==> w'.shared == w.shared.(progress := w.shared.progress + hi - lo + 1);
    assert Tiles(segs, lo, hi);
  }

  lemma AccountStopped(env: Env, me: nat, max: int, lo: int, hi: int, w: World)
    requires ForeignEnv(me, env) && me <= w.shared.scanId && lo <= hi && Yield(env, w).shared.scanId != me
    ensures Account(env, me, max, lo, hi, w, Yield(env, w), [Segment(lo, hi, Stopped)])
  {
    OthersKeepCurrent(me, w.shared, env.others(w.clock));
    var segs := [Segment(lo, hi, Stopped)];
    assert segs[1..] == [] && Tiles(segs, lo, hi);
    assert forall seg :: seg in segs ==> Evidenced(seg, []);
  }

  /** A failed block read before the two halves. */
  lemma AccountBisect(env: Env, me: nat, max: int, lo: int, mid: int, hi: int, w: World, r: Read,
                      w2: World, w3: World, w4: World, left: seq<Segment>, right: seq<Segment>)
    requires ForeignEnv(me, env) && me <= w.shared.scanId && lo < mid <= hi
    requires r == BlockRead(env, lo, hi, w) && hi - lo + 1 <= max
    requires w2 == Yield(env, w).(issued := w.issued + [r])
    requires Account(env, me, max, lo, mid - 1, w2, w3, left) && Account(env, me, max, mid, hi, w3, w4, right)
    ensures Account(env, me, max, lo, hi, w, w4, left + right)
  {
    OthersKeepCurrent(me, w.shared, env.others(w.clock));
    AccountJoin(env, me, max, lo, mid - 1, hi, w2, w3, w4, left, right);
    assert w2.issued[|w.issued|..] == [r];
    AccountAfterYield(env, me, max, lo, hi, w, w2, w4, left + right);
  }

  /** A probe that neither bisects nor splits into chunks. */
  lemma AccountUnsplit(env: Env, me: nat, max: int, start: int, end: int, w: World)
    requires 1 <= max && start <= end && ForeignEnv(me, env) && me <= w.shared.scanId
    requires Yield(env, w).shared.scanId != me || (end - start + 1 <= max && !Splits(env, me, start, end, w))
    ensures var p := Probe(env, me, max, start, end, w); Account(env, me, max, start, end, w, p.0, p.1)
  {
    hide Account;
    var w1 := Yield(env, w);
    var p := Probe(env, me, max, start, end, w);
    if w1.shared.scanId != me {
      AccountStopped(env, me, max, start, end, w);
    } else {
      var r := BlockRead(env, start, end, w);
      OthersKeepCurrent(me, w.shared, env.others(w.clock));
      AccountLeaf(env, me, max, start, end, w1, r, if r.reply.ok then Readable else Unreadable(r.reply.message));
      assert w1.issued[|w.issued|..] == [];
      AccountAfterYield(env, me, max, start, end, w, w1, p.0, p.1);
    }
  }

  /**
   Any scan of any device under any interleaving: the segments tile the range whether or not
   the scan was stopped, each one is backed by a read of exactly its addresses, every read is
   one that `modbus.read` accepts, and a worker that is still current has counted every address.
   */
  lemma {:induction false} ProbeAccount(env: Env, me: nat, max: int, start: int, end: int, w: World)
    requires 1 <= max && start <= end && ForeignEnv(me, env) && me <= w.shared.scanId
    ensures var p := Probe(env, me, max, start, end, w); Account(env, me, max, start, end, w, p.0, p.1)
    decreases if end - start + 1 > max then 1 else 0, end - start, 1
  {
    hide Account, Probe, ForeignEnv;
    OthersLeave(env, me, w);
    var w1 := Yield(env, w);
    var p := Probe(env, me, max, start, end, w);
    if w1.shared.scanId == me && end - start + 1 > max {
      ProbeChunks(env, me, max, start, end, w);
      ChunksAccount(env, me, max, start, end, w1);
      assert w1.issued[|w.issued|..] == [];
      AccountAfterYield(env, me, max, start, end, w, w1, p.0, p.1);
    } else if Splits(env, me, start, end, w) {
      var mid := Mid(start, end);
      var w2 := AfterBlockRead(env, start, end, w);
      var left := Probe(env, me, max, start, mid - 1, w2);
      var right := Probe(env, me, max, mid, end, left.0);
      ProbeSplits(env, me, max, start, end, w);
      ProbeAccount(env, me, max, start, mid - 1, w2);
      AccountIds(env, me, max, start, mid - 1, w2, left.0, left.1);
      ProbeAccount(env, me, max, mid, end, left.0);
      AccountBisect(env, me, max, start, mid, end, w, BlockRead(env, start, end, w),
                    w2, left.0, right.0, left.1, right.1);
    } else {
      AccountUnsplit(env, me, max, start, end, w);
    }
  }

  lemma AccountIds(env: Env, me: nat, max: int, lo: int, hi: int, w: World, w': World, segs: seq<Segment>)
    requires Account(env, me, max, lo, hi, w, w', segs)
    ensures w.shared.scanId <= w'.shared.scanId
  {
  }

  lemma {:induction false} ChunksAccount(env: Env, me: nat, max: int, pos: int, end: int, w: World)
    requires 1 <= max && pos <= end + 1 && ForeignEnv(me, env) && me <= w.shared.scanId
    ensures var p := Chunks(env, me, max, pos, end, w); Account(env, me, max, pos, end, w, p.0, p.1)
    decreases 1, end - pos, 0
  {
    if pos <= end {
      var e := ChunkEnd(max, pos, end);
      var first := Probe(env, me, max, pos, e, w);
      var rest := Chunks(env, me, max, e + 1, end, first.0);
      ProbeAccount(env, me, max, pos, e, w);
      ChunksAccount(env, me, max, e + 1, end, first.0);
      AccountJoin(env, me, max, pos, e, end, w, first.0, rest.0, first.1, rest.1);
    }
  }

  // ----- How many reads -----

  function ChunkCount(max: int, n: int): (c: nat)
    requires 1 <= max
    decreases n
  {
    if n <= 0 then 0 else 1 + ChunkCount(max, n - max)
  }

  /** `ChunkCount` is the quotient rounded up. */
  lemma {:induction false} ChunkCountIsCeil(max: int, n: nat)
    requires 1 <= max
    ensures n <= max * ChunkCount(max, n) < n + max
    decreases n
  {
    if n > max {
      ChunkCountIsCeil(max, n - max);
    } else if n > 0 {
      assert ChunkCount(max, n - max) == 0;
    }
  }

  function CeilLog2(n: int): (l: nat)
    decreases n
  {
    if n <= 1 then 0 else 1 + CeilLog2((n + 1) / 2)
  }

  function Pow2(n: nat): int {
    if n == 0 then 1 else 2 * Pow2(n - 1)
  }

  /** `CeilLog2(n)` is the least exponent whose power of two reaches `n`. */
  lemma {:induction false} CeilLog2IsLeast(n: int)
    requires 1 <= n
    ensures n <= Pow2(CeilLog2(n))
    ensures n > 1 ==> Pow2(CeilLog2(n) - 1) < n
    decreases n
  {
    if n > 1 {
      CeilLog2IsLeast((n + 1) / 2);
    }
  }

  lemma {:induction false} CeilLog2Monotone(a: int, b: int)
    requires a <= b
    ensures CeilLog2(a) <= CeilLog2(b)
    decreases b
  {
    if a > 1 {
      CeilLog2Monotone((a + 1) / 2, (b + 1) / 2);
    }
  }

  lemma CeilLog2Halves(n: int)
    requires 2 <= n
    ensures CeilLog2(n / 2) < CeilLog2(n) && CeilLog2(n - n / 2) < CeilLog2(n)
  {
    CeilLog2Monotone(n / 2, (n + 1) / 2);
  }

  /** The number of addresses of [lo, hi] that are not readable. */
  ghost function UnreadableCount(f: int -> Outcome, lo: int, hi: int): (u: nat)
    decreases hi - lo
  {
    if lo > hi then 0 else (if f(lo) == Readable then 0 else 1) + UnreadableCount(f, lo + 1, hi)
  }

  lemma {:induction false} UnreadableSplit(f: int -> Outcome, lo: int, mid: int, hi: int)
    requires lo <= mid <= hi + 1
    ensures UnreadableCount(f, lo, hi) == UnreadableCount(f, lo, mid - 1) + UnreadableCount(f, mid, hi)
    decreases mid - lo
  {
    if lo < mid {
      UnreadableSplit(f, lo + 1, mid, hi);
    }
  }

  ghost predicate AllReadable(f: int -> Outcome, lo: int, hi: int) {
    forall a :: lo <= a <= hi ==> f(a) == Readable
  }

  lemma {:induction false} UnreadableZero(f: int -> Outcome, lo: int, hi: int)
    ensures UnreadableCount(f, lo, hi) == 0 <==> AllReadable(f, lo, hi)
    decreases hi - lo
  {
    if lo <= hi {
      UnreadableZero(f, lo + 1, hi);
      if f(lo) == Readable && AllReadable(f, lo + 1, hi) {
        assert AllReadable(f, lo, hi);
      }
      if AllReadable(f, lo, hi) {
        assert f(lo) == Readable && AllReadable(f, lo + 1, hi);
      }
    }
  }

  /** A device with a fixed map: a block reads iff all of it is readable, and fails with an exception. */
  ghost predicate Device(env: Env, f: int -> Outcome) {
    && (forall a :: f(a) == Readable || (f(a).Unreadable? && EXCEPTION_PREFIX <= f(a).message))
    && (forall t: nat, start, quantity :: quantity >= 1 ==>
          var r := env.reply(t, start, quantity);
          && (r.ok <==> AllReadable(f, start, start + quantity - 1))
          && (!r.ok ==> IsException(r))
          && (!r.ok && quantity == 1 ==> f(start) == Unreadable(r.message)))
  }

  /** All that the upper bounds need: an exception means that some address of the block is unreadable. */
  ghost predicate ExceptionsAreHonest(env: Env, f: int -> Outcome) {
    forall t: nat, start, quantity :: quantity >= 1 && IsException(env.reply(t, start, quantity))
      ==> !AllReadable(f, start, start + quantity - 1)
  }

  lemma DeviceReply(env: Env, t: nat, start: int, quantity: int, f: int -> Outcome)
    requires Device(env, f) && quantity >= 1
    ensures var r := env.reply(t, start, quantity);
            (r.ok <==> AllReadable(f, start, start + quantity - 1)) && (!r.ok ==> IsException(r))
  {
  }

  /** A fixed device's exceptions are honest. */
  lemma DeviceIsHonest(env: Env, f: int -> Outcome)
    requires Device(env, f)
    ensures ExceptionsAreHonest(env, f)
  {
    forall t: nat, start, quantity | quantity >= 1 && IsException(env.reply(t, start, quantity))
      ensures !AllReadable(f, start, start + quantity - 1)
    {
      DeviceReply(env, t, start, quantity, f);
    }
  }

  lemma ProbeIds(env: Env, me: nat, max: int, start: int, end: int, w: World)
    requires 1 <= max && start <= end && ForeignEnv(me, env) && me <= w.shared.scanId
    ensures w.shared.scanId <= Probe(env, me, max, start, end, w).0.shared.scanId
  {
    ProbeAccount(env, me, max, start, end, w);
  }

  lemma ChunksIds(env: Env, me: nat, max: int, pos: int, end: int, w: World)
    requires 1 <= max && pos <= end + 1 && ForeignEnv(me, env) && me <= w.shared.scanId
    ensures w.shared.scanId <= Chunks(env, me, max, pos, end, w).0.shared.scanId
  {
    ChunksAccount(env, me, max, pos, end, w);
  }

  lemma HonestException(env: Env, t: nat, start: int, quantity: int, f: int -> Outcome)
    requires ExceptionsAreHonest(env, f) && quantity >= 1 && IsException(env.reply(t, start, quantity))
    ensures !AllReadable(f, start, start + quantity - 1)
  {
  }

  function Spent(w: World, w': World): int {
    |w'.issued| - |w.issued|
  }

  /** Two reads for each unreadable address on each level of bisection. */
  function BisectReads(u: nat, levels: nat): (r: nat) {
    2 * u * levels
  }

  lemma HalvesBound(u1: nat, u2: nat, l1: nat, l2: nat, l: nat)
    requires l1 < l && l2 < l && u1 + u2 >= 1
    ensures 2 + BisectReads(u1, l1) + BisectReads(u2, l2) <= BisectReads(u1 + u2, l)
  {
    ProductMonotone(u1, l1, l - 1);
    ProductMonotone(u2, l2, l - 1);
    assert (u1 + u2) * l == u1 * (l - 1) + u2 * (l - 1) + u1 + u2;
  }

  lemma ProductMonotone(u: nat, a: nat, b: nat)
    requires a <= b
    ensures u * a <= u * b
  {
  }

  lemma ChunkBound(u1: nat, u2: nat, l1: nat, l: nat)
    requires l1 <= l
    ensures BisectReads(u1, l1) + BisectReads(u2, l) <= BisectReads(u1 + u2, l)
  {
    ProductMonotone(u1, l1, l);
    assert (u1 + u2) * l == u1 * l + u2 * l;
  }

  /** A block of q addresses costs at most 2q - 1 reads, and at most 1 + 2u*ceil(log2 q). */
  lemma {:induction false} BlockCost(env: Env, me: nat, max: int, start: int, end: int, w: World, f: int -> Outcome)
    requires start <= end && end - start + 1 <= max && ExceptionsAreHonest(env, f)
    ensures var q := end - start + 1;
            var spent := Spent(w, Probe(env, me, max, start, end, w).0);
            && 0 <= spent <= 2 * q - 1
            && spent <= 1 + BisectReads(UnreadableCount(f, start, end), CeilLog2(q))
    decreases end - start
  {
    hide Probe, BisectReads, ExceptionsAreHonest, UnreadableCount, CeilLog2, AllReadable;
    if !Splits(env, me, start, end, w) {
      ProbeDoesNotSplit(env, me, max, start, end, w);
    } else {
      var q, mid := end - start + 1, Mid(start, end);
      var w2 := AfterBlockRead(env, start, end, w);
      var left := Probe(env, me, max, start, mid - 1, w2);
      ProbeSplits(env, me, max, start, end, w);
      BlockCost(env, me, max, start, mid - 1, w2, f);
      BlockCost(env, me, max, mid, end, left.0, f);
      UnreadableSplit(f, start, mid, end);
      UnreadableZero(f, start, end);
      HonestException(env, Yield(env, w).clock, start, q, f);
      CeilLog2Halves(q);
      HalvesBound(UnreadableCount(f, start, mid - 1), UnreadableCount(f, mid, end),
                  CeilLog2(mid - start), CeilLog2(end - mid + 1), CeilLog2(q));
    }
  }

  lemma {:induction false} ChunksCost(env: Env, me: nat, max: int, pos: int, end: int, w: World, f: int -> Outcome)
    requires 1 <= max && pos <= end + 1 && ExceptionsAreHonest(env, f)
    ensures var n := end - pos + 1;
            var spent := Spent(w, Chunks(env, me, max, pos, end, w).0);
            && 0 <= spent <= 2 * n - ChunkCount(max, n)
            && spent <= ChunkCount(max, n) + BisectReads(UnreadableCount(f, pos, end), CeilLog2(max))
    decreases end - pos
  {
    hide BisectReads, ExceptionsAreHonest;
    if pos <= end {
      var e := ChunkEnd(max, pos, end);
      var first := Probe(env, me, max, pos, e, w);
      var u1, u2 := UnreadableCount(f, pos, e), UnreadableCount(f, e + 1, end);
      BlockCost(env, me, max, pos, e, w, f);
      ChunksCost(env, me, max, e + 1, end, first.0, f);
      UnreadableSplit(f, pos, e + 1, end);
      CeilLog2Monotone(e - pos + 1, max);
      ChunkBound(u1, u2, CeilLog2(e - pos + 1), CeilLog2(max));
      ChunkCountStep(max, pos, end);
    }
  }

  /** Whatever the device and the interleaving, N addresses cost at most 2N - ceil(N/max) reads. */
  lemma ScanCostLinear(env: Env, me: nat, max: int, start: int, end: int, w: World)
    requires 1 <= max && start <= end
    ensures Spent(w, RunScan(env, me, max, start, end, w)) <= 2 * (end - start + 1) - ChunkCount(max, end - start + 1)
  {
    var f := (a: int) => Unreadable("");
    assert f(start) != Readable;
    assert ExceptionsAreHonest(env, f) by {
      forall t: nat, a, quantity | quantity >= 1 && IsException(env.reply(t, a, quantity))
        ensures !AllReadable(f, a, a + quantity - 1)
      {
        assert f(a) != Readable;
      }
    }
    ScanCostUpper(env, me, max, start, end, w, f);
  }

  lemma ScanCost(env: Env, me: nat, max: int, start: int, end: int, w: World, f: int -> Outcome)
    requires 1 <= max && start <= end && ExceptionsAreHonest(env, f)
    ensures var n := end - start + 1;
            var spent := Spent(w, RunScan(env, me, max, start, end, w));
            && spent <= 2 * n - ChunkCount(max, n)
            && spent <= ChunkCount(max, n) + BisectReads(UnreadableCount(f, start, end), CeilLog2(max))
  {
    var n := end - start + 1;
    var u := UnreadableCount(f, start, end);
    hide Probe, BisectReads, ExceptionsAreHonest, Merged, UnreadableCount;
    var w1 := Yield(env, w);
    if w1.shared.scanId != me {
      ProbeStale(env, me, max, start, end, w);
      ChunkCountAtMost(max, n);
    } else if n > max {
      ProbeChunks(env, me, max, start, end, w);
      ChunksCost(env, me, max, start, end, w1, f);
    } else {
      BlockCost(env, me, max, start, end, w, f);
      CeilLog2Monotone(n, max);
      ChunkBound(u, 0, CeilLog2(n), CeilLog2(max));
      ChunkCountStep(max, start, end);
    }
  }

  /**
   Whatever the device and the interleaving, N addresses cost at most 2N - ceil(N/max) reads; if
   exceptions are honest and u of them are unreadable, at most ceil(N/max) + 2u*ceil(log2 max).
   */
  lemma ScanCostUpper(env: Env, me: nat, max: int, start: int, end: int, w: World, f: int -> Outcome)
    requires 1 <= max && start <= end && ExceptionsAreHonest(env, f)
    ensures var n := end - start + 1;
            var spent := Spent(w, RunScan(env, me, max, start, end, w));
            && spent <= 2 * n - ChunkCount(max, n)
            && spent <= ChunkCount(max, n) + 2 * UnreadableCount(f, start, end) * CeilLog2(max)
  {
    hide RunScan, ExceptionsAreHonest, UnreadableCount, CeilLog2, ChunkCount;
    ScanCost(env, me, max, start, end, w, f);
  }

  lemma {:induction false} ChunkCountAtMost(max: int, n: nat)
    requires 1 <= max
    ensures ChunkCount(max, n) <= n
    decreases n
  {
    if n > max {
      ChunkCountAtMost(max, n - max);
    } else if n > 0 {
      assert ChunkCount(max, n - max) == 0;
    }
  }

  /** When no read fails with an exception -- all blocks read, or the link is down -- one read per chunk. */
  lemma NoExceptionCost(env: Env, me: nat, max: int, start: int, end: int, w: World)
    requires 1 <= max && start <= end
    requires forall t: nat, a, q :: !IsException(env.reply(t, a, q))
    ensures Spent(w, RunScan(env, me, max, start, end, w)) <= ChunkCount(max, end - start + 1)
  {
    var f := (a: int) => Readable;
    ScanCostUpper(env, me, max, start, end, w, f);
    UnreadableZero(f, start, end);
  }

  /** On a fixed device, a worker that stays current spends at least 2u - 1 reads on a block. */
  lemma {:induction false} BlockCostLower(env: Env, me: nat, max: int, start: int, end: int, w: World, f: int -> Outcome)
    requires start <= end && end - start + 1 <= max && Device(env, f) && ForeignEnv(me, env)
    requires me <= w.shared.scanId && Probe(env, me, max, start, end, w).0.shared.scanId == me
    ensures var spent := Spent(w, Probe(env, me, max, start, end, w).0);
            spent >= 1 && spent >= 2 * UnreadableCount(f, start, end) - 1
    decreases end - start
  {
    hide Probe, Account, Device, ForeignEnv, AllReadable;
    OthersLeave(env, me, w);
    UnreadableZero(f, start, end);
    DeviceReply(env, Yield(env, w).clock, start, end - start + 1, f);
    if !Splits(env, me, start, end, w) {
      ProbeDoesNotSplit(env, me, max, start, end, w);
      assert start == end ==> UnreadableCount(f, start + 1, end) == 0;
    } else {
      var mid := Mid(start, end);
      var w2 := AfterBlockRead(env, start, end, w);
      var left := Probe(env, me, max, start, mid - 1, w2);
      ProbeSplits(env, me, max, start, end, w);
      ProbeIds(env, me, max, start, mid - 1, w2);
      ProbeIds(env, me, max, mid, end, left.0);
      BlockCostLower(env, me, max, start, mid - 1, w2, f);
      BlockCostLower(env, me, max, mid, end, left.0, f);
      UnreadableSplit(f, start, mid, end);
    }
  }

  lemma ChunkCountStep(max: int, pos: int, end: int)
    requires 1 <= max && pos <= end
    ensures ChunkCount(max, end - pos + 1) == 1 + ChunkCount(max, end - ChunkEnd(max, pos, end))
  {
    assert ChunkCount(max, end - pos + 1) == 1 + ChunkCount(max, end - pos + 1 - max);
    if ChunkEnd(max, pos, end) == end {
      assert ChunkCount(max, end - pos + 1 - max) == 0 == ChunkCount(max, 0);
    }
  }

  lemma {:induction false} ChunksCostLower(env: Env, me: nat, max: int, pos: int, end: int, w: World, f: int -> Outcome)
    requires 1 <= max && pos <= end + 1 && Device(env, f) && ForeignEnv(me, env)
    requires me <= w.shared.scanId && Chunks(env, me, max, pos, end, w).0.shared.scanId == me
    ensures var spent := Spent(w, Chunks(env, me, max, pos, end, w).0);
            && spent >= ChunkCount(max, end - pos + 1)
            && spent >= 2 * UnreadableCount(f, pos, end) - ChunkCount(max, end - pos + 1)
    decreases end - pos
  {
    hide Probe, Account, Device, ForeignEnv;
    if pos <= end {
      var e := ChunkEnd(max, pos, end);
      var first := Probe(env, me, max, pos, e, w);
      ProbeIds(env, me, max, pos, e, w);
      ChunksIds(env, me, max, e + 1, end, first.0);
      BlockCostLower(env, me, max, pos, e, w, f);
      ChunksCostLower(env, me, max, e + 1, end, first.0, f);
      UnreadableSplit(f, pos, e + 1, end);
      ChunkCountStep(max, pos, end);
    }
  }

  /**
   The cost of an unstopped scan of a fixed device is at least ceil(N/max) and at least
   2u - ceil(N/max): linear, not logarithmic, in the number of unreadable addresses.
   */
  lemma ScanCostLower(env: Env, me: nat, max: int, start: int, end: int, w: World, f: int -> Outcome)
    requires 1 <= max && start <= end && Device(env, f) && ForeignEnv(me, env)
    requires me <= w.shared.scanId && RunScan(env, me, max, start, end, w).shared.scanId == me
    ensures var n := end - start + 1;
            var spent := Spent(w, RunScan(env, me, max, start, end, w));
            && spent >= ChunkCount(max, n)
            && spent >= 2 * UnreadableCount(f, start, end) - ChunkCount(max, n)
  {
    hide Account, Device, ForeignEnv;
    var p := Probe(env, me, max, start, end, w);
    ProbeIds(env, me, max, start, end, w);
    OthersLeave(env, me, p.0);
    OthersLeave(env, me, w);
    if end - start + 1 > max {
      ChunksIds(env, me, max, start, end, Yield(env, w));
      ChunksCostLower(env, me, max, start, end, Yield(env, w), f);
    } else {
      BlockCostLower(env, me, max, start, end, w, f);
      ChunkCountStep(max, start, end);
    }
  }

  /** A range with nothing readable costs exactly 2N - ceil(N/max) reads, far from O(log N). */
  lemma NothingReadableCost(env: Env, me: nat, max: int, start: int, end: int, w: World, f: int -> Outcome)
    requires 1 <= max && start <= end && Device(env, f) && ForeignEnv(me, env)
    requires me <= w.shared.scanId && RunScan(env, me, max, start, end, w).shared.scanId == me
    requires UnreadableCount(f, start, end) == end - start + 1
    ensures Spent(w, RunScan(env, me, max, start, end, w))
            == 2 * (end - start + 1) - ChunkCount(max, end - start + 1)
  {
    DeviceIsHonest(env, f);
    ScanCostUpper(env, me, max, start, end, w, f);
    ScanCostLower(env, me, max, start, end, w, f);
  }

  // ----- Merging -----

  lemma TilesLastOnly(segs: seq<Segment>, lo: int, hi: int, seg: Segment)
    requires Tiles(segs, lo, seg.start - 1) && seg.start <= seg.end == hi && lo <= seg.start
    ensures Tiles(segs + [seg], lo, hi)
  {
    assert [seg][1..] == [];
    TilesConcat(segs, [seg], lo, seg.start - 1, hi);
  }

  lemma {:induction false} TilesAscend(segs: seq<Segment>, lo: int, hi: int)
    requires Tiles(segs, lo, hi)
    ensures Ascending((seg: Segment) => seg.start, segs)
  {
    if segs != [] {
      TilesAscend(segs[1..], segs[0].end + 1, hi);
      forall j | 0 < j < |segs|
        ensures segs[0].start <= segs[j].start
      {
        TilesBounds(segs, lo, hi, j);
      }
      assert segs == [segs[0]] + segs[1..];
    }
  }

  lemma AbsorbKeepsRuns(merged: seq<Segment>, seg: Segment, f: int -> Outcome, lo: int)
    requires lo <= seg.start <= seg.end && MaximalRuns(merged, f, lo, seg.start - 1)
    requires forall a :: seg.start <= a <= seg.end ==> f(a) == seg.outcome
    ensures MaximalRuns(Absorb(merged, seg), f, lo, seg.end)
  {
    if merged == [] {
      assert [seg][1..] == [];
    } else {
      var n := |merged| - 1;
      TilesLast(merged, lo, seg.start - 1);
      TilesBounds(merged, lo, seg.start - 1, n);
      var out := Absorb(merged, seg);
      if seg.outcome == merged[n].outcome {
        TilesLastOnly(merged[..n], lo, seg.end, merged[n].(end := seg.end));
        assert out == merged[..n] + [merged[n].(end := seg.end)];
      } else {
        TilesLastOnly(merged, lo, seg.end, seg);
      }
    }
  }

  lemma {:induction false} AbsorbedIsMaximal(segs: seq<Segment>, f: int -> Outcome, lo: int, hi: int)
    requires Tiles(segs, lo, hi) && Describes(segs, f)
    ensures MaximalRuns(Absorbed(segs), f, lo, hi)
    decreases |segs|
  {
    if segs != [] {
      var last := segs[|segs| - 1];
      TilesLast(segs, lo, hi);
      TilesBounds(segs, lo, hi, |segs| - 1);
      AbsorbedIsMaximal(segs[..|segs| - 1], f, lo, last.start - 1);
      AbsorbKeepsRuns(Absorbed(segs[..|segs| - 1]), last, f, lo);
    }
  }

  /** Merging any tiling gives the maximal runs of the outcomes that it describes. */
  lemma MergedIsMaximal(segs: seq<Segment>, f: int -> Outcome, lo: int, hi: int)
    requires Tiles(segs, lo, hi) && Describes(segs, f)
    ensures MaximalRuns(Merged(segs), f, lo, hi)
  {
    TilesAscend(segs, lo, hi);
    SortByAscending((seg: Segment) => seg.start, segs);
    AbsorbedIsMaximal(segs, f, lo, hi);
  }

  /** There is only one decomposition of a range into maximal runs. */
  lemma {:induction false} MaximalRunsUnique(a: seq<Segment>, b: seq<Segment>, f: int -> Outcome, lo: int, hi: int)
    requires MaximalRuns(a, f, lo, hi) && MaximalRuns(b, f, lo, hi)
    ensures a == b
    decreases |a|
  {
    if a != [] && b != [] {
      FirstRunAtLeast(a, b, f, lo, hi);
      FirstRunAtLeast(b, a, f, lo, hi);
      assert f(lo) == a[0].outcome == b[0].outcome;
      assert MaximalRuns(a[1..], f, a[0].end + 1, hi) && MaximalRuns(b[1..], f, a[0].end + 1, hi);
      MaximalRunsUnique(a[1..], b[1..], f, a[0].end + 1, hi);
      assert a == [a[0]] + a[1..] && b == [b[0]] + b[1..];
    }
  }

  lemma FirstRunAtLeast(a: seq<Segment>, b: seq<Segment>, f: int -> Outcome, lo: int, hi: int)
    requires a != [] && b != [] && MaximalRuns(a, f, lo, hi) && MaximalRuns(b, f, lo, hi)
    ensures a[0].end >= b[0].end
  {
    var next := a[0].end + 1;
    if next <= hi {
      assert Tiles(a[1..], next, hi);
      assert a[1..] != [] && a[1..][0] == a[1];
      assert f(next) == a[1].outcome && a[0].outcome != a[0 + 1].outcome;
      assert f(lo) == a[0].outcome && f(lo) == b[0].outcome;
    }
  }

  // ----- Main results -----

  /** On a fixed device, what a current worker's probe reports is what the device's map says. */
  lemma ProbeDescribes(env: Env, me: nat, max: int, start: int, end: int, w: World, f: int -> Outcome)
    requires 1 <= max && start <= end && ForeignEnv(me, env) && me <= w.shared.scanId && Device(env, f)
    requires Probe(env, me, max, start, end, w).0.shared.scanId == me
    ensures Describes(Probe(env, me, max, start, end, w).1, f)
  {
    hide Probe, ForeignEnv;
    var p := Probe(env, me, max, start, end, w);
    ProbeAccount(env, me, max, start, end, w);
    forall i, a | 0 <= i < |p.1| && p.1[i].start <= a <= p.1[i].end
      ensures f(a) == p.1[i].outcome
    {
      var seg := p.1[i];
      assert seg in p.1;
      var news := p.0.issued[|w.issued|..];
      assert Evidenced(seg, news);
      var r :| r in news && r.start == seg.start && r.quantity == seg.end - seg.start + 1
               && (seg.outcome == Readable ==> r.reply.ok)
               && (seg.outcome.Unreadable? ==> r.reply == Reply(false, seg.outcome.message)
                                               && (r.quantity == 1 || !IsException(r.reply)));
      assert ProperRead(env, max, start, end, r);
      assert env.reply(r.at, r.start, r.quantity).ok <==> AllReadable(f, r.start, r.start + r.quantity - 1);
    }
  }

  /**
   A worker just started on a fixed device that is still current when it commits leaves a finished
   scan with full progress and the unique maximal runs of the device's own map.
   */
  lemma ScanFindsMaximalRuns(env: Env, me: nat, max: int, start: int, end: int, w: World, f: int -> Outcome)
    requires 1 <= max && start <= end && ForeignEnv(me, env) && Device(env, f)
    requires w.shared == Shared(true, me, [], 0, end - start + 1)
    requires RunScan(env, me, max, start, end, w).shared.scanId == me
    ensures var s := RunScan(env, me, max, start, end, w).shared;
            !s.running && s.progress == s.total == end - start + 1 && MaximalRuns(s.segments, f, start, end)
  {
    hide Probe, Device, Merged, MaximalRuns, Tiles, Describes;
    var p := Probe(env, me, max, start, end, w);
    ProbeAccount(env, me, max, start, end, w);
    OthersKeepCurrent(me, p.0.shared, env.others(p.0.clock));
    ProbeDescribes(env, me, max, start, end, w, f);
    MergedIsMaximal(p.1, f, start, end);
  }

  /** The result depends on the device alone, not on block size, bisection or timing. */
  lemma ScanIndependentOfChunking(env: Env, me: nat, max: int, w: World, env': Env, me': nat, max': int, w': World,
                                  start: int, end: int, f: int -> Outcome)
    requires 1 <= max && 1 <= max' && start <= end
    requires ForeignEnv(me, env) && Device(env, f) && ForeignEnv(me', env') && Device(env', f)
    requires w.shared == Shared(true, me, [], 0, end - start + 1)
    requires w'.shared == Shared(true, me', [], 0, end - start + 1)
    requires RunScan(env, me, max, start, end, w).shared.scanId == me
    requires RunScan(env', me', max', start, end, w').shared.scanId == me'
    ensures RunScan(env, me, max, start, end, w).shared.segments
            == RunScan(env', me', max', start, end, w').shared.segments
  {
    ScanFindsMaximalRuns(env, me, max, start, end, w, f);
    ScanFindsMaximalRuns(env', me', max', start, end, w', f);
    MaximalRunsUnique(RunScan(env, me, max, start, end, w).shared.segments,
                      RunScan(env', me', max', start, end, w').shared.segments, f, start, end);
  }

  // ----- Merging in general -----

  /** Some segment says `outcome` of address `a`. */
  ghost predicate Says(segs: seq<Segment>, a: int, outcome: Outcome) {
    exists i :: 0 <= i < |segs| && segs[i].start <= a <= segs[i].end && segs[i].outcome == outcome
  }

  lemma AbsorbSays(merged: seq<Segment>, seg: Segment, a: int, outcome: Outcome)
    requires seg.start <= seg.end && (merged != [] ==> merged[|merged| - 1].start <= merged[|merged| - 1].end)
    ensures Says(Absorb(merged, seg), a, outcome) <==> Says(merged + [seg], a, outcome)
    ensures var m := Absorb(merged, seg); m != [] && m[|m| - 1].start <= m[|m| - 1].end
  {
    var m, all := Absorb(merged, seg), merged + [seg];
    if m != all {
      var n := |merged| - 1;
      assert m[n].start == merged[n].start && m[n].end == seg.end;
      if i :| 0 <= i < |all| && all[i].start <= a <= all[i].end && all[i].outcome == outcome {
        assert m[if i <= n then i else n].start <= a <= m[if i <= n then i else n].end;
      }
      if i :| 0 <= i < |m| && m[i].start <= a <= m[i].end && m[i].outcome == outcome {
        var j := if i == n && a >= seg.start then n + 1 else i;
        assert all[j].start <= a <= all[j].end && all[j].outcome == outcome;
      }
    }
  }

  lemma {:induction false} AbsorbedSays(segs: seq<Segment>, a: int, outcome: Outcome)
    requires forall i :: 0 <= i < |segs| ==> segs[i].start <= segs[i].end
    ensures Says(Absorbed(segs), a, outcome) <==> Says(segs, a, outcome)
    ensures segs != [] ==> var m := Absorbed(segs); m != [] && m[|m| - 1].start <= m[|m| - 1].end
    ensures segs == [] ==> Absorbed(segs) == []
    decreases |segs|
  {
    hide Absorb;
    if segs != [] {
      var n := |segs| - 1;
      AbsorbedSays(segs[..n], a, outcome);
      AbsorbSays(Absorbed(segs[..n]), segs[n], a, outcome);
      SaysOneMore(Absorbed(segs[..n]), segs[n], a, outcome);
      SaysOneMore(segs[..n], segs[n], a, outcome);
      assert segs[..n] + [segs[n]] == segs;
    }
  }

  lemma SaysOneMore(segs: seq<Segment>, seg: Segment, a: int, outcome: Outcome)
    ensures Says(segs + [seg], a, outcome) <==>
            Says(segs, a, outcome) || (seg.start <= a <= seg.end && seg.outcome == outcome)
  {
    var all := segs + [seg];
    assert all[|segs|] == seg;
    if i :| 0 <= i < |segs| && segs[i].start <= a <= segs[i].end && segs[i].outcome == outcome {
      assert all[i] == segs[i];
    }
  }

  /** Whatever is merged, in whatever order, with gaps or overlaps: what is said of each address stays the same. */
  lemma MergedSays(segs: seq<Segment>, a: int, outcome: Outcome)
    requires forall i :: 0 <= i < |segs| ==> segs[i].start <= segs[i].end
    ensures Says(Merged(segs), a, outcome) <==> Says(segs, a, outcome)
  {
    var key := (seg: Segment) => seg.start;
    var ordered := SortBy(key, segs);
    SortBySorts(key, segs);
    forall seg | seg in ordered
      ensures seg.start <= seg.end
    {
      assert seg in multiset(ordered);
    }
    hide SortBy, Absorbed;
    AbsorbedSays(ordered, a, outcome);
    SaysReordered(segs, ordered, a, outcome);
    SaysReordered(ordered, segs, a, outcome);
  }

  lemma SaysReordered(segs: seq<Segment>, other: seq<Segment>, a: int, outcome: Outcome)
    requires multiset(segs) == multiset(other)
    ensures Says(segs, a, outcome) ==> Says(other, a, outcome)
  {
    if i :| 0 <= i < |segs| && segs[i].start <= a <= segs[i].end && segs[i].outcome == outcome {
      assert segs[i] in multiset(other);
      var j :| 0 <= j < |other| && other[j] == segs[i];
    }
  }

  // ----- Stopping -----

  /** No event starts a scan, and lock sections are of workers with ids up to `id`. */
  ghost predicate Elder(id: int, es: seq<Event>) {
    forall i :: 0 <= i < |es| ==> !es[i].Start? && (es[i].Bump? || es[i].Finish? ==> es[i].id <= id)
  }

  ghost predicate ElderEnv(id: int, env: Env) {
    forall t: nat :: Elder(id, env.others(t))
  }

  lemma {:induction false} OffStays(s: Shared, es: seq<Event>)
    requires !s.running && Elder(s.scanId - 1, es)
    ensures ApplyAll(s, es) == s
    decreases |es|
  {
    if es != [] {
      OffStays(s, es[1..]);
    }
  }

  /**
   A stop of a running scan takes the id away from its worker and leaves what was found so far; up to the
   next start nothing that the workers of this scan or of earlier ones do, and no further stop, changes it.
   */
  lemma StopFreezes(s: Shared, es: seq<Event>)
    requires Elder(s.scanId, es)
    ensures var s' := Apply(s, Stop);
            && !s'.running && s'.segments == s.segments && s'.progress == s.progress && s'.total == s.total
            && (if s.running then s'.scanId > s.scanId && ApplyAll(s', es) == s' else s' == s)
  {
    if s.running {
      OffStays(Apply(s, Stop), es);
    }
  }

  /** The scan of worker `me` goes on. */
  ghost predicate Live(s: Shared, me: nat) {
    s.running && s.scanId == me
  }

  lemma {:induction false} StopSupersedes(me: nat, s: Shared, es: seq<Event>)
    requires Foreign(me, es) && (Live(s, me) || s.scanId > me)
    ensures var s' := ApplyAll(s, es);
            && (Live(s', me) || s'.scanId > me)
            && (s.scanId > me || Stop in es ==> s'.scanId > me)
    decreases |es|
  {
    if es != [] {
      StopSupersedes(me, Apply(s, es[0]), es[1..]);
    }
  }

  /** The worker is superseded, or its scan goes on and scheduling point `stopAt` is still to come. */
  ghost predicate Due(me: nat, stopAt: nat, w: World) {
    w.shared.scanId > me || (Live(w.shared, me) && w.clock <= stopAt)
  }

  lemma YieldIsDue(env: Env, me: nat, stopAt: nat, w: World)
    requires ForeignEnv(me, env) && Stop in env.others(stopAt) && Due(me, stopAt, w)
    ensures Due(me, stopAt, Yield(env, w))
  {
    StopSupersedes(me, w.shared, env.others(w.clock));
  }

  lemma BumpIsDue(env: Env, me: nat, stopAt: nat, count: int, w: World)
    requires ForeignEnv(me, env) && Stop in env.others(stopAt) && Due(me, stopAt, w)
    ensures Due(me, stopAt, BumpProgress(env, me, count, w)) && BumpProgress(env, me, count, w).issued == w.issued
  {
    YieldIsDue(env, me, stopAt, w);
  }

  /** What was read between two worlds was read by scheduling point `stopAt`. */
  ghost predicate ReadBy(stopAt: nat, w: World, w': World) {
    w.issued <= w'.issued && forall i :: |w.issued| <= i < |w'.issued| ==> w'.issued[i].at <= stopAt
  }

  lemma ReadByJoin(stopAt: nat, w0: World, w1: World, w2: World)
    requires ReadBy(stopAt, w0, w1) && ReadBy(stopAt, w1, w2)
    ensures ReadBy(stopAt, w0, w2)
  {
  }

  lemma BlockReadBy(env: Env, me: nat, stopAt: nat, start: int, end: int, w: World)
    requires ForeignEnv(me, env) && Stop in env.others(stopAt) && Due(me, stopAt, w) && Yield(env, w).shared.scanId == me
    ensures var w2 := AfterBlockRead(env, start, end, w); Due(me, stopAt, w2) && ReadBy(stopAt, w, w2)
  {
    YieldIsDue(env, me, stopAt, w);
  }

  lemma {:induction false} ProbeReadsBy(env: Env, me: nat, stopAt: nat, max: int, start: int, end: int, w: World)
    requires 1 <= max && start <= end && ForeignEnv(me, env) && Stop in env.others(stopAt) && Due(me, stopAt, w)
    ensures var w' := Probe(env, me, max, start, end, w).0; Due(me, stopAt, w') && ReadBy(stopAt, w, w')
    decreases if end - start + 1 > max then 1 else 0, end - start, 1
  {
    hide Probe, ForeignEnv, Due, ReadBy, ApplyAll;
    if Yield(env, w).shared.scanId != me {
      ProbeStale(env, me, max, start, end, w);
      YieldReadsBy(env, me, stopAt, w);
    } else if end - start + 1 > max {
      ProbeChunks(env, me, max, start, end, w);
      YieldReadsBy(env, me, stopAt, w);
      ChunksReadBy(env, me, stopAt, max, start, end, Yield(env, w));
      ReadByJoin(stopAt, w, Yield(env, w), Probe(env, me, max, start, end, w).0);
    } else {
      var w2 := AfterBlockRead(env, start, end, w);
      BlockReadBy(env, me, stopAt, start, end, w);
      if Splits(env, me, start, end, w) {
        var mid := Mid(start, end);
        var left := Probe(env, me, max, start, mid - 1, w2);
        var right := Probe(env, me, max, mid, end, left.0);
        ProbeSplits(env, me, max, start, end, w);
        ProbeReadsBy(env, me, stopAt, max, start, mid - 1, w2);
        ProbeReadsBy(env, me, stopAt, max, mid, end, left.0);
        ReadByJoin(stopAt, w, w2, left.0);
        ReadByJoin(stopAt, w, left.0, right.0);
      } else {
        ProbeDoesNotSplit(env, me, max, start, end, w);
        BumpIsDue(env, me, stopAt, end - start + 1, w2);
        BumpReadsBy(env, me, stopAt, end - start + 1, w, w2);
      }
    }
  }

  lemma YieldReadsBy(env: Env, me: nat, stopAt: nat, w: World)
    requires ForeignEnv(me, env) && Stop in env.others(stopAt) && Due(me, stopAt, w)
    ensures Due(me, stopAt, Yield(env, w)) && ReadBy(stopAt, w, Yield(env, w))
  {
    YieldIsDue(env, me, stopAt, w);
  }

  lemma BumpReadsBy(env: Env, me: nat, stopAt: nat, count: int, w: World, w2: World)
    requires ReadBy(stopAt, w, w2) && BumpProgress(env, me, count, w2).issued == w2.issued
    ensures ReadBy(stopAt, w, BumpProgress(env, me, count, w2))
  {
  }

  lemma {:induction false} ChunksReadBy(env: Env, me: nat, stopAt: nat, max: int, pos: int, end: int, w: World)
    requires 1 <= max && ForeignEnv(me, env) && Stop in env.others(stopAt) && Due(me, stopAt, w)
    ensures var w' := Chunks(env, me, max, pos, end, w).0; Due(me, stopAt, w') && ReadBy(stopAt, w, w')
    decreases 1, end - pos, 0
  {
    if pos <= end {
      var e := ChunkEnd(max, pos, end);
      var first := Probe(env, me, max, pos, e, w);
      ProbeReadsBy(env, me, stopAt, max, pos, e, w);
      ChunksReadBy(env, me, stopAt, max, e + 1, end, first.0);
      ReadByJoin(stopAt, w, first.0, Chunks(env, me, max, pos, end, w).0);
    }
  }

  /** Segments and total are as they were, and the scan goes on or is off for worker `me`. */
  ghost predicate Untouched(me: nat, s0: Shared, s: Shared) {
    && s.segments == s0.segments && s.total == s0.total
    && (Live(s, me) || (!s.running && s.scanId > me)) && (s0.scanId > me ==> s == s0)
  }

  lemma {:induction false} EldersLeave(me: nat, s: Shared, es: seq<Event>)
    requires Elder(me - 1, es) && (Live(s, me) || (!s.running && s.scanId > me))
    ensures var s' := ApplyAll(s, es);
            Untouched(me, s, s') && s'.progress == s.progress && (s' == s || s' == Apply(s, Stop))
    decreases |es|
  {
    if es != [] {
      EldersLeave(me, Apply(s, es[0]), es[1..]);
    }
  }

  lemma {:induction false} ProbeLeaves(env: Env, me: nat, max: int, start: int, end: int, w: World)
    requires 1 <= max && start <= end && ElderEnv(me - 1, env) && (Live(w.shared, me) || (!w.shared.running && w.shared.scanId > me))
    ensures Untouched(me, w.shared, Probe(env, me, max, start, end, w).0.shared)
    decreases if end - start + 1 > max then 1 else 0, end - start, 1
  {
    hide Probe, ElderEnv, ApplyAll;
    EldersYield(env, me, w);
    if Yield(env, w).shared.scanId != me {
      ProbeStale(env, me, max, start, end, w);
    } else if end - start + 1 > max {
      ProbeChunks(env, me, max, start, end, w);
      ChunksLeave(env, me, max, start, end, Yield(env, w));
    } else if Splits(env, me, start, end, w) {
      var w2 := AfterBlockRead(env, start, end, w);
      var mid := Mid(start, end);
      var left := Probe(env, me, max, start, mid - 1, w2);
      ProbeSplits(env, me, max, start, end, w);
      ProbeLeaves(env, me, max, start, mid - 1, w2);
      ProbeLeaves(env, me, max, mid, end, left.0);
    } else {
      ProbeDoesNotSplit(env, me, max, start, end, w);
      EldersYield(env, me, AfterBlockRead(env, start, end, w));
    }
  }

  lemma EldersYield(env: Env, me: nat, w: World)
    requires ElderEnv(me - 1, env) && (Live(w.shared, me) || (!w.shared.running && w.shared.scanId > me))
    ensures Untouched(me, w.shared, Yield(env, w).shared) && Yield(env, w).shared.progress == w.shared.progress
    ensures Yield(env, w).shared == w.shared || Yield(env, w).shared == Apply(w.shared, Stop)
  {
    EldersLeave(me, w.shared, env.others(w.clock));
  }

  lemma {:induction false} ChunksLeave(env: Env, me: nat, max: int, pos: int, end: int, w: World)
    requires 1 <= max && ElderEnv(me - 1, env) && (Live(w.shared, me) || (!w.shared.running && w.shared.scanId > me))
    ensures Untouched(me, w.shared, Chunks(env, me, max, pos, end, w).0.shared)
    decreases 1, end - pos, 0
  {
    if pos <= end {
      var e := ChunkEnd(max, pos, end);
      var first := Probe(env, me, max, pos, e, w);
      ProbeLeaves(env, me, max, pos, e, w);
      ChunksLeave(env, me, max, e + 1, end, first.0);
    }
  }

  lemma EldersAreForeign(env: Env, me: nat)
    requires ElderEnv(me - 1, env)
    ensures ForeignEnv(me, env)
  {
    forall t: nat ensures Foreign(me, env.others(t)) {
      assert Elder(me - 1, env.others(t));
    }
  }

  /**
   A stop that comes at scheduling point `stopAt` of a scan: no read is issued after it, and every segment
   that reports anything but "stopped" is backed by a read before it.  When the scan got that far and nothing
   is started meanwhile, it ends switched off, with its id taken away and the segments that were stored before it.
   */
  lemma StopEndsScan(env: Env, me: nat, max: int, start: int, end: int, w: World, stopAt: nat)
    requires 1 <= max && start <= end && ForeignEnv(me, env) && Live(w.shared, me)
    requires w.clock <= stopAt && Stop in env.others(stopAt)
    ensures var p := Probe(env, me, max, start, end, w);
            var w' := RunScan(env, me, max, start, end, w);
            && ReadBy(stopAt, w, w')
            && (forall seg :: seg in p.1 && seg.outcome != Stopped ==>
                  exists r :: r in w'.issued && r.at <= stopAt && r.start == seg.start && r.quantity == seg.end - seg.start + 1)
            && (w'.clock > stopAt ==> w'.shared.scanId > me)
            && (w'.clock > stopAt && ElderEnv(me - 1, env) ==>
                  && !w'.shared.running && w'.shared.segments == w.shared.segments && w'.shared.total == w.shared.total)
  {
    hide Probe, Merged, ForeignEnv, ElderEnv, Live, ApplyAll;
    ScanReadsBy(env, me, max, start, end, w, stopAt);
    var p := Probe(env, me, max, start, end, w);
    var w' := RunScan(env, me, max, start, end, w);
    forall seg | seg in p.1 && seg.outcome != Stopped
      ensures exists r :: r in w'.issued && r.at <= stopAt && r.start == seg.start && r.quantity == seg.end - seg.start + 1
    {
      SegmentReadBy(env, me, max, start, end, w, stopAt, seg);
    }
    if ElderEnv(me - 1, env) {
      ScanLeaves(env, me, max, start, end, w);
    }
  }

  lemma SegmentReadBy(env: Env, me: nat, max: int, start: int, end: int, w: World, stopAt: nat, seg: Segment)
    requires 1 <= max && start <= end && ForeignEnv(me, env) && Live(w.shared, me)
    requires ReadBy(stopAt, w, RunScan(env, me, max, start, end, w))
    requires seg in Probe(env, me, max, start, end, w).1 && seg.outcome != Stopped
    ensures exists r :: r in RunScan(env, me, max, start, end, w).issued && r.at <= stopAt
                        && r.start == seg.start && r.quantity == seg.end - seg.start + 1
  {
    hide Probe, Merged, ForeignEnv;
    RunIssuesProbe(env, me, max, start, end, w);
    ProbeAccount(env, me, max, start, end, w);
    var all := RunScan(env, me, max, start, end, w).issued;
    var mine := all[|w.issued|..];
    assert Evidenced(seg, mine);
    var r :| r in mine && r.start == seg.start && r.quantity == seg.end - seg.start + 1;
    var i :| 0 <= i < |mine| && mine[i] == r;
    assert all[|w.issued| + i] == r;
  }

  lemma ScanReadsBy(env: Env, me: nat, max: int, start: int, end: int, w: World, stopAt: nat)
    requires 1 <= max && start <= end && ForeignEnv(me, env) && Live(w.shared, me)
    requires w.clock <= stopAt && Stop in env.others(stopAt)
    ensures var w' := RunScan(env, me, max, start, end, w);
            ReadBy(stopAt, w, w') && (w'.clock > stopAt ==> w'.shared.scanId > me)
  {
    hide Probe, Merged, ForeignEnv;
    ProbeReadsBy(env, me, stopAt, max, start, end, w);
    YieldIsDue(env, me, stopAt, Probe(env, me, max, start, end, w).0);
  }

  /** With older workers and stops only around it, a scan commits, or ends switched off and leaves the stored segments. */
  lemma ScanLeaves(env: Env, me: nat, max: int, start: int, end: int, w: World)
    requires 1 <= max && start <= end && ElderEnv(me - 1, env) && Live(w.shared, me)
    ensures var s := RunScan(env, me, max, start, end, w).shared;
            !s.running && (s.scanId > me ==> s.segments == w.shared.segments && s.total == w.shared.total)
  {
    hide Probe, Merged, ElderEnv, ApplyAll;
    ProbeLeaves(env, me, max, start, end, w);
    EldersYield(env, me, Probe(env, me, max, start, end, w).0);
  }

  /**
   When the stop comes while the worker waits for the lock in front of a block, the block is reported as
   stopped without a read; in front of counting, nothing is counted: progress stays as the stop found it.
   */
  lemma StopAtYield(env: Env, me: nat, max: int, start: int, end: int, w: World)
    requires 1 <= max && start <= end && ElderEnv(me - 1, env) && Live(w.shared, me) && Stop in env.others(w.clock)
    ensures var p := Probe(env, me, max, start, end, w);
            p.1 == [Segment(start, end, Stopped)] && p.0.issued == w.issued && p.0.shared == Apply(w.shared, Stop)
    ensures forall count :: BumpProgress(env, me, count, w).shared == Apply(w.shared, Stop)
    ensures RunScan(env, me, max, start, end, w).shared == Apply(w.shared, Stop)
  {
    hide Probe, Merged;
    EldersAreForeign(env, me);
    EldersYield(env, me, w);
    StopSupersedes(me, w.shared, env.others(w.clock));
    ProbeStale(env, me, max, start, end, w);
    EldersYield(env, me, Yield(env, w));
  }

  // ----- The scanner itself -----

  /** `_REGISTER_TYPES`. */
  function FunctionCode(registerType: string): Option<int> {
    if registerType == "coils" then Some(1)
    else if registerType == "discrete_inputs" then Some(2)
    else if registerType == "holding_registers" then Some(3)
    else if registerType == "input_registers" then Some(4)
    else None
  }

  /** Coils and discrete inputs are read as bits with functions 1 and 2, registers as words with 3 and 4. */
  lemma TypesAre(registerType: string)
    ensures FunctionCode(registerType) == Some(1) <==> registerType == "coils"
    ensures FunctionCode(registerType) == Some(2) <==> registerType == "discrete_inputs"
    ensures FunctionCode(registerType) == Some(3) <==> registerType == "holding_registers"
    ensures FunctionCode(registerType) == Some(4) <==> registerType == "input_registers"
    ensures FunctionCode(registerType) != None ==> FunctionCode(registerType).value in {1, 2, 3, 4}
  {
  }

  const MAX_RANGE_SIZE := 10000

  datatype StartError = HostRequired | BadRegisterType | BadUnit | BadAddress | Reversed | TooLarge | BadPort | BadTimeout

  /** A request to scan, with the host already stripped. */
  datatype Request = Request(host: string, registerType: string, unitId: int,
                             startAddress: int, endAddress: int, port: int, timeout: real)

  function Rejection(q: Request): Option<StartError> {
    if q.host == "" then Some(HostRequired)
    else if FunctionCode(q.registerType) == None then Some(BadRegisterType)
    else if !(0 <= q.unitId <= 255) then Some(BadUnit)
    else if !(0 <= q.startAddress <= 0xFFFF && 0 <= q.endAddress <= 0xFFFF) then Some(BadAddress)
    else if q.startAddress > q.endAddress then Some(Reversed)
    else if q.endAddress - q.startAddress + 1 > MAX_RANGE_SIZE then Some(TooLarge)
    else if !(1 <= q.port <= 65535) then Some(BadPort)
    else if !(0.1 <= q.timeout <= 10.0) then Some(BadTimeout)
    else None
  }

  /** What is accepted, and the first fault of what is not. */
  lemma RejectionIff(q: Request)
    ensures var named := q.host != "";
            var typed := q.registerType in {"coils", "discrete_inputs", "holding_registers", "input_registers"};
            var unit, addressed := 0 <= q.unitId <= 255, 0 <= q.startAddress <= 65535 && 0 <= q.endAddress <= 65535;
            var ordered, small, reachable := q.startAddress <= q.endAddress, q.endAddress - q.startAddress < 10_000, 1 <= q.port <= 65535;
            && (Rejection(q) == None <==>
                  named && typed && unit && addressed && ordered && small && reachable && 0.1 <= q.timeout <= 10.0)
            && (Rejection(q) == Some(HostRequired) <==> !named)
            && (Rejection(q) == Some(BadRegisterType) <==> named && !typed)
            && (Rejection(q) == Some(BadUnit) <==> named && typed && !unit)
            && (Rejection(q) == Some(BadAddress) <==> named && typed && unit && !addressed)
            && (Rejection(q) == Some(Reversed) <==> named && typed && unit && addressed && !ordered)
            && (Rejection(q) == Some(TooLarge) <==> named && typed && unit && addressed && ordered && !small)
            && (Rejection(q) == Some(BadPort) <==> named && typed && unit && addressed && ordered && small && !reachable)
  {
  }

  /** The reads that a scan of an accepted request issues. */
  function ReadsOf(env: Env, me: nat, q: Request, w: World): seq<Read>
    requires Rejection(q) == None
  {
    RunScan(env, me, ModbusClient.MaxQuantity(FunctionCode(q.registerType).value), q.startAddress, q.endAddress, w).issued
  }

  lemma RunIssuesProbe(env: Env, me: nat, max: int, start: int, end: int, w: World)
    requires 1 <= max && start <= end
    ensures RunScan(env, me, max, start, end, w).issued == Probe(env, me, max, start, end, w).0.issued
  {
    hide Probe, Merged;
  }

  /** No read of an accepted scan is refused by the checks of the client it calls. */
  lemma ReadsAreAccepted(env: Env, me: nat, q: Request, w: World)
    requires Rejection(q) == None && ForeignEnv(me, env) && me <= w.shared.scanId
    ensures w.issued <= ReadsOf(env, me, q, w)
    ensures forall r :: r in ReadsOf(env, me, q, w)[|w.issued|..] ==>
              ModbusClient.Refused(q.host, q.unitId, FunctionCode(q.registerType).value, r.start, r.quantity, q.port) == None
  {
    hide Probe, ForeignEnv, RunScan;
    var fc := FunctionCode(q.registerType).value;
    RunIssuesProbe(env, me, ModbusClient.MaxQuantity(fc), q.startAddress, q.endAddress, w);
    ProbeAccount(env, me, ModbusClient.MaxQuantity(fc), q.startAddress, q.endAddress, w);
  }

  /** The module's state.  `clock` and `issued` record the schedule and the reads, not program state. */
  class RegisterScanner {
    var running: bool
    var scanId: nat
    var segments: seq<Segment>
    var progress: int
    var total: int
    var clock: nat
    var issued: seq<Read>

    function State(): Shared
      reads this
    {
      Shared(running, scanId, segments, progress, total)
    }

    function View(): World
      reads this
    {
      World(State(), clock, issued)
    }

    constructor ()
      ensures State() == Shared(false, 0, [], 0, 0) && issued == []
    {
      running, scanId, segments, progress, total := false, 0, [], 0, 0;
      clock, issued := 0, [];
    }

    method StartScan(q: Request) returns (r: Result<nat, StartError>)
      modifies this`running, this`scanId, this`segments, this`progress, this`total
      ensures match Rejection(q)
              case Some(e) => r == Err(e) && State() == old(State())
              case None => r == Ok(scanId)
                           && State() == Shared(true, old(scanId) + 1, [], 0, q.endAddress - q.startAddress + 1)
                           && State() == Apply(old(State()), Start(total))
    {
      var rejection := Rejection(q);
      if rejection != None {
        return Err(rejection.value);
      }
      scanId := scanId + 1;
      running, segments, progress := true, [], 0;
      total := q.endAddress - q.startAddress + 1;
      r := Ok(scanId);
    }

    method StopScan() returns (stopped: bool)
      modifies this`running, this`scanId
      ensures stopped == old(running) && State() == Apply(old(State()), Stop)
      ensures scanId == old(scanId) + (if stopped then 1 else 0) && !running
    {
      stopped := running;
      if running {
        scanId := scanId + 1;
        running := false;
      }
    }

    method BumpProgress(id: nat, count: int)
      modifies this`progress
      ensures State() == Apply(old(State()), Bump(id, count))
    {
      if scanId == id {
        progress := progress + count;
      }
    }

    method FinishScan(id: nat, merged: seq<Segment>)
      modifies this`segments, this`running
      ensures State() == Apply(old(State()), Finish(id, merged))
    {
      if scanId != id {
        return;
      }
      segments := merged;
      running := false;
    }

    /** Before this thread gets the lock, the others run what the schedule gives them. */
    method LetOthersRun(env: Env)
      modifies this
      ensures View() == Yield(env, old(View()))
    {
      var es := env.others(clock);
      var i := 0;
      while i < |es|
        invariant 0 <= i <= |es|
        invariant clock == old(clock) && issued == old(issued)
        invariant ApplyAll(State(), es[i..]) == ApplyAll(old(State()), es)
      {
        assert es[i..][1..] == es[i + 1..];
        match es[i] {
          case Start(n) =>
            scanId := scanId + 1;
            running, segments, progress, total := true, [], 0, n;
          case Stop => var _ := StopScan();
          case Bump(id, count) => BumpProgress(id, count);
          case Finish(id, segs) => FinishScan(id, segs);
        }
        i := i + 1;
      }
      clock := clock + 1;
    }

    method ProbeRange(env: Env, me: nat, max: int, start: int, end: int) returns (segs: seq<Segment>)
      requires 1 <= max && start <= end
      modifies this
      ensures var p := Probe(env, me, max, start, end, old(View())); View() == p.0 && segs == p.1
      decreases if end - start + 1 > max then 1 else 0, end - start, 1
    {
      hide Probe, ApplyAll;
      ghost var w := View();
      LetOthersRun(env);
      if scanId != me {
        ProbeStale(env, me, max, start, end, w);
        return [Segment(start, end, Stopped)];
      }
      var quantity := end - start + 1;
      if quantity > max {
        ProbeChunks(env, me, max, start, end, w);
        segs := ProbeByChunks(env, me, max, start, end);
        return;
      }
      var reply := env.reply(clock, start, quantity);
      issued := issued + [Read(start, quantity, reply, clock)];
      if reply.ok || quantity == 1 || !(EXCEPTION_PREFIX <= reply.message) {
        ProbeDoesNotSplit(env, me, max, start, end, w);
        LetOthersRun(env);
        BumpProgress(me, quantity);
        return [Segment(start, end, if reply.ok then Readable else Unreadable(reply.message))];
      }
      ProbeSplits(env, me, max, start, end, w);
      var mid := start + quantity / 2;
      var left := ProbeRange(env, me, max, start, mid - 1);
      var right := ProbeRange(env, me, max, mid, end);
      segs := left + right;
    }

    /** The loop of `_probe` over blocks of at most `max` addresses. */
    method ProbeByChunks(env: Env, me: nat, max: int, start: int, end: int) returns (segs: seq<Segment>)
      requires 1 <= max < end - start + 1
      modifies this
      ensures var p := Chunks(env, me, max, start, end, old(View())); View() == p.0 && segs == p.1
      decreases 1, end - start, 0
    {
      hide Probe;
      segs := [];
      var pos := start;
      while pos <= end
        invariant start <= pos <= end + 1
        invariant var whole, rest := Chunks(env, me, max, start, end, old(View())), Chunks(env, me, max, pos, end, View());
                  whole.0 == rest.0 && whole.1 == segs + rest.1
      {
        var chunkEnd := if pos + max - 1 <= end then pos + max - 1 else end;
        var chunk := ProbeRange(env, me, max, pos, chunkEnd);
        ghost var rest := Chunks(env, me, max, chunkEnd + 1, end, View());
        assert segs + (chunk + rest.1) == segs + chunk + rest.1;
        segs := segs + chunk;
        pos := chunkEnd + 1;
      }
    }

    method MergeSegments(segs: seq<Segment>) returns (merged: seq<Segment>)
      ensures merged == Merged(segs)
    {
      if segs == [] {
        return [];
      }
      var ordered := SortBy((seg: Segment) => seg.start, segs);
      merged := [];
      for i := 0 to |ordered|
        invariant merged == Absorbed(ordered[..i])
      {
        var seg := ordered[i];
        assert ordered[..i + 1][..i] == ordered[..i];
        if merged != [] && seg.start == merged[|merged| - 1].end + 1 && seg.outcome == merged[|merged| - 1].outcome {
          merged := merged[|merged| - 1 := merged[|merged| - 1].(end := seg.end)];
        } else {
          merged := merged + [seg];
        }
      }
      assert ordered[..|ordered|] == ordered;
    }

    /** The worker thread: probe, merge, commit if still current. */
    method Run(env: Env, me: nat, functionCode: int, start: int, end: int)
      requires 1 <= functionCode <= 4 && start <= end
      modifies this
      ensures View() == RunScan(env, me, ModbusClient.MaxQuantity(functionCode), start, end, old(View()))
    {
      var segs := ProbeRange(env, me, ModbusClient.MaxQuantity(functionCode), start, end);
      var merged := MergeSegments(segs);
      LetOthersRun(env);
      FinishScan(me, merged);
    }
  }
}
