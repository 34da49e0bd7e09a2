/**
 The Modbus poller (backend/tools/modbus_poll.py): the worker protocol of a polling session, and its
 statistics against the replies of that session.  Times are in tenths of a millisecond.
 */
module ModbusPoll {
  import opened Folds
  import ModbusClient
  import opened Rounding
  import opened Wrappers

  // ----- Statistics -----

  /** What `modbus.read` returns. */
  datatype Reply = Reply(ok: bool, message: Option<string>, ms: Option<int>, values: Option<seq<int>>)

  datatype Stats = Stats(
    value: Option<int>,
    values: Option<seq<int>>,
    lastMs: Option<int>,
    lastMessage: Option<string>,
    requests: nat,
    successful: nat,
    timeouts: nat,
    exceptions: nat,
    minMs: Option<int>,
    avgMs: Option<int>,
    maxMs: Option<int>,
    sumMs: int,
    msCount: nat
  )

  const NO_STATS := Stats(None, None, None, None, 0, 0, 0, 0, None, None, None, 0, 0)

  const EXCEPTION_PREFIX := "Modbus exception"
  const TIMEOUT_WORD := "timeout"

  function MessageOf(r: Reply): string {
    if r.message == None then "" else r.message.value
  }

  predicate IsException(r: Reply) {
    !r.ok && EXCEPTION_PREFIX <= MessageOf(r)
  }

  predicate IsTimeout(r: Reply) {
    !r.ok && !IsException(r) && ModbusClient.Contains(MessageOf(r), TIMEOUT_WORD)
  }

  /** What the poller keeps of a call of the client. */
  function ReplyOf(e: ModbusClient.Ending, ms: Option<int>, values: Option<seq<int>>): Reply {
    Reply(ModbusClient.Message(e) == None, ModbusClient.Message(e), ms, values)
  }

  /** Exceptions are answers with a Modbus exception, timeouts are calls that have timed out. */
  lemma OutcomesAreThoseOfCalls(e: ModbusClient.Ending, ms: Option<int>, values: Option<seq<int>>)
    requires !e.OsError?
    ensures var r := ReplyOf(e, ms, values);
            && (r.ok <==> e.Answer? && e.outcome.Read?)
            && (IsException(r) <==> e.Answer? && e.outcome.Exception?)
            && (IsTimeout(r) <==> e.TimedOut?)
  {
    ModbusClient.MessagesTell(e);
    hide ModbusClient.Message, ModbusClient.Contains;
  }

  /** By their texts: a failed call counts as exception first, then as timeout, or as neither; so does one without a text. */
  lemma OutcomeIff(r: Reply)
    ensures IsException(r) <==> !r.ok && r.message != None && "Modbus exception" <= r.message.value
    ensures IsTimeout(r) <==> !r.ok && r.message != None && !("Modbus exception" <= r.message.value)
                              && ModbusClient.Contains(r.message.value, "timeout")
  {
    hide ModbusClient.Contains;
    if r.message == None {
      ModbusClient.Lacks("", "timeout", "timeout"[0]);
    }
  }

  function Least(a: Option<int>, b: int): int {
    if a == None || b < a.value then b else a.value
  }

  function Greatest(a: Option<int>, b: int): int {
    if a == None || b > a.value then b else a.value
  }

  function Timed(s: Stats, ms: int): Stats {
    s.(sumMs := s.sumMs + ms, msCount := s.msCount + 1, minMs := Some(Least(s.minMs, ms)),
       maxMs := Some(Greatest(s.maxMs, ms)), avgMs := Some(Rounded(s.sumMs + ms, s.msCount + 1)))
  }

  /** The section that stores a reply. */
  function Polled(s: Stats, r: Reply): Stats {
    var s1 := s.(requests := s.requests + 1, lastMs := r.ms, lastMessage := r.message);
    var s2 := if r.ms == None then s1 else Timed(s1, r.ms.value);
    if r.ok then
      s2.(successful := s2.successful + 1, values := r.values,
          value := if r.values == None || r.values.value == [] then None else Some(r.values.value[0]))
    else if IsException(r) then s2.(exceptions := s2.exceptions + 1)
    else if IsTimeout(r) then s2.(timeouts := s2.timeouts + 1)
    else s2
  }

  function StatsOf(h: seq<Reply>): Stats {
    if h == [] then NO_STATS else Polled(StatsOf(h[..|h| - 1]), h[|h| - 1])
  }

  // ----- What the statistics mean -----

  function CountWith(h: seq<Reply>, p: Reply -> bool): (n: nat)
    ensures n <= |h|
  {
    if h == [] then 0 else CountWith(h[..|h| - 1], p) + if p(h[|h| - 1]) then 1 else 0
  }

  function IsOk(r: Reply): bool {
    r.ok
  }

  function IsTimed(r: Reply): bool {
    r.ms != None
  }

  function SumMs(h: seq<Reply>): int {
    if h == [] then 0 else SumMs(h[..|h| - 1]) + if h[|h| - 1].ms == None then 0 else h[|h| - 1].ms.value
  }

  lemma {:induction false} CountersCount(h: seq<Reply>)
    ensures var s := StatsOf(h);
            s.requests == |h| && s.successful == CountWith(h, IsOk) && s.exceptions == CountWith(h, IsException) &&
            s.timeouts == CountWith(h, IsTimeout) && s.msCount == CountWith(h, IsTimed) && s.sumMs == SumMs(h)
    decreases |h|
  {
    hide Rounded, IsException, IsTimeout;
    if h != [] {
      CountersCount(h[..|h| - 1]);
      NotBoth(h[|h| - 1]);
    }
  }

  lemma NotBoth(r: Reply)
    ensures !(IsException(r) && IsTimeout(r)) && (r.ok ==> !IsException(r) && !IsTimeout(r))
  {
  }

  /** No reply is counted as more than one of success, exception and timeout. */
  lemma {:induction false} OutcomesAreDisjoint(h: seq<Reply>)
    ensures CountWith(h, IsOk) + CountWith(h, IsException) + CountWith(h, IsTimeout) <= |h|
    decreases |h|
  {
    hide IsException, IsTimeout;
    if h != [] {
      OutcomesAreDisjoint(h[..|h| - 1]);
      NotBoth(h[|h| - 1]);
    }
  }

  /** `m` is a sample that no other sample undercuts. */
  ghost predicate IsLeast(h: seq<Reply>, m: Option<int>) {
    && (m == None <==> forall i :: 0 <= i < |h| ==> h[i].ms == None)
    && (m != None ==> exists i :: 0 <= i < |h| && h[i].ms == m)
    && forall i :: 0 <= i < |h| && h[i].ms != None && m != None ==> m.value <= h[i].ms.value
  }

  ghost predicate IsGreatest(h: seq<Reply>, m: Option<int>) {
    && (m == None <==> forall i :: 0 <= i < |h| ==> h[i].ms == None)
    && (m != None ==> exists i :: 0 <= i < |h| && h[i].ms == m)
    && forall i :: 0 <= i < |h| && h[i].ms != None && m != None ==> m.value >= h[i].ms.value
  }

  lemma LeastOneMore(h: seq<Reply>, m: Option<int>, r: Reply)
    requires IsLeast(h, m)
    ensures IsLeast(h + [r], if r.ms == None then m else Some(Least(m, r.ms.value)))
  {
    var h', m' := h + [r], if r.ms == None then m else Some(Least(m, r.ms.value));
    assert h'[|h|] == r;
    if m' != None && m' == m {
      var i :| 0 <= i < |h| && h[i].ms == m;
      assert h'[i].ms == m';
    }
    if i :| 0 <= i < |h| && h[i].ms != None {
      assert h'[i].ms != None;
    }
  }

  lemma GreatestOneMore(h: seq<Reply>, m: Option<int>, r: Reply)
    requires IsGreatest(h, m)
    ensures IsGreatest(h + [r], if r.ms == None then m else Some(Greatest(m, r.ms.value)))
  {
    var h', m' := h + [r], if r.ms == None then m else Some(Greatest(m, r.ms.value));
    assert h'[|h|] == r;
    if m' != None && m' == m {
      var i :| 0 <= i < |h| && h[i].ms == m;
      assert h'[i].ms == m';
    }
    if i :| 0 <= i < |h| && h[i].ms != None {
      assert h'[i].ms != None;
    }
  }

  lemma PolledRange(s: Stats, r: Reply)
    ensures Polled(s, r).minMs == if r.ms == None then s.minMs else Some(Least(s.minMs, r.ms.value))
    ensures Polled(s, r).maxMs == if r.ms == None then s.maxMs else Some(Greatest(s.maxMs, r.ms.value))
    ensures Polled(s, r).avgMs == if r.ms == None then s.avgMs else Some(Rounded(s.sumMs + r.ms.value, s.msCount + 1))
  {
    hide Rounded, IsException, IsTimeout;
  }

  lemma {:induction false} RangeIsExact(h: seq<Reply>)
    ensures IsLeast(h, StatsOf(h).minMs) && IsGreatest(h, StatsOf(h).maxMs)
    decreases |h|
  {
    hide Polled, IsLeast, IsGreatest, Least, Greatest;
    if h == [] {
      NoSamples();
    } else {
      var n := |h| - 1;
      RangeIsExact(h[..n]);
      PolledRange(StatsOf(h[..n]), h[n]);
      LeastOneMore(h[..n], StatsOf(h[..n]).minMs, h[n]);
      GreatestOneMore(h[..n], StatsOf(h[..n]).maxMs, h[n]);
      assert h == h[..n] + [h[n]];
    }
  }

  lemma NoSamples()
    ensures IsLeast([], NO_STATS.minMs) && IsGreatest([], NO_STATS.maxMs)
  {
  }

  /** The average is that of all samples, rounded. */
  lemma {:induction false} AverageIsExact(h: seq<Reply>)
    ensures StatsOf(h).avgMs == if CountWith(h, IsTimed) == 0 then None else Some(Rounded(SumMs(h), CountWith(h, IsTimed)))
    decreases |h|
  {
    hide Polled, Rounded;
    if h != [] {
      var n := |h| - 1;
      AverageIsExact(h[..n]);
      CountersCount(h[..n]);
      PolledRange(StatsOf(h[..n]), h[n]);
    }
  }

  lemma {:induction false} SumBetween(h: seq<Reply>, lo: int, hi: int)
    requires forall i :: 0 <= i < |h| && h[i].ms != None ==> lo <= h[i].ms.value <= hi
    ensures lo * CountWith(h, IsTimed) <= SumMs(h) <= hi * CountWith(h, IsTimed)
    decreases |h|
  {
    if h != [] {
      var n := |h| - 1;
      SumBetween(h[..n], lo, hi);
      if h[n].ms != None {
        SampleBetween(lo, hi, lo, hi, SumMs(h[..n]), CountWith(h[..n], IsTimed), h[n].ms.value);
        NoneSumsZero(h[..n]);
      }
    }
  }

  lemma {:induction false} NoneSumsZero(h: seq<Reply>)
    ensures CountWith(h, IsTimed) == 0 ==> SumMs(h) == 0
    decreases |h|
  {
    if h != [] {
      NoneSumsZero(h[..|h| - 1]);
    }
  }

  lemma {:induction false} NoneTimedIff(h: seq<Reply>)
    ensures CountWith(h, IsTimed) == 0 <==> forall i :: 0 <= i < |h| ==> h[i].ms == None
    decreases |h|
  {
    if h != [] {
      var n := |h| - 1;
      NoneTimedIff(h[..n]);
      assert forall i :: 0 <= i < n ==> h[..n][i] == h[i];
    }
  }

  /** The ordering every session keeps: counts that add up, and an average between the extremes. */
  lemma StatsAreOrdered(h: seq<Reply>)
    ensures var s := StatsOf(h);
            s.successful + s.timeouts + s.exceptions <= s.requests && s.msCount <= s.requests &&
            (s.msCount > 0 <==> s.minMs != None) && (s.msCount > 0 <==> s.maxMs != None) && (s.msCount > 0 <==> s.avgMs != None) &&
            (s.msCount > 0 ==> s.minMs.value <= s.avgMs.value <= s.maxMs.value)
  {
    hide Rounded, Polled, StatsOf, IsException, IsTimeout;
    CountersCount(h);
    OutcomesAreDisjoint(h);
    RangeIsExact(h);
    AverageIsExact(h);
    NoneTimedIff(h);
    var s := StatsOf(h);
    if s.msCount > 0 {
      SumBetween(h, s.minMs.value, s.maxMs.value);
      RoundedBetween(s.minMs.value, s.maxMs.value, s.sumMs, s.msCount);
    }
  }

  /** The latest successful reply. */
  function LastOk(h: seq<Reply>): Option<Reply> {
    if h == [] then None else if h[|h| - 1].ok then Some(h[|h| - 1]) else LastOk(h[..|h| - 1])
  }

  /** Response time and message are those of the last reply, the values those of the last successful one. */
  lemma {:induction false} LatestFields(h: seq<Reply>)
    ensures var s := StatsOf(h);
            && (h != [] ==> s.lastMs == h[|h| - 1].ms && s.lastMessage == h[|h| - 1].message)
            && s.values == (if LastOk(h) == None then None else LastOk(h).value.values)
            && s.value == if s.values == None || s.values.value == [] then None else Some(s.values.value[0])
    decreases |h|
  {
    hide Rounded, IsException, IsTimeout;
    if h != [] {
      LatestFields(h[..|h| - 1]);
    }
  }

  /** The failure rate of `status`, in tenths of a percent. */
  function FailureRate(s: Stats): Option<int>
    requires s.successful <= s.requests
  {
    if s.requests == 0 then None else Some(Rounded(1000 * (s.requests - s.successful), s.requests))
  }

  lemma FailureRateIsRate(h: seq<Reply>)
    ensures StatsOf(h).successful <= StatsOf(h).requests
    ensures h != [] ==> FailureRate(StatsOf(h)) != None && 0 <= FailureRate(StatsOf(h)).value <= 1000
  {
    hide Rounded, StatsOf;
    CountersCount(h);
    if h != [] {
      RoundedBetween(0, 1000, 1000 * (|h| - CountWith(h, IsOk)), |h|);
    }
  }

  // ----- The protocol -----

  /** A request to poll, with the host already stripped. */
  datatype Params = Params(host: string, port: int, unitId: int, functionCode: int, address: int, quantity: int, interval: int)

  datatype Refusal = HostRequired | FunctionCode | UnitRange | AddressRange | QuantityRange | PortRange | IntervalRange

  const MIN_INTERVAL := 200
  const MAX_INTERVAL := 60000

  /** The checks of `start`, in their order. */
  function Refused(p: Params): Option<Refusal> {
    if p.host == "" then Some(HostRequired)
    else if !(1 <= p.functionCode <= 4) then Some(FunctionCode)
    else if !(0 <= p.unitId <= 255) then Some(UnitRange)
    else if !(0 <= p.address <= 0xffff) then Some(AddressRange)
    else if !(1 <= p.quantity <= 125) then Some(QuantityRange)
    else if !(1 <= p.port <= 65535) then Some(PortRange)
    else if !(MIN_INTERVAL <= p.interval <= MAX_INTERVAL) then Some(IntervalRange)
    else None
  }

  /** What is accepted, and the first fault of what is not. */
  lemma RefusedIff(p: Params)
    ensures var named, coded, unit := p.host != "", p.functionCode in {1, 2, 3, 4}, 0 <= p.unitId <= 255;
            var addressed, sized, reachable := 0 <= p.address <= 65535, 1 <= p.quantity <= 125, 1 <= p.port <= 65535;
            && (Refused(p) == None <==>
                  named && coded && unit && addressed && sized && reachable && 200 <= p.interval <= 60_000)
            && (Refused(p) == Some(HostRequired) <==> !named)
            && (Refused(p) == Some(FunctionCode) <==> named && !coded)
            && (Refused(p) == Some(UnitRange) <==> named && coded && !unit)
            && (Refused(p) == Some(AddressRange) <==> named && coded && unit && !addressed)
            && (Refused(p) == Some(QuantityRange) <==> named && coded && unit && addressed && !sized)
            && (Refused(p) == Some(PortRange) <==> named && coded && unit && addressed && sized && !reachable)
  {
  }

  /** No poll of an accepted request is refused by the checks of the client it calls. */
  lemma PollsAreAccepted(p: Params)
    requires Refused(p) == None
    ensures ModbusClient.Refused(p.host, p.unitId, p.functionCode, p.address, p.quantity, p.port) == None
  {
  }

  datatype Shared = Shared(running: bool, params: Option<Params>, sessionId: nat, stats: Stats)

  /** Before the check of the id, before storing a reply, or returned. */
  datatype Pc = AtCheck | AtCommit | Done

  /** `polls` counts the replies a worker has stored. */
  datatype Worker = Worker(id: nat, polls: nat, pc: Pc)

  datatype System = System(shared: Shared, workers: seq<Worker>)

  datatype Event = Start(params: Params) | Stop | Turn(worker: nat)

  /** The reply to a poll of a session: the first is number 0. */
  type Device = (nat, nat) -> Reply

  const IDLE := Shared(false, None, 0, NO_STATS)
  const INITIAL := System(IDLE, [])

  function TakeTurn(sys: System, i: nat, device: Device): System
    requires i < |sys.workers|
  {
    var s, w := sys.shared, sys.workers[i];
    if s.sessionId != w.id then System(s, sys.workers[i := w.(pc := Done)])
    else match w.pc
      case AtCheck => System(s, sys.workers[i := w.(pc := AtCommit)])
      case AtCommit =>
        System(s.(stats := Polled(s.stats, device(w.id, w.polls))), sys.workers[i := w.(polls := w.polls + 1, pc := AtCheck)])
      case Done => sys
  }

  function Step(sys: System, e: Event, device: Device): System {
    match e
    case Start(p) =>
      if Refused(p) != None then sys
      else
        var id := sys.shared.sessionId + 1;
        System(Shared(true, Some(p), id, NO_STATS), sys.workers + [Worker(id, 0, AtCheck)])
    case Stop =>
      if sys.shared.running then sys.(shared := sys.shared.(sessionId := sys.shared.sessionId + 1, running := false)) else sys
    case Turn(i) => if i < |sys.workers| then TakeTurn(sys, i, device) else sys
  }

  function Stepping(device: Device): (System, Event) -> System {
    (sys: System, e: Event) => Step(sys, e, device)
  }

  function Run(sys: System, events: seq<Event>, device: Device): System {
    Fold(Stepping(device), sys, events)
  }
  /** The first `n` replies of a session. */
  ghost function Replies(device: Device, id: nat, n: nat): (h: seq<Reply>)
    ensures |h| == n
  {
    seq(n, k requires k >= 0 => device(id, k))
  }

  /** The shared statistics are those of the worker started last, over exactly the replies it has stored. */
  ghost predicate Belongs(s: Shared, w: Worker, device: Device) {
    && s.params != None
    && (s.running <==> s.sessionId == w.id)
    && (s.running ==> w.pc != Done)
    && s.stats == StatsOf(Replies(device, w.id, w.polls))
  }

  ghost predicate Inv(sys: System, device: Device) {
    var s, ws := sys.shared, sys.workers;
    && (forall i, j :: 0 <= i < j < |ws| ==> ws[i].id < ws[j].id)
    && (forall i :: 0 <= i < |ws| ==> 0 < ws[i].id <= s.sessionId)
    && (ws == [] ==> s == IDLE)
    && (ws != [] ==> Belongs(s, ws[|ws| - 1], device))
  }

  lemma StatsOneMore(device: Device, id: nat, n: nat)
    ensures StatsOf(Replies(device, id, n + 1)) == Polled(StatsOf(Replies(device, id, n)), device(id, n))
  {
    assert Replies(device, id, n + 1)[..n] == Replies(device, id, n);
  }

  lemma TurnKeepsInv(sys: System, i: nat, device: Device)
    requires Inv(sys, device) && i < |sys.workers|
    ensures Inv(TakeTurn(sys, i, device), device)
  {
    hide StatsOf, Polled, Replies;
    var w := sys.workers[i];
    StatsOneMore(device, w.id, w.polls);
    var ws, ws' := sys.workers, TakeTurn(sys, i, device).workers;
    assert forall j :: 0 <= j < |ws| ==> ws'[j] == if j == i then ws'[i] else ws[j];
  }

  lemma StepKeepsInv(sys: System, e: Event, device: Device)
    requires Inv(sys, device)
    ensures Inv(Step(sys, e, device), device)
  {
    hide Polled;
    match e {
      case Start(p) =>
      case Stop =>
      case Turn(i) =>
        if i < |sys.workers| {
          TurnKeepsInv(sys, i, device);
        }
    }
  }

  /** Under every interleaving of starts, stops and turns of any number of workers. */
  lemma {:induction false} RunKeepsInv(events: seq<Event>, device: Device)
    ensures Inv(Run(INITIAL, events, device), device)
    decreases |events|
  {
    hide Step, Inv;
    if events == [] {
      InitialInv(device);
    } else {
      RunKeepsInv(events[..|events| - 1], device);
      StepKeepsInv(Run(INITIAL, events[..|events| - 1], device), events[|events| - 1], device);
    }
  }

  lemma InitialInv(device: Device)
    ensures Inv(INITIAL, device)
  {
  }

  /** An accepted start supersedes every worker before it and clears the statistics; a refused one does nothing. */
  lemma StartSupersedes(sys: System, p: Params, device: Device)
    requires Inv(sys, device)
    ensures var after := Step(sys, Start(p), device);
            if Refused(p) != None then after == sys
            else
              && after.shared.running && after.shared.params == Some(p)
              && after.shared.stats == Stats(None, None, None, None, 0, 0, 0, 0, None, None, None, 0, 0)
              && |after.workers| == |sys.workers| + 1 && after.workers[..|sys.workers|] == sys.workers
              && after.workers[|sys.workers|] == Worker(after.shared.sessionId, 0, AtCheck)
              && forall i :: 0 <= i < |sys.workers| ==> sys.workers[i].id < after.shared.sessionId
  {
  }

  /** A superseded worker changes nothing that is shared, and returns. */
  lemma StaleTurn(sys: System, i: nat, device: Device)
    requires i < |sys.workers| && sys.workers[i].id != sys.shared.sessionId
    ensures TakeTurn(sys, i, device).shared == sys.shared && TakeTurn(sys, i, device).workers[i].pc == Done
  {
  }

  /** Once polling is stopped, nothing changes until the next start. */
  lemma {:induction false} StopFreezes(sys: System, events: seq<Event>, device: Device)
    requires Inv(sys, device) && forall k :: 0 <= k < |events| ==> !events[k].Start?
    ensures var stopped := Step(sys, Stop, device);
            !stopped.shared.running && stopped.shared.stats == sys.shared.stats &&
            Run(stopped, events, device).shared == stopped.shared && Inv(Run(stopped, events, device), device)
    decreases |events|
  {
    hide StatsOf, Replies, Polled;
    var stopped := Step(sys, Stop, device);
    if events == [] {
      StepKeepsInv(sys, Stop, device);
    } else {
      var n := |events| - 1;
      StopFreezes(sys, events[..n], device);
      IdleStep(Run(stopped, events[..n], device), events[n], device);
      StepKeepsInv(Run(stopped, events[..n], device), events[n], device);
    }
  }

  lemma IdleStep(sys: System, e: Event, device: Device)
    requires Inv(sys, device) && !sys.shared.running && !e.Start?
    ensures Step(sys, e, device).shared == sys.shared
  {
    var ws := sys.workers;
    if e.Turn? && e.worker < |ws| - 1 {
      assert ws[e.worker].id < ws[|ws| - 1].id;
    }
  }

  ghost function TurnsOf(events: seq<Event>, i: nat): nat {
    if events == [] then 0 else TurnsOf(events[..|events| - 1], i) + if events[|events| - 1] == Turn(i) then 1 else 0
  }

  /** How often a worker has had its turn: twice for each reply it has stored. */
  function Taken(w: Worker): nat {
    2 * w.polls + if w.pc == AtCommit then 1 else 0
  }

  lemma OneTurn(sys: System, i: nat, device: Device)
    requires Inv(sys, device) && sys.shared.running && sys.workers != []
    ensures var last, after := |sys.workers| - 1, Step(sys, Turn(i), device);
            && Inv(after, device) && after.shared.running && |after.workers| == |sys.workers|
            && Taken(after.workers[last]) == Taken(sys.workers[last]) + if i == last then 1 else 0
  {
    StepKeepsInv(sys, Turn(i), device);
    hide StatsOf, Replies, Polled;
    var ws := sys.workers;
    if i < |ws| - 1 {
      assert ws[i].id < ws[|ws| - 1].id;
    }
  }

  /** Polling that is left alone goes on: with every second turn of its worker the statistics have one reply more. */
  lemma {:induction false} TurnsPoll(sys: System, events: seq<Event>, device: Device)
    requires Inv(sys, device) && sys.shared.running && sys.workers != []
    requires forall k :: 0 <= k < |events| ==> events[k].Turn?
    ensures var last, after := |sys.workers| - 1, Run(sys, events, device);
            && Inv(after, device) && after.shared.running && |after.workers| == |sys.workers|
            && Taken(after.workers[last]) == Taken(sys.workers[last]) + TurnsOf(events, last)
            && after.shared.stats.requests == after.workers[last].polls
    decreases |events|
  {
    hide Step, Inv, Taken;
    if events == [] {
      RequestsArePolls(sys, device);
    } else {
      var n := |events| - 1;
      TurnsPoll(sys, events[..n], device);
      OneTurn(Run(sys, events[..n], device), events[n].worker, device);
      RequestsArePolls(Run(sys, events, device), device);
    }
  }

  lemma RequestsArePolls(sys: System, device: Device)
    requires Inv(sys, device) && sys.workers != []
    ensures sys.shared.stats.requests == sys.workers[|sys.workers| - 1].polls
  {
    var w := sys.workers[|sys.workers| - 1];
    CountersCount(Replies(device, w.id, w.polls));
  }

  // ----- The module -----

  class Poller {
    /** `modbus.read`, by session and poll. */
    const device: Device
    var running: bool
    var params: Option<Params>
    var sessionId: nat
    var stats: Stats
    /** The threads started so far. */
    var workers: seq<Worker>

    function Sys(): System
      reads this
    {
      System(Shared(running, params, sessionId, stats), workers)
    }

    ghost predicate Valid()
      reads this
    {
      Inv(Sys(), device)
    }

    constructor (device: Device)
      ensures Valid() && Sys() == INITIAL && this.device == device
    {
      this.device := device;
      running, params, sessionId, stats, workers := false, None, 0, NO_STATS, [];
    }

    /** `start`; on acceptance the new thread is the last of `workers`. */
    method StartPolling(p: Params) returns (refusal: Option<Refusal>)
      requires Valid()
      modifies this
      ensures Valid() && Sys() == Step(old(Sys()), Start(p), device)
      ensures refusal == Refused(p)
    {
      hide Inv;
      refusal := Refused(p);
      StepKeepsInv(Sys(), Start(p), device);
      if refusal != None {
        return;
      }
      var id := sessionId + 1;
      running, params, sessionId, stats := true, Some(p), id, NO_STATS;
      workers := workers + [Worker(id, 0, AtCheck)];
    }

    /** `stop`; whether polling was on. */
    method StopPolling() returns (stopped: bool)
      requires Valid()
      modifies this
      ensures Valid() && Sys() == Step(old(Sys()), Stop, device) && stopped == old(running)
    {
      hide Inv;
      StepKeepsInv(Sys(), Stop, device);
      stopped := running;
      if running {
        sessionId := sessionId + 1;
        running := false;
      }
    }

    /** The section before a poll: whether the worker goes on. */
    method Check(i: nat, id: nat) returns (goOn: bool)
      requires Valid() && i < |workers| && workers[i].id == id && workers[i].pc == AtCheck
      modifies this`workers
      ensures Valid() && Sys() == Step(old(Sys()), Turn(i), device) && goOn == (sessionId == id)
      ensures workers == old(workers)[i := old(workers[i]).(pc := if goOn then AtCommit else Done)]
    {
      hide Inv;
      StepKeepsInv(Sys(), Turn(i), device);
      goOn := sessionId == id;
      workers := workers[i := workers[i].(pc := if goOn then AtCommit else Done)];
    }

    /** The section behind a poll. */
    method Commit(i: nat, id: nat, r: Reply) returns (goOn: bool)
      requires Valid() && i < |workers| && workers[i].id == id && workers[i].pc == AtCommit
      requires r == device(id, workers[i].polls)
      modifies this
      ensures Valid() && Sys() == Step(old(Sys()), Turn(i), device) && goOn == (sessionId == id)
      ensures workers == old(workers)[i := if goOn then Worker(id, old(workers[i].polls) + 1, AtCheck) else old(workers[i]).(pc := Done)]
    {
      hide Inv, Polled;
      StepKeepsInv(Sys(), Turn(i), device);
      goOn := sessionId == id;
      if !goOn {
        workers := workers[i := workers[i].(pc := Done)];
        return;
      }
      stats := Polled(stats, r);
      workers := workers[i := Worker(id, workers[i].polls + 1, AtCheck)];
    }

    /** What other threads get in between two sections: starts, stops, and turns of other workers. */
    method LetOthersRun(events: seq<Event>, i: nat)
      requires Valid() && i < |workers| && Foreign(events, i)
      modifies this
      ensures Valid() && Sys() == Run(old(Sys()), events, device)
      ensures i < |workers| && workers[i] == old(workers[i])
    {
      hide Inv, Step, Fold;
      FoldNone(Stepping(device), Sys());
      assert events[..0] == [];
      for k := 0 to |events|
        invariant Valid() && Sys() == Run(old(Sys()), events[..k], device)
        invariant i < |workers| && workers[i] == old(workers[i])
      {
        FoldOne(Stepping(device), old(Sys()), events[..k], events[k]);
        OtherEvent(Sys(), events[k], i, device);
        assert events[..k + 1] == events[..k] + [events[k]];
        match events[k]
        case Start(request) => var _ := StartPolling(request);
        case Stop => var _ := StopPolling();
        case Turn(_) => PlayTurn(events[k]);
      }
      assert events[..|events|] == events;
    }

    /** A section of another worker. */
    method PlayTurn(e: Event)
      requires Valid() && e.Turn?
      modifies this
      ensures Valid() && Sys() == Step(old(Sys()), e, device)
    {
      hide Inv, Step;
      StepKeepsInv(Sys(), e, device);
      var after := Step(Sys(), e, device);
      running, params, sessionId := after.shared.running, after.shared.params, after.shared.sessionId;
      stats, workers := after.shared.stats, after.workers;
    }

    /** The worker has had its first `t` turns since `s`, and had not returned before any of them. */
    ghost predicate Ticked(s: System, others: nat -> seq<Event>, i: nat, t: nat)
      reads this
    {
      && Valid() && i < |workers|
      && Sys() == Fold(Stepping(device), s, Interleaved(others, TurnsAt(i), t))
      && Busy(s, others, i, t, device)
    }

    method BeforeTurn(ghost s: System, others: nat -> seq<Event>, i: nat, t: nat)
      requires Ticked(s, others, i, t) && ForeignAt(others, i)
      modifies this
      ensures Valid() && Sys() == StateAt(Stepping(device), s, others, TurnsAt(i), t)
      ensures i < |workers| && workers[i] == old(workers[i])
    {
      hide Inv, Fold;
      LetOthersRun(others(t), i);
    }

    /**
     The first `rounds` rounds of `_poll_loop` in thread `i`: the state it leaves is that of a run in which
     the turns of its worker alternate with whatever the others do, other workers included: two turns for
     each round, unless the worker has returned, and none after that.
     */
    method PollLoop(i: nat, id: nat, rounds: nat, others: nat -> seq<Event>) returns (ghost turns: nat)
      requires Valid() && i < |workers| && workers[i] == Worker(id, 0, AtCheck) && ForeignAt(others, i)
      modifies this
      ensures Valid() && Sys() == Run(old(Sys()), Interleaved(others, TurnsAt(i), turns), device)
      ensures i < |workers| && Busy(old(Sys()), others, i, turns, device) && turns <= 2 * rounds
      ensures workers[i].pc == Done || (turns == 2 * rounds && workers[i] == Worker(id, rounds, AtCheck))
    {
      hide Inv, Step, Fold, Interleaved, StateAt, Busy;
      ghost var s := Sys();
      NoTick(Stepping(device), s, others, TurnsAt(i));
      NotBusyYet(s, others, i, device);
      for polls := 0 to rounds
        invariant Ticked(s, others, i, 2 * polls) && workers[i] == Worker(id, polls, AtCheck)
      {
        BeforeTurn(s, others, i, 2 * polls);
        TurnTaken(s, others, i, 2 * polls, device);
        var goOn := Check(i, id);
        if !goOn {
          return 2 * polls + 1;
        }
        BeforeTurn(s, others, i, 2 * polls + 1);
        TurnTaken(s, others, i, 2 * polls + 1, device);
        goOn := Commit(i, id, device(id, polls));
        if !goOn {
          return 2 * polls + 2;
        }
      }
      turns := 2 * rounds;
    }
  }

  // ----- A worker's turns among what the others do -----

  /** No event is a turn of worker `i`. */
  ghost predicate Foreign(events: seq<Event>, i: nat) {
    forall k :: 0 <= k < |events| ==> events[k] != Turn(i)
  }

  ghost predicate ForeignAt(others: nat -> seq<Event>, i: nat) {
    forall t: nat :: Foreign(others(t), i)
  }

  function TurnsAt(i: nat): nat -> Event {
    (t: nat) => Turn(i)
  }

  lemma OtherEvent(sys: System, e: Event, i: nat, device: Device)
    requires e != Turn(i) && i < |sys.workers|
    ensures i < |Step(sys, e, device).workers| && Step(sys, e, device).workers[i] == sys.workers[i]
  {
  }

  ghost predicate Returned(sys: System, i: nat) {
    i < |sys.workers| && sys.workers[i].pc == Done
  }

  /** The worker had not returned before any of its first `n` turns. */
  ghost predicate Busy(s: System, others: nat -> seq<Event>, i: nat, n: nat, device: Device) {
    forall t :: 0 <= t < n ==> !Returned(StateAt(Stepping(device), s, others, TurnsAt(i), t), i)
  }

  lemma NotBusyYet(s: System, others: nat -> seq<Event>, i: nat, device: Device)
    ensures Busy(s, others, i, 0, device)
  {
  }

  lemma TurnTaken(s: System, others: nat -> seq<Event>, i: nat, t: nat, device: Device)
    ensures Fold(Stepping(device), s, Interleaved(others, TurnsAt(i), t + 1)) ==
            Step(StateAt(Stepping(device), s, others, TurnsAt(i), t), Turn(i), device)
    ensures Busy(s, others, i, t, device) && !Returned(StateAt(Stepping(device), s, others, TurnsAt(i), t), i) ==>
              Busy(s, others, i, t + 1, device)
  {
    hide Fold, Step, Interleaved;
    OneTick(Stepping(device), s, others, TurnsAt(i), t);
  }
}
