/**
 The Modbus unit-ID scanner (backend/tools/modbus_unit_scan.py) as a step system: shared state, and any
 number of worker threads that each hold the id of their scan.  A step is one section under the lock.
 */
module UnitScan {
  import opened Folds
  import ModbusClient
  import opened Wrappers

  const MAX_UNIT_ID := 255
  const EXCEPTION_PREFIX := "Modbus exception"

  // ----- Probes -----

  /** What `modbus.read` returns for a probe. */
  datatype Reply = Accepted | Rejected(message: string)

  datatype Status = Responding | NoResponse

  datatype Row = Row(unit: int, status: Status, detail: string)

  /** `_classify`. */
  function Classify(unit: int, reply: Reply): Row {
    match reply
    case Accepted => Row(unit, Responding, "FC3 supported")
    case Rejected(message) => Row(unit, if EXCEPTION_PREFIX <= message then Responding else NoResponse, message)
  }

  /** What the scanner keeps of a call of the client. */
  function ReplyOf(e: ModbusClient.Ending): Reply {
    var message := ModbusClient.Message(e);
    if message == None then Accepted else Rejected(message.value)
  }

  /** A unit responds exactly when it has answered with data or with a Modbus exception. */
  lemma RespondsIff(unit: int, e: ModbusClient.Ending)
    requires !e.OsError?
    ensures Classify(unit, ReplyOf(e)).status == Responding <==> e.Answer? && !e.outcome.Failed?
  {
    ModbusClient.MessagesTell(e);
    hide ModbusClient.Message;
  }

  // ----- The protocol -----

  /** A request to scan, with the host already stripped; the timeout in tenths of a second. */
  datatype Request = Request(host: string, startUnit: int, endUnit: int, port: int, timeout: int)

  datatype Refusal = HostRequired | UnitRange | UnitOrder | PortRange | TimeoutRange

  /** The checks of `start`, in their order. */
  function Refused(r: Request): Option<Refusal> {
    if r.host == "" then Some(HostRequired)
    else if !(0 <= r.startUnit <= MAX_UNIT_ID) || !(0 <= r.endUnit <= MAX_UNIT_ID) then Some(UnitRange)
    else if r.startUnit > r.endUnit then Some(UnitOrder)
    else if !(1 <= r.port <= 65535) then Some(PortRange)
    else if !(1 <= r.timeout <= 100) then Some(TimeoutRange)
    else None
  }

  /** What is accepted, and the first fault of what is not. */
  lemma RefusedIff(r: Request)
    ensures var named, ranged, ordered := r.host != "", 0 <= r.startUnit <= 255 && 0 <= r.endUnit <= 255, r.startUnit <= r.endUnit;
            var reachable := 1 <= r.port <= 65535;
            && (Refused(r) == None <==> named && ranged && ordered && reachable && 1 <= r.timeout <= 100)
            && (Refused(r) == Some(HostRequired) <==> !named)
            && (Refused(r) == Some(UnitRange) <==> named && !ranged)
            && (Refused(r) == Some(UnitOrder) <==> named && ranged && !ordered)
            && (Refused(r) == Some(PortRange) <==> named && ranged && ordered && !reachable)
  {
  }

  /** Probes read one holding register at address 0; none of an accepted scan is refused by the checks of the client. */
  lemma ProbesAreAccepted(r: Request, unit: int)
    requires Refused(r) == None && r.startUnit <= unit <= r.endUnit
    ensures ModbusClient.Refused(r.host, unit, 3, 0, 1, r.port) == None
  {
  }

  datatype Target = Target(host: string, startUnit: int, endUnit: int)

  datatype Shared = Shared(
    running: bool,
    target: Option<Target>,
    scanId: nat,
    results: seq<Row>,
    progress: nat,
    total: int
  )

  /** Before checking the id for a unit; before storing its result; before the closing section; returned. */
  datatype Pc = AtCheck(unit: int) | AtCommit(unit: int) | AtFinish | Done

  datatype Worker = Worker(id: nat, startUnit: int, endUnit: int, pc: Pc)

  datatype System = System(shared: Shared, workers: seq<Worker>)

  datatype Event = Start(request: Request) | Stop | Turn(worker: nat)

  /** The outcome of probing a unit in the scan with some id. */
  type Device = (nat, int) -> Reply

  const IDLE := Shared(false, None, 0, [], 0, 0)
  const INITIAL := System(IDLE, [])

  function Started(s: Shared, r: Request): Shared {
    Shared(true, Some(Target(r.host, r.startUnit, r.endUnit)), s.scanId + 1, [], 0, r.endUnit - r.startUnit + 1)
  }

  function Stopped(s: Shared): Shared {
    if s.running then s.(scanId := s.scanId + 1, running := false) else s
  }

  function Stored(s: Shared, row: Row): Shared {
    s.(results := s.results + [row], progress := s.progress + 1)
  }

  /** The next section of a worker that is still current. */
  function AfterCommit(w: Worker, unit: int): Pc {
    if unit < w.endUnit then AtCheck(unit + 1) else AtFinish
  }

  function TakeTurn(sys: System, i: nat, device: Device): System
    requires i < |sys.workers|
  {
    var s, w := sys.shared, sys.workers[i];
    if s.scanId != w.id then System(s, sys.workers[i := w.(pc := Done)])
    else match w.pc
      case AtCheck(unit) => System(s, sys.workers[i := w.(pc := AtCommit(unit))])
      case AtCommit(unit) =>
        System(Stored(s, Classify(unit, device(w.id, unit))), sys.workers[i := w.(pc := AfterCommit(w, unit))])
      case AtFinish => System(s.(running := false), sys.workers[i := w.(pc := Done)])
      case Done => sys
  }

  function Step(sys: System, e: Event, device: Device): System {
    match e
    case Start(r) =>
      if Refused(r) != None then sys
      else
        var s := Started(sys.shared, r);
        System(s, sys.workers + [Worker(s.scanId, r.startUnit, r.endUnit, AtCheck(r.startUnit))])
    case Stop => sys.(shared := Stopped(sys.shared))
    case Turn(i) => if i < |sys.workers| then TakeTurn(sys, i, device) else sys
  }

  function Stepping(device: Device): (System, Event) -> System {
    (sys: System, e: Event) => Step(sys, e, device)
  }

  function Run(sys: System, events: seq<Event>, device: Device): System {
    Fold(Stepping(device), sys, events)
  }
  // ----- What every run keeps -----

  /** The classifications of the first `n` units of a scan. */
  ghost function Expected(device: Device, w: Worker, n: nat): (rows: seq<Row>)
    ensures |rows| == n
  {
    seq(n, k => Classify(w.startUnit + k, device(w.id, w.startUnit + k)))
  }

  ghost predicate WorkerOk(w: Worker) {
    w.startUnit <= w.endUnit && w.id > 0 &&
    match w.pc
    case AtCheck(unit) => w.startUnit <= unit <= w.endUnit
    case AtCommit(unit) => w.startUnit <= unit <= w.endUnit
    case _ => true
  }

  ghost predicate IdsIncrease(workers: seq<Worker>) {
    forall i, j :: 0 <= i < j < |workers| ==> workers[i].id < workers[j].id
  }

  /** The shared state belongs to the scan of the worker started last. */
  ghost predicate Belongs(s: Shared, w: Worker, device: Device) {
    && s.target != None && s.target.value.startUnit == w.startUnit && s.target.value.endUnit == w.endUnit
    && s.total == w.endUnit - w.startUnit + 1
    && s.progress <= s.total
    && s.results == Expected(device, w, s.progress)
    && (s.running ==> s.scanId == w.id && AtProgress(s, w))
    && (!s.running && s.scanId == w.id ==> w.pc == Done && s.progress == s.total)
  }

  ghost predicate AtProgress(s: Shared, w: Worker) {
    match w.pc
    case AtCheck(unit) => unit == w.startUnit + s.progress
    case AtCommit(unit) => unit == w.startUnit + s.progress
    case AtFinish => s.progress == s.total
    case Done => false
  }

  ghost predicate Inv(sys: System, device: Device) {
    var s, ws := sys.shared, sys.workers;
    && IdsIncrease(ws)
    && (forall i :: 0 <= i < |ws| ==> WorkerOk(ws[i]) && ws[i].id <= s.scanId)
    && (ws == [] ==> s == IDLE)
    && (ws != [] ==> Belongs(s, ws[|ws| - 1], device))
  }

  lemma ExpectedOneMore(device: Device, w: Worker, n: nat)
    ensures Expected(device, w, n + 1) == Expected(device, w, n) + [Classify(w.startUnit + n, device(w.id, w.startUnit + n))]
  {
  }

  lemma ExpectedElsewhere(device: Device, w: Worker, pc: Pc, n: nat)
    ensures Expected(device, w.(pc := pc), n) == Expected(device, w, n)
  {
  }

  lemma TurnKeepsInv(sys: System, i: nat, device: Device)
    requires Inv(sys, device) && i < |sys.workers|
    ensures Inv(TakeTurn(sys, i, device), device)
  {
    hide Expected, Classify;
    var s, w := sys.shared, sys.workers[i];
    var sys' := TakeTurn(sys, i, device);
    var ws, ws' := sys.workers, sys'.workers;
    assert forall j :: 0 <= j < |ws| ==> ws'[j] == if j == i then ws'[i] else ws[j];
    var last := ws[|ws| - 1];
    ExpectedElsewhere(device, last, ws'[|ws| - 1].pc, sys'.shared.progress);
    ExpectedOneMore(device, last, s.progress);
    if i < |ws| - 1 {
      assert ws[i].id < last.id;
    }
  }

  lemma StartKeepsInv(sys: System, r: Request, device: Device)
    requires Inv(sys, device)
    ensures Inv(Step(sys, Start(r), device), device)
  {
  }

  lemma StepKeepsInv(sys: System, e: Event, device: Device)
    requires Inv(sys, device)
    ensures Inv(Step(sys, e, device), device)
  {
    match e {
      case Start(r) => StartKeepsInv(sys, r, device);
      case Stop =>
      case Turn(i) =>
        if i < |sys.workers| {
          TurnKeepsInv(sys, i, device);
        }
    }
  }

  /** Under every interleaving of starts, stops and turns of any number of workers. */
  lemma {:induction false} RunKeepsInv(events: seq<Event>, device: Device)
    ensures Inv(Run(INITIAL, events, device), device)
    decreases |events|
  {
    if events != [] {
      RunKeepsInv(events[..|events| - 1], device);
      StepKeepsInv(Run(INITIAL, events[..|events| - 1], device), events[|events| - 1], device);
    }
  }

  /** What a row says of its unit. */
  ghost predicate Says(row: Row, unit: int, reply: Reply) {
    && row.unit == unit
    && (row.status == Responding <==> reply.Accepted? || "Modbus exception" <= reply.message)
    && row.detail == if reply.Accepted? then "FC3 supported" else reply.message
  }

  /**
   In every run the results are one row for each of the first units of the scan started last, in order, and
   each row says how the device answered the probe of that unit in that scan.
   */
  lemma RowsSay(events: seq<Event>, device: Device)
    ensures var sys := Run(INITIAL, events, device);
            |sys.shared.results| == sys.shared.progress &&
            forall k :: 0 <= k < sys.shared.progress ==>
              && sys.workers != []
              && var w := sys.workers[|sys.workers| - 1];
                 Says(sys.shared.results[k], w.startUnit + k, device(w.id, w.startUnit + k))
  {
    RunKeepsInv(events, device);
    var sys := Run(INITIAL, events, device);
    if sys.workers != [] {
      var w := sys.workers[|sys.workers| - 1];
      forall k | 0 <= k < sys.shared.progress
        ensures Says(sys.shared.results[k], w.startUnit + k, device(w.id, w.startUnit + k))
      {
        assert sys.shared.results[k] == Expected(device, w, sys.shared.progress)[k];
      }
    }
  }

  /** An accepted start supersedes every worker before it and begins with the first unit; a refused one does nothing. */
  lemma StartSupersedes(sys: System, r: Request, device: Device)
    requires Inv(sys, device)
    ensures var after := Step(sys, Start(r), device);
            if Refused(r) != None then after == sys
            else
              && after.shared.running && after.shared.target == Some(Target(r.host, r.startUnit, r.endUnit))
              && after.shared.results == [] && after.shared.progress == 0 && after.shared.total == r.endUnit - r.startUnit + 1
              && |after.workers| == |sys.workers| + 1 && after.workers[..|sys.workers|] == sys.workers
              && after.workers[|sys.workers|] == Worker(after.shared.scanId, r.startUnit, r.endUnit, AtCheck(r.startUnit))
              && forall i :: 0 <= i < |sys.workers| ==> sys.workers[i].id < after.shared.scanId
  {
  }

  /** A superseded worker changes nothing that is shared, and returns. */
  lemma StaleTurn(sys: System, i: nat, device: Device)
    requires i < |sys.workers| && sys.workers[i].id != sys.shared.scanId
    ensures TakeTurn(sys, i, device).shared == sys.shared && TakeTurn(sys, i, device).workers[i].pc == Done
  {
  }

  /** No two workers ever share an id. */
  lemma IdsAreUnique(sys: System, device: Device, i: nat, j: nat)
    requires Inv(sys, device) && i < |sys.workers| && j < |sys.workers| && sys.workers[i].id == sys.workers[j].id
    ensures i == j
  {
  }

  /** Once a scan is not running, whatever the leftover workers do changes nothing until the next start. */
  lemma {:induction false} IdleIsFrozen(sys: System, events: seq<Event>, device: Device)
    requires Inv(sys, device) && !sys.shared.running
    requires forall k :: 0 <= k < |events| ==> !events[k].Start?
    ensures Run(sys, events, device).shared == sys.shared && Inv(Run(sys, events, device), device)
    decreases |events|
  {
    if events != [] {
      var n := |events| - 1;
      IdleIsFrozen(sys, events[..n], device);
      var mid := Run(sys, events[..n], device);
      StepKeepsInv(mid, events[n], device);
      var e := events[n];
      if e.Turn? && e.worker < |mid.workers| && mid.workers[e.worker].id == mid.shared.scanId {
        CurrentIsLast(mid, e.worker, device);
      }
    }
  }

  lemma CurrentIsLast(sys: System, i: nat, device: Device)
    requires Inv(sys, device) && i < |sys.workers| && sys.workers[i].id == sys.shared.scanId
    ensures i == |sys.workers| - 1
  {
  }

  /** Stopping freezes results and progress, up to the next start. */
  lemma StopFreezes(sys: System, events: seq<Event>, device: Device)
    requires Inv(sys, device) && forall k :: 0 <= k < |events| ==> !events[k].Start?
    ensures var after := Run(Step(sys, Stop, device), events, device).shared;
            !after.running && after.results == sys.shared.results && after.progress == sys.shared.progress
  {
    StepKeepsInv(sys, Stop, device);
    IdleIsFrozen(Step(sys, Stop, device), events, device);
  }

  /** How many turns the current worker still needs. */
  ghost function Remaining(s: Shared, w: Worker): int {
    var left := s.total - s.progress;
    match w.pc
    case AtCheck(_) => 2 * left + 1
    case AtCommit(_) => 2 * left
    case AtFinish => 1
    case Done => 0
  }

  ghost function TurnsOf(events: seq<Event>, i: nat): nat {
    if events == [] then 0 else TurnsOf(events[..|events| - 1], i) + if events[|events| - 1] == Turn(i) then 1 else 0
  }

  /** Nothing but turns of workers happens. */
  ghost predicate OnlyTurns(events: seq<Event>) {
    forall k :: 0 <= k < |events| ==> events[k].Turn?
  }

  /** A turn of the current worker brings it one turn nearer to its end; the last one ends the scan. */
  lemma CurrentTurn(sys: System, device: Device)
    requires Inv(sys, device) && sys.shared.running
    ensures sys.workers != []
    ensures var last := |sys.workers| - 1;
            var after := TakeTurn(sys, last, device);
            var need := Remaining(sys.shared, sys.workers[last]);
            need > 0 && (if need == 1 then !after.shared.running && after.shared.progress == after.shared.total
                         else after.shared.running && Remaining(after.shared, after.workers[last]) == need - 1)
  {
    hide Expected, Classify;
  }

  lemma OtherTurn(sys: System, i: nat, device: Device)
    requires Inv(sys, device) && sys.shared.running && i < |sys.workers| - 1
    ensures var after := TakeTurn(sys, i, device);
            after.shared == sys.shared && after.workers[|sys.workers| - 1] == sys.workers[|sys.workers| - 1]
  {
    if sys.workers[i].id == sys.shared.scanId {
      CurrentIsLast(sys, i, device);
    }
  }

  lemma TurnShape(sys: System, i: nat, device: Device)
    requires i < |sys.workers|
    ensures var after := TakeTurn(sys, i, device);
            |after.workers| == |sys.workers| && after.shared.scanId == sys.shared.scanId && after.shared.total == sys.shared.total
  {
  }

  /** The scan of `sys` is over, or needs `need` more turns. */
  ghost predicate Needs(sys: System, need: int, device: Device) {
    && Inv(sys, device)
    && (need > 0 ==> sys.shared.running && sys.workers != [] && Remaining(sys.shared, sys.workers[|sys.workers| - 1]) == need)
    && (need <= 0 ==> !sys.shared.running && sys.shared.progress == sys.shared.total)
  }

  lemma NeedsOneTurn(sys: System, i: nat, need: int, device: Device)
    requires Needs(sys, need, device)
    ensures Needs(Step(sys, Turn(i), device), if i == |sys.workers| - 1 then need - 1 else need, device)
  {
    hide Remaining, Inv, TakeTurn;
    StepKeepsInv(sys, Turn(i), device);
    if i < |sys.workers| {
      TurnShape(sys, i, device);
      if need <= 0 {
        OneIdle(sys, i, device);
      } else if i == |sys.workers| - 1 {
        CurrentTurn(sys, device);
      } else {
        OtherTurn(sys, i, device);
      }
    }
  }

  lemma OneIdle(sys: System, i: nat, device: Device)
    requires Inv(sys, device) && !sys.shared.running
    ensures Step(sys, Turn(i), device).shared == sys.shared
  {
    IdleIsFrozen(sys, [Turn(i)], device);
    assert [Turn(i)][..0] == [];
    assert Run(sys, [], device) == sys;
    assert Run(sys, [Turn(i)], device) == Step(sys, Turn(i), device);
  }

  /**
   Natural completion: left alone, a scan is still running after fewer turns of its worker than it needs,
   and done with every unit after as many; turns of other workers do not matter.
   */
  lemma {:induction false} ScanCompletes(sys: System, events: seq<Event>, device: Device)
    requires Inv(sys, device) && sys.shared.running && OnlyTurns(events)
    ensures var last := |sys.workers| - 1;
            last >= 0 && |Run(sys, events, device).workers| == |sys.workers| &&
            Needs(Run(sys, events, device), Remaining(sys.shared, sys.workers[last]) - TurnsOf(events, last), device)
    decreases |events|
  {
    CurrentTurn(sys, device);
    hide Inv, Needs, TakeTurn, Remaining;
    if events == [] {
      NeedsNow(sys, device);
    } else {
      var n, last := |events| - 1, |sys.workers| - 1;
      ScanCompletes(sys, events[..n], device);
      var mid := Run(sys, events[..n], device);
      var i := events[n].worker;
      NeedsOneTurn(mid, i, Remaining(sys.shared, sys.workers[last]) - TurnsOf(events[..n], last), device);
      if i < |mid.workers| {
        TurnShape(mid, i, device);
      }
    }
  }

  lemma NeedsNow(sys: System, device: Device)
    requires Inv(sys, device) && sys.shared.running
    ensures sys.workers != [] && Needs(sys, Remaining(sys.shared, sys.workers[|sys.workers| - 1]), device)
  {
    CurrentTurn(sys, device);
    hide Inv, Remaining;
  }

  // ----- The module -----

  class UnitScanner {
    /** `modbus.read`, by scan and unit. */
    const device: Device
    var running: bool
    var target: Option<Target>
    var scanId: nat
    var results: seq<Row>
    var progress: nat
    var total: int
    /** The threads started so far. */
    var workers: seq<Worker>

    function Sys(): System
      reads this
    {
      System(Shared(running, target, scanId, results, progress, total), workers)
    }

    ghost predicate Valid()
      reads this
    {
      Inv(Sys(), device)
    }

    constructor (device: Device)
      ensures Valid() && Sys() == INITIAL && this.device == device
    {
      this.device := device;
      running, target, scanId, results, progress, total, workers := false, None, 0, [], 0, 0, [];
    }

    /** `start`; on acceptance the id of the new thread, which is the last of `workers`. */
    method StartScan(r: Request) returns (refusal: Option<Refusal>)
      requires Valid()
      modifies this
      ensures Valid() && Sys() == Step(old(Sys()), Start(r), device)
      ensures refusal == Refused(r)
    {
      refusal := Refused(r);
      if refusal != None {
        return;
      }
      StartKeepsInv(Sys(), r, device);
      var id := scanId + 1;
      running, target, scanId := true, Some(Target(r.host, r.startUnit, r.endUnit)), id;
      results, progress, total := [], 0, r.endUnit - r.startUnit + 1;
      workers := workers + [Worker(id, r.startUnit, r.endUnit, AtCheck(r.startUnit))];
    }

    /** `stop`; whether a scan was running. */
    method StopScan() returns (stopped: bool)
      requires Valid()
      modifies this
      ensures Valid() && Sys() == Step(old(Sys()), Stop, device) && stopped == old(running)
    {
      StepKeepsInv(Sys(), Stop, device);
      stopped := running;
      if running {
        scanId := scanId + 1;
        running := false;
      }
    }

    /** The section before a probe: whether the worker goes on. */
    method Check(i: nat, id: nat) returns (goOn: bool)
      requires Valid() && i < |workers| && workers[i].id == id && workers[i].pc.AtCheck?
      modifies this`workers
      ensures Valid() && Sys() == Step(old(Sys()), Turn(i), device) && goOn == (scanId == id)
      ensures workers == old(workers)[i := old(workers[i]).(pc := if goOn then AtCommit(old(workers[i].pc.unit)) else Done)]
    {
      TurnKeepsInv(Sys(), i, device);
      goOn := scanId == id;
      workers := workers[i := workers[i].(pc := if goOn then AtCommit(workers[i].pc.unit) else Done)];
    }

    /** The section behind a probe. */
    method Commit(i: nat, id: nat, unit: int, reply: Reply) returns (goOn: bool)
      requires Valid() && i < |workers| && workers[i].id == id && workers[i].pc == AtCommit(unit)
      requires reply == device(id, unit)
      modifies this
      ensures Valid() && Sys() == Step(old(Sys()), Turn(i), device) && goOn == (scanId == id)
      ensures workers == old(workers)[i := old(workers[i]).(pc := if goOn then AfterCommit(old(workers[i]), unit) else Done)]
    {
      TurnKeepsInv(Sys(), i, device);
      goOn := scanId == id;
      workers := workers[i := workers[i].(pc := if goOn then AfterCommit(workers[i], unit) else Done)];
      if goOn {
        results := results + [Classify(unit, reply)];
        progress := progress + 1;
      }
    }

    /** The closing section. */
    method Finish(i: nat, id: nat)
      requires Valid() && i < |workers| && workers[i].id == id && workers[i].pc == AtFinish
      modifies this
      ensures Valid() && Sys() == Step(old(Sys()), Turn(i), device)
      ensures workers == old(workers)[i := old(workers[i]).(pc := Done)]
    {
      TurnKeepsInv(Sys(), i, device);
      if scanId == id {
        running := false;
      }
      workers := workers[i := workers[i].(pc := Done)];
    }

    /** What other threads get in between two sections: starts, stops, and turns of other workers. */
    method LetOthersRun(events: seq<Event>, i: nat)
      requires Valid() && i < |workers| && Foreign(events, i)
      modifies this
      ensures Valid() && Sys() == Run(old(Sys()), events, device)
      ensures i < |workers| && workers[i] == old(workers[i])
    {
      hide Inv, Step, Fold;
      FoldNone(Stepping(device), Sys());
      assert events[..0] == [];
      for k := 0 to |events|
        invariant Valid() && Sys() == Run(old(Sys()), events[..k], device)
        invariant i < |workers| && workers[i] == old(workers[i])
      {
        FoldOne(Stepping(device), old(Sys()), events[..k], events[k]);
        OtherEvent(Sys(), events[k], i, device);
        assert events[..k + 1] == events[..k] + [events[k]];
        match events[k]
        case Start(request) => var _ := StartScan(request);
        case Stop => var _ := StopScan();
        case Turn(_) => PlayTurn(events[k]);
      }
      assert events[..|events|] == events;
    }

    /** A section of another worker. */
    method PlayTurn(e: Event)
      requires Valid() && e.Turn?
      modifies this
      ensures Valid() && Sys() == Step(old(Sys()), e, device)
    {
      hide Inv, Step;
      StepKeepsInv(Sys(), e, device);
      var after := Step(Sys(), e, device);
      running, target, scanId := after.shared.running, after.shared.target, after.shared.scanId;
      results, progress, total := after.shared.results, after.shared.progress, after.shared.total;
      workers := after.workers;
    }

    /** The worker has had its first `t` turns since `s`, and had not returned before any of them. */
    ghost predicate Ticked(s: System, others: nat -> seq<Event>, i: nat, t: nat)
      reads this
    {
      && Valid() && i < |workers|
      && Sys() == Fold(Stepping(device), s, Interleaved(others, TurnsAt(i), t))
      && Busy(s, others, i, t, device)
    }

    method BeforeTurn(ghost s: System, others: nat -> seq<Event>, i: nat, t: nat)
      requires Ticked(s, others, i, t) && ForeignAt(others, i)
      modifies this
      ensures Valid() && Sys() == StateAt(Stepping(device), s, others, TurnsAt(i), t)
      ensures i < |workers| && workers[i] == old(workers[i])
    {
      hide Inv, Fold;
      LetOthersRun(others(t), i);
    }

    /**
     `_run_scan` in thread `i`: the state it leaves is that of a run in which the turns of its worker, `turns`
     of them, alternate with whatever the others do, other workers included; the worker has then returned, and
     not before.
     */
    method RunScan(i: nat, startUnit: int, endUnit: int, id: nat, others: nat -> seq<Event>)
      returns (ghost turns: nat)
      requires Valid() && i < |workers| && workers[i] == Worker(id, startUnit, endUnit, AtCheck(startUnit)) && ForeignAt(others, i)
      modifies this
      ensures Valid() && Sys() == Run(old(Sys()), Interleaved(others, TurnsAt(i), turns), device)
      ensures i < |workers| && workers[i].pc == Done && Busy(old(Sys()), others, i, turns, device)
      ensures 1 <= turns <= 2 * (endUnit - startUnit + 1) + 1
    {
      hide Ticked, Valid, Inv, Step, Run, Fold, Interleaved, StateAt, Busy, Sys;
      ghost var s := Sys();
      ScanBegins(s, others, i);
      var tick := 0;
      for unit := startUnit to endUnit + 1
        invariant i < |workers| && Ticked(s, others, i, tick) && tick == 2 * (unit - startUnit)
        invariant workers[i] == Worker(id, startUnit, endUnit, if unit <= endUnit then AtCheck(unit) else AtFinish)
      {
        var goOn := TickCheck(s, others, i, tick, id);
        tick := tick + 1;
        if goOn {
          goOn := TickCommit(s, others, i, tick, id, unit);
          tick := tick + 1;
        }
        if !goOn {
          ScanEnds(s, others, i, tick);
          return tick;
        }
      }
      TickFinish(s, others, i, tick, id);
      turns := tick + 1;
      ScanEnds(s, others, i, turns);
    }

    lemma ScanBegins(s: System, others: nat -> seq<Event>, i: nat)
      requires Valid() && i < |workers| && s == Sys()
      ensures Ticked(s, others, i, 0) && workers[i].startUnit <= workers[i].endUnit
    {
      assert WorkerOk(workers[i]);
      NoTick(Stepping(device), s, others, TurnsAt(i));
    }

    lemma ScanEnds(s: System, others: nat -> seq<Event>, i: nat, t: nat)
      requires Ticked(s, others, i, t)
      ensures Valid() && Sys() == Run(s, Interleaved(others, TurnsAt(i), t), device) && Busy(s, others, i, t, device)
    {
    }

    method TickCheck(ghost s: System, others: nat -> seq<Event>, i: nat, t: nat, id: nat) returns (goOn: bool)
      requires Ticked(s, others, i, t) && ForeignAt(others, i) && workers[i].id == id && workers[i].pc.AtCheck?
      modifies this
      ensures i < |workers| && Ticked(s, others, i, t + 1)
      ensures workers[i] == old(workers[i]).(pc := if goOn then AtCommit(old(workers[i].pc.unit)) else Done)
    {
      hide Inv, Step, Fold, Interleaved, StateAt, Busy;
      BeforeTurn(s, others, i, t);
      TurnTaken(s, others, i, t, device);
      goOn := Check(i, id);
    }

    method TickCommit(ghost s: System, others: nat -> seq<Event>, i: nat, t: nat, id: nat, unit: int) returns (goOn: bool)
      requires Ticked(s, others, i, t) && ForeignAt(others, i) && workers[i].id == id && workers[i].pc == AtCommit(unit)
      modifies this
      ensures i < |workers| && Ticked(s, others, i, t + 1)
      ensures workers[i] == old(workers[i]).(pc := if goOn then AfterCommit(old(workers[i]), unit) else Done)
    {
      hide Inv, Step, Fold, Interleaved, StateAt, Busy;
      BeforeTurn(s, others, i, t);
      TurnTaken(s, others, i, t, device);
      goOn := Commit(i, id, unit, device(id, unit));
    }

    method TickFinish(ghost s: System, others: nat -> seq<Event>, i: nat, t: nat, id: nat)
      requires Ticked(s, others, i, t) && ForeignAt(others, i) && workers[i].id == id && workers[i].pc == AtFinish
      modifies this
      ensures i < |workers| && Ticked(s, others, i, t + 1) && workers[i] == old(workers[i]).(pc := Done)
    {
      hide Inv, Step, Fold, Interleaved, StateAt, Busy;
      BeforeTurn(s, others, i, t);
      TurnTaken(s, others, i, t, device);
      Finish(i, id);
    }
  }

  // ----- A worker's turns among what the others do -----

  /** No event is a turn of worker `i`. */
  ghost predicate Foreign(events: seq<Event>, i: nat) {
    forall k :: 0 <= k < |events| ==> events[k] != Turn(i)
  }

  ghost predicate ForeignAt(others: nat -> seq<Event>, i: nat) {
    forall t: nat :: Foreign(others(t), i)
  }

  function TurnsAt(i: nat): nat -> Event {
    (t: nat) => Turn(i)
  }

  lemma OtherEvent(sys: System, e: Event, i: nat, device: Device)
    requires e != Turn(i) && i < |sys.workers|
    ensures i < |Step(sys, e, device).workers| && Step(sys, e, device).workers[i] == sys.workers[i]
  {
  }

  ghost predicate Returned(sys: System, i: nat) {
    i < |sys.workers| && sys.workers[i].pc == Done
  }

  /** The worker had not returned before any of its first `n` turns. */
  ghost predicate Busy(s: System, others: nat -> seq<Event>, i: nat, n: nat, device: Device) {
    forall t :: 0 <= t < n ==> !Returned(StateAt(Stepping(device), s, others, TurnsAt(i), t), i)
  }

  lemma NotBusyYet(s: System, others: nat -> seq<Event>, i: nat, device: Device)
    ensures Busy(s, others, i, 0, device)
  {
  }

  lemma TurnTaken(s: System, others: nat -> seq<Event>, i: nat, t: nat, device: Device)
    ensures Fold(Stepping(device), s, Interleaved(others, TurnsAt(i), t + 1)) ==
            Step(StateAt(Stepping(device), s, others, TurnsAt(i), t), Turn(i), device)
    ensures Busy(s, others, i, t, device) && !Returned(StateAt(Stepping(device), s, others, TurnsAt(i), t), i) ==>
              Busy(s, others, i, t + 1, device)
  {
    hide Fold, Step, Interleaved;
    OneTick(Stepping(device), s, others, TurnsAt(i), t);
  }
}
