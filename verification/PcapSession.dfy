/**
 Capture sessions (backend/capture/pcap.py): rotation, supersession and process ownership.

 A system state holds the lock-protected `_state`, one entry for each session thread and each
 `start()` call in flight, and the tcpdump processes.  A step is one lock section or one stretch of
 code between two of them; a run interleaves steps freely.
 */
module PcapSession {
  import opened Wrappers

  type ProcId = nat

  // ----- State -----

  /** The fields of `_state` that the protocol uses; `part` stands for the file name too. */
  datatype Session = Session(running: bool, process: Option<ProcId>, part: nat, id: nat, stopRequested: bool)

  /** Where a session thread is; the flags are the local variables it has read so far. */
  datatype Pc =
    | Polling                           // about to take the lock of the inner loop
    | Deciding(stopSeen: bool)          // looks at the process, the deadline and the file size
    | Stopping(finishing: bool)         // SIGTERM, wait, prune
    | Settling(finishing: bool)         // about to take the lock after pruning
    | Spawning                          // starts the next part
    | Publishing(spawned: Option<ProcId>) // about to take the lock after spawning
    | Returned

  /** `process` is the part last published; `owned` are all the processes the thread ever had. */
  datatype Worker = Worker(id: nat, pc: Pc, process: ProcId, part: nat, owned: set<ProcId>)

  /** A `start()` call: its id is computed in the first lock section, stored in the second. */
  datatype Starter =
    | Preparing(id: nat)
    | Checking(id: nat, process: ProcId)
    | Accepted(id: nat, process: ProcId)

  /** `exited` processes ended by themselves; `signalled` ones were sent SIGTERM by `start` or `stop`. */
  datatype State = State(session: Session, workers: seq<Worker>, starters: seq<Starter>,
                         alive: set<ProcId>, nextProc: ProcId, exited: set<ProcId>, signalled: set<ProcId>)

  datatype Action =
    | StartBegin
    | StartSpawn(k: nat, ok: bool)
    | StartPoll(k: nat)
    | StartCommit(k: nat)
    | Stop
    | Work(i: nat, timedOut: bool, oversize: bool, spawnOk: bool)
    | Exit(p: ProcId) // a process ends by itself
    | Obey(p: ProcId) // a process ends because `start` or `stop` has signalled it

  const IDLE := State(Session(false, None, 0, 0, false), [], [], {}, 0, {}, {})

  // ----- Lock sections -----

  /** Result of the poll section: None when superseded, else the stop flag. */
  function PollSection(s: Session, id: nat): Option<bool> {
    if s.id != id then None else Some(s.stopRequested)
  }

  function SettleSection(s: Session, id: nat, finishing: bool): Session {
    if s.id == id && finishing then s.(running := false, process := None) else s
  }

  function PublishSection(s: Session, id: nat, part: nat, spawned: Option<ProcId>): Session {
    if s.id != id then s
    else match spawned
      case None => s.(running := false, process := None)
      case Some(p) => s.(part := part, process := Some(p))
  }

  function StopSection(s: Session): Session {
    if s.process != None && s.running then s.(stopRequested := true) else s
  }

  /** Whom `start` and `stop` send SIGTERM: the recorded process of a running session. */
  function Target(s: Session): set<ProcId> {
    if s.process != None && s.running then {s.process.value} else {}
  }

  function CommitSection(id: nat, p: ProcId): Session {
    Session(true, Some(p), 1, id, false)
  }

  // ----- Steps -----

  function Remove<T>(s: seq<T>, k: nat): seq<T>
    requires k < |s|
  {
    s[..k] + s[k + 1..]
  }

  /** One step of a session thread: its new local state, the shared state and the live processes. */
  function WorkerStep(s: State, w: Worker, a: Action): (Worker, Session, set<ProcId>, ProcId)
    requires a.Work?
  {
    match w.pc
    case Polling =>
      (match PollSection(s.session, w.id)
       case None => (w.(pc := Returned), s.session, s.alive - {w.process}, s.nextProc)
       case Some(stopSeen) => (w.(pc := Deciding(stopSeen)), s.session, s.alive, s.nextProc))
    case Deciding(stopSeen) =>
      var finishing := stopSeen || a.timedOut || w.process !in s.alive;
      (w.(pc := if finishing || a.oversize then Stopping(finishing) else Polling), s.session, s.alive, s.nextProc)
    case Stopping(finishing) =>
      (w.(pc := Settling(finishing)), s.session, s.alive - {w.process}, s.nextProc)
    case Settling(finishing) =>
      (w.(pc := if s.session.id != w.id || finishing then Returned else Spawning),
       SettleSection(s.session, w.id, finishing), s.alive, s.nextProc)
    case Spawning =>
      if a.spawnOk then
        (w.(pc := Publishing(Some(s.nextProc)), part := w.part + 1, owned := w.owned + {s.nextProc}),
         s.session, s.alive + {s.nextProc}, s.nextProc + 1)
      else (w.(pc := Publishing(None), part := w.part + 1), s.session, s.alive, s.nextProc)
    case Publishing(spawned) =>
      var session := PublishSection(s.session, w.id, w.part, spawned);
      (match spawned
       case None => (w.(pc := Returned), session, s.alive, s.nextProc)
       case Some(p) =>
         if s.session.id != w.id then (w.(pc := Returned), session, s.alive - {p}, s.nextProc)
         else (w.(pc := Polling, process := p), session, s.alive, s.nextProc))
    case Returned => (w, s.session, s.alive, s.nextProc)
  }

  function Step(s: State, a: Action): State {
    match a
    case StartBegin =>
      s.(starters := s.starters + [Preparing(s.session.id + 1)], signalled := s.signalled + Target(s.session))
    case StartSpawn(k, ok) =>
      if k >= |s.starters| || !s.starters[k].Preparing? then s
      else if !ok then s.(starters := Remove(s.starters, k))
      else s.(starters := s.starters[k := Checking(s.starters[k].id, s.nextProc)],
              alive := s.alive + {s.nextProc}, nextProc := s.nextProc + 1)
    case StartPoll(k) =>
      if k >= |s.starters| || !s.starters[k].Checking? then s
      else if s.starters[k].process !in s.alive then s.(starters := Remove(s.starters, k))
      else s.(starters := s.starters[k := Accepted(s.starters[k].id, s.starters[k].process)])
    case StartCommit(k) =>
      if k >= |s.starters| || !s.starters[k].Accepted? then s
      else
        var st := s.starters[k];
        s.(session := CommitSection(st.id, st.process),
           workers := s.workers + [Worker(st.id, Polling, st.process, 1, {st.process})],
           starters := Remove(s.starters, k))
    case Stop => s.(session := StopSection(s.session), signalled := s.signalled + Target(s.session))
    case Work(i, _, _, _) =>
      if i >= |s.workers| then s
      else
        var r := WorkerStep(s, s.workers[i], a);
        s.(workers := s.workers[i := r.0], session := r.1, alive := r.2, nextProc := r.3)
    case Exit(p) => if p in s.alive then s.(alive := s.alive - {p}, exited := s.exited + {p}) else s
    case Obey(p) => if p in s.signalled then s.(alive := s.alive - {p}) else s
  }

  function Run(s: State, actions: seq<Action>): State
    decreases |actions|
  {
    if actions == [] then s else Run(Step(s, actions[0]), actions[1..])
  }

  /** A commit that stores the id after the current one. */
  ghost predicate InTurn(s: State, a: Action) {
    a.StartCommit? && a.k < |s.starters| && s.starters[a.k].Accepted? ==> s.starters[a.k].id == s.session.id + 1
  }

  ghost predicate AllInTurn(s: State, actions: seq<Action>)
    decreases |actions|
  {
    actions == [] || (InTurn(s, actions[0]) && AllInTurn(Step(s, actions[0]), actions[1..]))
  }

  /** For each `start()` in flight, how many had committed when it began. */
  function MarksAfter(s: State, marks: seq<nat>, a: Action): seq<nat>
    requires |marks| == |s.starters|
  {
    if a.StartBegin? then marks + [|s.workers|]
    else if (a.StartSpawn? || a.StartPoll? || a.StartCommit?) && a.k < |s.starters| && |Step(s, a).starters| < |s.starters|
    then Remove(marks, a.k)
    else marks
  }

  lemma MarksFit(s: State, marks: seq<nat>, a: Action)
    requires |marks| == |s.starters|
    ensures |MarksAfter(s, marks, a)| == |Step(s, a).starters|
  {
  }

  /** No `start()` commits after another has committed since it began. */
  ghost predicate NoneOvertaken(s: State, marks: seq<nat>, actions: seq<Action>)
    requires |marks| == |s.starters|
    decreases |actions|
  {
    actions == [] ||
    var a := actions[0];
    MarksFit(s, marks, a);
    && (a.StartCommit? && a.k < |s.starters| && s.starters[a.k].Accepted? ==> marks[a.k] == |s.workers|)
    && NoneOvertaken(Step(s, a), MarksAfter(s, marks, a), actions[1..])
  }

  /** `start()` calls do not overlap: none begins while another is in flight. */
  ghost predicate Disjoint(s: State, actions: seq<Action>)
    decreases |actions|
  {
    actions == [] || ((actions[0].StartBegin? ==> s.starters == []) && Disjoint(Step(s, actions[0]), actions[1..]))
  }

  // ----- The invariant -----

  /** The processes a thread may still have running. */
  function Holds(w: Worker): set<ProcId> {
    match w.pc
    case Polling => {w.process}
    case Deciding(_) => {w.process}
    case Stopping(_) => {w.process}
    case Publishing(spawned) => if spawned == None then {} else {spawned.value}
    case _ => {}
  }

  function StarterHolds(st: Starter): set<ProcId> {
    if st.Preparing? then {} else {st.process}
  }

  /** Session threads carry the ids 1, 2, 3, ..., and the last one's is the current id. */
  ghost predicate IdsSequential(s: State) {
    && s.session.id == |s.workers|
    && (forall i :: 0 <= i < |s.workers| ==> s.workers[i].id == i + 1)
    && (forall k :: 0 <= k < |s.starters| ==> 1 <= s.starters[k].id <= s.session.id + 1)
  }

  /** No process belongs to two threads, two calls, or a thread and a call. */
  ghost predicate Apart(s: State) {
    && (forall i, j, p :: 0 <= i < j < |s.workers| && p in s.workers[i].owned ==> p !in s.workers[j].owned)
    && (forall i, k :: 0 <= i < |s.workers| && 0 <= k < |s.starters| && !s.starters[k].Preparing? ==>
          s.starters[k].process !in s.workers[i].owned)
    && (forall k, l :: 0 <= k < l < |s.starters| && !s.starters[k].Preparing? && !s.starters[l].Preparing? ==>
          s.starters[k].process != s.starters[l].process)
  }

  /** Whatever a thread owns and no longer holds is dead. */
  ghost predicate Reaped(s: State) {
    forall i, p :: 0 <= i < |s.workers| && p in s.workers[i].owned && p in s.alive ==> p in Holds(s.workers[i])
  }

  /** Every live process is held by a session thread or a `start()` call. */
  ghost predicate Held(s: State, p: ProcId) {
    || (exists i :: 0 <= i < |s.workers| && p in Holds(s.workers[i]))
    || (exists k :: 0 <= k < |s.starters| && p in StarterHolds(s.starters[k]))
  }

  ghost predicate Known(s: State) {
    && (forall p :: p in s.alive ==> p < s.nextProc)
    && (forall i, p :: 0 <= i < |s.workers| && p in s.workers[i].owned ==> p < s.nextProc)
    && (forall k :: 0 <= k < |s.starters| && !s.starters[k].Preparing? ==> s.starters[k].process < s.nextProc)
    && (forall i :: 0 <= i < |s.workers| ==> Holds(s.workers[i]) <= s.workers[i].owned
                                             && s.workers[i].process in s.workers[i].owned
                                             && (s.workers[i].pc.Publishing? ==> s.workers[i].pc.spawned != Some(s.workers[i].process)))
  }

  /** `running` says whether the current thread is still at work, on the process and part it records. */
  ghost predicate Recorded(s: State) {
    if s.workers == [] then !s.session.running && s.session.process == None
    else
      var cur := s.workers[|s.workers| - 1];
      && (s.session.running <==> cur.pc != Returned)
      && (s.session.running ==> s.session.process == Some(cur.process))
      && (s.session.running && !cur.pc.Publishing? ==> s.session.part == cur.part)
      && (!s.session.running ==> s.session.process == None)
  }

  /** What has exited stays dead, and no process is signalled or recorded before it was spawned. */
  ghost predicate Bygone(s: State) {
    && (forall p :: p in s.exited ==> p < s.nextProc && p !in s.alive)
    && (forall p :: p in s.signalled ==> p < s.nextProc)
    && (s.session.process != None ==> s.session.process.value < s.nextProc)
  }

  /** Who owns which process: this much holds whoever overtakes whom. */
  ghost predicate Accounted(s: State) {
    Known(s) && Bygone(s) && Apart(s) && Reaped(s) && forall p :: p in s.alive ==> Held(s, p)
  }

  ghost predicate Inv(s: State) {
    IdsSequential(s) && Accounted(s) && Recorded(s)
  }

  lemma Removed<T>(s: seq<T>, k: nat)
    requires k < |s|
    ensures |Remove(s, k)| == |s| - 1
    ensures forall j :: 0 <= j < |s| - 1 ==> Remove(s, k)[j] == s[if j < k then j else j + 1]
    ensures forall j :: 0 <= j < |s| && j != k ==> Remove(s, k)[if j < k then j else j - 1] == s[j]
  {
  }

  lemma StarterLeavesThreads(s: State, a: Action)
    requires Known(s) && Reaped(s) && (a.StartBegin? || a.StartSpawn? || a.StartPoll?)
    ensures Reaped(Step(s, a))
  {
    hide WorkerStep;
    assert Step(s, a).workers == s.workers;
  }

  lemma StarterStepKeepsHeld(s: State, a: Action, p: ProcId)
    requires (a.StartBegin? || a.StartSpawn? || a.StartPoll?) && p in Step(s, a).alive && (p in s.alive ==> Held(s, p))
    ensures Held(Step(s, a), p)
  {
    hide WorkerStep, CommitSection, Remove;
    var s' := Step(s, a);
    if !a.StartBegin? && a.k < |s.starters| {
      Removed(s.starters, a.k);
    }
    if p !in s.alive {
      assert p in StarterHolds(s'.starters[a.k]);
    } else if i :| 0 <= i < |s.workers| && p in Holds(s.workers[i]) {
      assert p in Holds(s'.workers[i]);
    } else {
      var k :| 0 <= k < |s.starters| && p in StarterHolds(s.starters[k]);
      StarterKeepsHolding(s, a, k, p);
    }
  }

  lemma RemoveKeepsOthers(starters: seq<Starter>, j: nat, k: nat)
    requires j < |starters| && k < |starters| && j != k
    ensures exists k' :: 0 <= k' < |Remove(starters, j)| && Remove(starters, j)[k'] == starters[k]
  {
    hide Remove;
    Removed(starters, j);
    assert Remove(starters, j)[if k < j then k else k - 1] == starters[k];
  }

  lemma StarterKeepsHolding(s: State, a: Action, k: nat, p: ProcId)
    requires (a.StartBegin? || a.StartSpawn? || a.StartPoll?) && p in Step(s, a).alive
    requires k < |s.starters| && p in StarterHolds(s.starters[k])
    ensures exists k' :: 0 <= k' < |Step(s, a).starters| && p in StarterHolds(Step(s, a).starters[k'])
  {
    hide WorkerStep, CommitSection, Remove;
    var s' := Step(s, a);
    if !a.StartBegin? && a.k < |s.starters| && s'.starters == Remove(s.starters, a.k) {
      Removed(s.starters, a.k);
      assert k != a.k;
      RemoveKeepsOthers(s.starters, a.k, k);
    } else {
      assert p in StarterHolds(s'.starters[k]);
    }
  }

  lemma StarterStepKeepsIds(s: State, a: Action)
    requires IdsSequential(s) && (a.StartBegin? || a.StartSpawn? || a.StartPoll?)
    ensures IdsSequential(Step(s, a))
  {
    hide WorkerStep, CommitSection, Remove;
    if !a.StartBegin? && a.k < |s.starters| {
      Removed(s.starters, a.k);
    }
  }

  lemma StarterStepKeepsKnown(s: State, a: Action)
    requires Known(s) && (a.StartBegin? || a.StartSpawn? || a.StartPoll?)
    ensures Known(Step(s, a))
  {
    hide WorkerStep, CommitSection, Remove;
    if !a.StartBegin? && a.k < |s.starters| {
      Removed(s.starters, a.k);
    }
  }

  lemma WorkKeepsBygone(s: State, a: Action)
    requires Known(s) && Bygone(s) && a.Work?
    ensures Bygone(Step(s, a))
  {
    if a.i < |s.workers| && s.workers[a.i].pc.Publishing? && s.workers[a.i].pc.spawned != None {
      assert s.workers[a.i].pc.spawned.value in Holds(s.workers[a.i]);
    }
  }

  lemma StepKeepsBygone(s: State, a: Action)
    requires Known(s) && Bygone(s)
    ensures Bygone(Step(s, a))
  {
    hide WorkerStep, Remove;
    if a.Work? {
      WorkKeepsBygone(s, a);
    }
  }

  lemma RemoveKeepsApart(s: State, k: nat)
    requires Apart(s) && k < |s.starters|
    ensures Apart(s.(starters := Remove(s.starters, k)))
  {
    hide Remove;
    Removed(s.starters, k);
  }

  lemma SpawnKeepsApart(s: State, k: nat)
    requires Known(s) && Apart(s) && k < |s.starters|
    ensures Apart(s.(starters := s.starters[k := Checking(s.starters[k].id, s.nextProc)]))
  {
  }

  lemma ApartElsewhere(s: State, alive: set<ProcId>, nextProc: ProcId)
    requires Apart(s)
    ensures Apart(s.(alive := alive, nextProc := nextProc))
  {
  }

  lemma StarterStepKeepsApart(s: State, a: Action)
    requires Known(s) && Apart(s) && (a.StartBegin? || a.StartSpawn? || a.StartPoll?)
    ensures Apart(Step(s, a))
  {
    hide WorkerStep, CommitSection, Remove;
    if !a.StartBegin? && a.k < |s.starters| {
      var st := s.starters[a.k];
      if a.StartSpawn? && st.Preparing? {
        if a.ok {
          SpawnKeepsApart(s, a.k);
          hide Apart;
          ApartElsewhere(s.(starters := s.starters[a.k := Checking(st.id, s.nextProc)]), s.alive + {s.nextProc}, s.nextProc + 1);
        } else {
          RemoveKeepsApart(s, a.k);
        }
      } else if a.StartPoll? && st.Checking? && st.process !in s.alive {
        RemoveKeepsApart(s, a.k);
      }
    }
  }

  lemma StarterStepKeepsAccounted(s: State, a: Action)
    requires Accounted(s) && (a.StartBegin? || a.StartSpawn? || a.StartPoll?)
    ensures Accounted(Step(s, a))
  {
    hide Step, Reaped, Known, Bygone, Apart, Held;
    StarterLeavesThreads(s, a);
    StarterStepKeepsKnown(s, a);
    StepKeepsBygone(s, a);
    StarterStepKeepsApart(s, a);
    forall p | p in Step(s, a).alive
      ensures Held(Step(s, a), p)
    {
      assert p in s.alive ==> Held(s, p);
      StarterStepKeepsHeld(s, a, p);
    }
  }

  lemma CommitKeepsHolder(s: State, a: Action, k: nat, p: ProcId)
    requires a.StartCommit? && k < |s.starters| && p in StarterHolds(s.starters[k])
    ensures Held(Step(s, a), p)
  {
    hide WorkerStep, Remove;
    var s' := Step(s, a);
    if a.k < |s.starters| && s.starters[a.k].Accepted? {
      Removed(s.starters, a.k);
      if k == a.k {
        assert p in Holds(s'.workers[|s.workers|]);
      } else {
        assert s'.starters[if k < a.k then k else k - 1] == s.starters[k];
      }
    }
  }

  lemma CommitKeepsHeld(s: State, a: Action, p: ProcId)
    requires a.StartCommit? && Held(s, p)
    ensures Held(Step(s, a), p)
  {
    hide WorkerStep, Remove;
    if i :| 0 <= i < |s.workers| && p in Holds(s.workers[i]) {
      assert i < |Step(s, a).workers| && Step(s, a).workers[i] == s.workers[i];
    } else {
      var k :| 0 <= k < |s.starters| && p in StarterHolds(s.starters[k]);
      hide Held;
      CommitKeepsHolder(s, a, k, p);
    }
  }

  lemma CommitKeepsAlive(s: State, a: Action)
    requires a.StartCommit?
    ensures Step(s, a).alive == s.alive
  {
  }

  lemma CommitKeepsIds(s: State, a: Action)
    requires IdsSequential(s) && a.StartCommit? && InTurn(s, a)
    ensures IdsSequential(Step(s, a))
  {
    hide WorkerStep, Remove;
    if a.k < |s.starters| {
      Removed(s.starters, a.k);
    }
  }

  lemma CommitKeepsKnown(s: State, a: Action)
    requires Known(s) && a.StartCommit?
    ensures Known(Step(s, a))
  {
    hide WorkerStep, Remove;
    if a.k < |s.starters| {
      Removed(s.starters, a.k);
    }
  }

  lemma CommitKeepsApart(s: State, a: Action)
    requires Apart(s) && a.StartCommit?
    ensures Apart(Step(s, a))
  {
    hide WorkerStep, Remove;
    if a.k < |s.starters| {
      Removed(s.starters, a.k);
    }
  }

  lemma CommitKeepsReaped(s: State, a: Action)
    requires Reaped(s) && a.StartCommit?
    ensures Reaped(Step(s, a))
  {
    hide WorkerStep, Remove;
  }

  lemma CommitKeepsRecorded(s: State, a: Action)
    requires Recorded(s) && a.StartCommit?
    ensures Recorded(Step(s, a))
  {
    hide WorkerStep, Remove;
  }

  lemma CommitKeepsAccounted(s: State, a: Action)
    requires Accounted(s) && a.StartCommit?
    ensures Accounted(Step(s, a))
  {
    hide Step, Reaped, Known, Bygone, Apart, Held;
    CommitKeepsKnown(s, a);
    StepKeepsBygone(s, a);
    CommitKeepsApart(s, a);
    CommitKeepsReaped(s, a);
    forall p | p in Step(s, a).alive
      ensures Held(Step(s, a), p)
    {
      CommitKeepsAlive(s, a);
      CommitKeepsHeld(s, a, p);
    }
  }

  lemma WorkKeepsHeld(s: State, a: Action, p: ProcId)
    requires Known(s) && a.Work? && p in Step(s, a).alive && (p in s.alive ==> Held(s, p))
    ensures Held(Step(s, a), p)
  {
    var s' := Step(s, a);
    if p !in s.alive {
      assert p in Holds(s'.workers[a.i]);
    } else {
      assert Held(s, p);
      if i :| 0 <= i < |s.workers| && p in Holds(s.workers[i]) {
        assert p in Holds(s'.workers[i]);
      } else {
        assert s'.starters == s.starters;
      }
    }
  }

  lemma WorkKeepsRecorded(s: State, a: Action)
    requires IdsSequential(s) && Recorded(s) && a.Work?
    ensures Recorded(Step(s, a))
  {
    var s' := Step(s, a);
    if a.i < |s.workers| {
      var last := |s.workers| - 1;
      assert |s'.workers| == |s.workers|;
      assert a.i != last ==> s'.workers[last] == s.workers[last] && s'.session == s.session;
    }
  }

  lemma WorkKeepsReaped(s: State, a: Action)
    requires Known(s) && Reaped(s) && a.Work?
    ensures Known(Step(s, a)) && Reaped(Step(s, a))
  {
    var s' := Step(s, a);
    if a.i < |s.workers| {
      forall i, p | 0 <= i < |s'.workers| && p in s'.workers[i].owned && p in s'.alive
        ensures p in Holds(s'.workers[i])
      {
        if i == a.i {
          assert p in s.workers[i].owned ==> p in s.alive;
        } else {
          assert p in s.workers[i].owned && p < s.nextProc;
        }
      }
    }
  }

  lemma WorkKeepsApart(s: State, a: Action)
    requires Known(s) && Apart(s) && a.Work?
    ensures Apart(Step(s, a))
  {
    var s' := Step(s, a);
    if a.i < |s.workers| {
      assert s'.starters == s.starters && |s'.workers| == |s.workers|;
      assert s'.workers[a.i].owned <= s.workers[a.i].owned + {s.nextProc};
      assert forall i :: 0 <= i < |s.workers| && i != a.i ==> s'.workers[i] == s.workers[i];
    }
  }

  lemma WorkKeepsIds(s: State, a: Action)
    requires IdsSequential(s) && a.Work?
    ensures IdsSequential(Step(s, a))
  {
    var s' := Step(s, a);
    if a.i < |s.workers| {
      assert s'.starters == s.starters && s'.session.id == s.session.id && |s'.workers| == |s.workers|;
      assert s'.workers[a.i].id == s.workers[a.i].id;
    }
  }

  lemma WorkKeepsAccounted(s: State, a: Action)
    requires Accounted(s) && a.Work?
    ensures Accounted(Step(s, a))
  {
    hide Step, Reaped, Known, Bygone, Apart, Held;
    WorkKeepsReaped(s, a);
    StepKeepsBygone(s, a);
    WorkKeepsApart(s, a);
    forall p | p in Step(s, a).alive
      ensures Held(Step(s, a), p)
    {
      assert p in s.alive ==> Held(s, p);
      WorkKeepsHeld(s, a, p);
    }
  }

  lemma EndingKeepsHeld(s: State, a: Action)
    requires (forall p :: p in s.alive ==> Held(s, p)) && (a.Stop? || a.Exit? || a.Obey?)
    ensures forall p :: p in Step(s, a).alive ==> Held(Step(s, a), p)
  {
    hide WorkerStep, Remove;
    var s' := Step(s, a);
    assert s'.workers == s.workers && s'.starters == s.starters && s'.alive <= s.alive;
  }

  lemma EndingKeepsAccounted(s: State, a: Action)
    requires Accounted(s) && (a.Stop? || a.Exit? || a.Obey?)
    ensures Accounted(Step(s, a))
  {
    hide WorkerStep, Remove, Held;
    EndingKeepsHeld(s, a);
  }

  /** Every step, in turn or not, keeps account of the processes. */
  lemma StepKeepsAccounted(s: State, a: Action)
    requires Accounted(s)
    ensures Accounted(Step(s, a))
  {
    hide Step, Accounted;
    match a
    case StartCommit(_) => CommitKeepsAccounted(s, a);
    case Work(_, _, _, _) => WorkKeepsAccounted(s, a);
    case Stop => EndingKeepsAccounted(s, a);
    case Exit(_) => EndingKeepsAccounted(s, a);
    case Obey(_) => EndingKeepsAccounted(s, a);
    case _ => StarterStepKeepsAccounted(s, a);
  }

  lemma StepKeepsRecorded(s: State, a: Action)
    requires IdsSequential(s) && Recorded(s)
    ensures Recorded(Step(s, a))
  {
    hide WorkerStep, Remove;
    if a.Work? {
      WorkKeepsRecorded(s, a);
    } else if a.StartCommit? {
      CommitKeepsRecorded(s, a);
    }
  }

  /** Every step keeps the invariant, as long as commits are in turn. */
  lemma StepKeepsInv(s: State, a: Action)
    requires Inv(s) && InTurn(s, a)
    ensures Inv(Step(s, a))
  {
    hide Step, InTurn, IdsSequential, Accounted, Recorded;
    StepKeepsIds(s, a);
    StepKeepsAccounted(s, a);
    StepKeepsRecorded(s, a);
  }

  lemma {:induction false} RunKeepsInv(s: State, actions: seq<Action>)
    requires Inv(s) && AllInTurn(s, actions)
    ensures Inv(Run(s, actions))
    decreases |actions|
  {
    hide Inv, Step;
    if actions != [] {
      StepKeepsInv(s, actions[0]);
      RunKeepsInv(Step(s, actions[0]), actions[1..]);
    }
  }

  // ----- Supersession and ownership, over all runs -----

  /** A step of a thread whose id is not current leaves the shared state alone. */
  lemma StaleThreadWritesNothing(s: State, a: Action)
    requires a.Work? && a.i < |s.workers| && s.workers[a.i].id != s.session.id
    ensures Step(s, a).session == s.session
  {
  }

  /** The thread that `running` refers to, and the process it records. */
  ghost predicate CurrentThread(s: State, i: nat) {
    && i < |s.workers| && s.workers[i].id == s.session.id && s.workers[i].pc != Returned
    && s.session.process == Some(s.workers[i].process)
  }

  /** Behind the stop that begins a rotation, and before the next poll, the last published process is dead. */
  ghost predicate StoppedToRotate(s: State, w: Worker) {
    (w.pc.Settling? || w.pc.Spawning? || w.pc.Publishing?) && w.process !in s.alive
  }

  ghost predicate AtItsProcess(pc: Pc) {
    pc.Polling? || pc.Deciding? || pc.Stopping?
  }

  lemma CurrentIsAccounted(s: State, i: nat)
    requires Inv(s) && CurrentThread(s, i)
    ensures i == |s.workers| - 1 && s.session.running
    ensures AtItsProcess(s.workers[i].pc) || StoppedToRotate(s, s.workers[i])
  {
  }

  /** Every process at which a thread or a call works is alive, has exited by itself, or was signalled. */
  ghost predicate Living(s: State) {
    && (forall i :: 0 <= i < |s.workers| && AtItsProcess(s.workers[i].pc) ==> Accountable(s, s.workers[i].process))
    && (forall i :: 0 <= i < |s.workers| && s.workers[i].pc.Publishing? && s.workers[i].pc.spawned != None ==>
          Accountable(s, s.workers[i].pc.spawned.value))
    && (forall k :: 0 <= k < |s.starters| && !s.starters[k].Preparing? ==> Accountable(s, s.starters[k].process))
  }

  ghost predicate Accountable(s: State, p: ProcId) {
    p in s.alive || p in s.exited || p in s.signalled
  }

  lemma StartersKeepLiving(s: State, a: Action)
    requires Living(s) && (a.StartBegin? || a.StartSpawn? || a.StartPoll? || a.StartCommit?)
    ensures Living(Step(s, a))
  {
    hide WorkerStep, Remove;
    if !a.StartBegin? && a.k < |s.starters| {
      Removed(s.starters, a.k);
    }
  }

  /** The process of one thread is none of another's, so no thread can take it away. */
  lemma OthersApart(s: State, i: nat)
    requires Apart(s) && i < |s.workers|
    ensures forall j, p :: 0 <= j < |s.workers| && j != i && p in s.workers[j].owned ==> p !in s.workers[i].owned
  {
  }

  lemma WorkTakesOwn(s: State, a: Action, p: ProcId)
    requires Known(s) && a.Work? && a.i < |s.workers| && p in s.alive && p !in Step(s, a).alive
    ensures p in s.workers[a.i].owned
  {
  }

  lemma WorkKeepsLiving(s: State, a: Action)
    requires Known(s) && Apart(s) && Living(s) && a.Work? && a.i < |s.workers|
    ensures Living(Step(s, a))
  {
    var s' := Step(s, a);
    assert s'.starters == s.starters && |s'.workers| == |s.workers|;
    OwnKeepsLiving(s, a);
    hide Step, Known, Apart;
    OthersApart(s, a.i);
    forall i, p | 0 <= i < |s.workers| && i != a.i && p in s.workers[i].owned && p in s.alive
      ensures p in s'.alive
    {
      if p !in s'.alive {
        WorkTakesOwn(s, a, p);
      }
    }
    StartersApart(s, a.i);
    forall k | 0 <= k < |s.starters| && !s.starters[k].Preparing? && s.starters[k].process in s.alive
      ensures s.starters[k].process in s'.alive
    {
      if s.starters[k].process !in s'.alive {
        WorkTakesOwn(s, a, s.starters[k].process);
      }
    }
    OwnedByThreads(s);
    OthersStay(s, a);
  }

  lemma StartersApart(s: State, i: nat)
    requires Apart(s) && i < |s.workers|
    ensures forall k :: 0 <= k < |s.starters| && !s.starters[k].Preparing? ==> s.starters[k].process !in s.workers[i].owned
  {
  }

  lemma OwnedByThreads(s: State)
    requires Known(s)
    ensures forall i :: 0 <= i < |s.workers| ==> s.workers[i].process in s.workers[i].owned
    ensures forall i :: 0 <= i < |s.workers| && s.workers[i].pc.Publishing? && s.workers[i].pc.spawned != None ==>
              s.workers[i].pc.spawned.value in s.workers[i].owned
  {
    forall i | 0 <= i < |s.workers| && s.workers[i].pc.Publishing? && s.workers[i].pc.spawned != None
      ensures s.workers[i].pc.spawned.value in s.workers[i].owned
    {
      assert s.workers[i].pc.spawned.value in Holds(s.workers[i]);
    }
  }

  lemma OthersStay(s: State, a: Action)
    requires a.Work? && a.i < |s.workers|
    ensures |Step(s, a).workers| == |s.workers| && Step(s, a).starters == s.starters
    ensures forall i :: 0 <= i < |s.workers| && i != a.i ==> Step(s, a).workers[i] == s.workers[i]
  {
    hide WorkerStep;
  }

  lemma OwnKeepsLiving(s: State, a: Action)
    requires Living(s) && a.Work? && a.i < |s.workers|
    ensures a.i < |Step(s, a).workers|
    ensures var s', w := Step(s, a), Step(s, a).workers[a.i];
            && (AtItsProcess(w.pc) ==> Accountable(s', w.process))
            && (w.pc.Publishing? && w.pc.spawned != None ==> Accountable(s', w.pc.spawned.value))
  {
  }

  lemma StepKeepsLiving(s: State, a: Action)
    requires Accounted(s) && Living(s)
    ensures Living(Step(s, a))
  {
    hide WorkerStep, Remove;
    if a.StartBegin? || a.StartSpawn? || a.StartPoll? || a.StartCommit? {
      StartersKeepLiving(s, a);
    } else if a.Work? && a.i < |s.workers| {
      WorkKeepsLiving(s, a);
    }
  }

  /** Neither account is ever lost, in any run. */
  lemma {:induction false} RunKeepsLiving(s: State, actions: seq<Action>)
    requires Accounted(s) && Living(s)
    ensures Accounted(Run(s, actions)) && Living(Run(s, actions))
    decreases |actions|
  {
    hide Accounted, Step, Living;
    if actions != [] {
      StepKeepsAccounted(s, actions[0]);
      StepKeepsLiving(s, actions[0]);
      RunKeepsLiving(Step(s, actions[0]), actions[1..]);
    }
  }

  /** The processes that a thread may still stop are dead once it has returned, and nobody else holds them. */
  lemma AccountedApart(s: State)
    requires Accounted(s)
    ensures forall i, p :: 0 <= i < |s.workers| && s.workers[i].pc == Returned && p in s.workers[i].owned ==> p !in s.alive
    ensures forall i, j, p :: 0 <= i < j < |s.workers| && p in s.workers[i].owned ==> p !in s.workers[j].owned
    ensures forall p :: p in s.alive ==> Held(s, p) && p !in s.exited
  {
  }

  /**
   In every run, whoever overtakes whom: every process that a thread ever owned is its own, and dead once
   it has returned; no live process is lost; and the process at which a thread or a call works is alive,
   unless it exited by itself or `start` or `stop` has signalled it -- no thread takes another's away.
   */
  lemma ProcessesAreOwned(actions: seq<Action>)
    ensures var s := Run(IDLE, actions);
            && (forall i, p :: 0 <= i < |s.workers| && s.workers[i].pc == Returned && p in s.workers[i].owned
                  ==> p !in s.alive)
            && (forall i, j, p :: 0 <= i < j < |s.workers| && p in s.workers[i].owned ==> p !in s.workers[j].owned)
            && (forall p :: p in s.alive ==> Held(s, p) && p !in s.exited)
            && Living(s)
  {
    hide Run, Living;
    InitialInv();
    RunKeepsLiving(IDLE, actions);
    AccountedApart(Run(IDLE, actions));
  }

  lemma SafeRun(actions: seq<Action>)
    requires NoneOvertaken(IDLE, [], actions)
    ensures Inv(Run(IDLE, actions)) && Living(Run(IDLE, actions))
  {
    hide Step, Run, Living, Inv;
    NotOvertakenIsInTurn(IDLE, [], actions);
    InitialInv();
    RunKeepsInv(IDLE, actions);
    RunKeepsLiving(IDLE, actions);
  }

  lemma SafeState(s: State)
    requires Inv(s)
    ensures DistinctIds(s)
    ensures s.session.running <==> exists i: nat :: CurrentThread(s, i)
  {
    if s.session.running {
      assert CurrentThread(s, |s.workers| - 1);
    }
    if i: nat :| CurrentThread(s, i) {
      CurrentIsAccounted(s, i);
    }
  }

  /**
   In every run in which no start commits after another has committed since it began, overlapping or not:
   ids are never shared; and `running` holds exactly when some thread is current and still at work, whose
   process is the recorded one -- alive, exited by itself, signalled by a `start` or a `stop`, or dead
   because the thread has just stopped it to rotate.
   */
  lemma CaptureIsSafe(actions: seq<Action>)
    requires NoneOvertaken(IDLE, [], actions)
    ensures var s := Run(IDLE, actions);
            && DistinctIds(s)
            && (s.session.running <==> exists i: nat :: CurrentThread(s, i))
            && (forall i: nat :: CurrentThread(s, i) ==>
                  var w := s.workers[i];
                  (AtItsProcess(w.pc) && Accountable(s, w.process)) || StoppedToRotate(s, w))
  {
    var s := Run(IDLE, actions);
    SafeRun(actions);
    SafeState(s);
    hide Run, StoppedToRotate, AtItsProcess, Inv, Living, Accountable;
    forall i: nat | CurrentThread(s, i)
      ensures (AtItsProcess(s.workers[i].pc) && Accountable(s, s.workers[i].process)) || StoppedToRotate(s, s.workers[i])
    {
      CurrentIsAccounted(s, i);
      if AtItsProcess(s.workers[i].pc) {
        LivingAt(s, i);
      }
    }
  }

  lemma LivingAt(s: State, i: nat)
    requires Living(s) && i < |s.workers| && AtItsProcess(s.workers[i].pc)
    ensures Accountable(s, s.workers[i].process)
  {
  }

  // ----- Shared ids -----

  ghost predicate DistinctIds(s: State) {
    forall i, j :: 0 <= i < j < |s.workers| ==> s.workers[i].id != s.workers[j].id
  }

  /** Every start in flight has computed the id after those committed when it began. */
  ghost predicate Marked(s: State, marks: seq<nat>) {
    && |marks| == |s.starters|
    && forall k :: 0 <= k < |marks| ==> marks[k] <= |s.workers| && s.starters[k].id == marks[k] + 1
  }

  ghost predicate Overtaken(s: State, marks: seq<nat>, a: Action)
    requires |marks| == |s.starters|
  {
    a.StartCommit? && a.k < |s.starters| && s.starters[a.k].Accepted? && marks[a.k] != |s.workers|
  }

  lemma InTurnIff(s: State, marks: seq<nat>, a: Action)
    requires IdsSequential(s) && Marked(s, marks)
    ensures InTurn(s, a) <==> !Overtaken(s, marks, a)
  {
  }

  lemma StepKeepsIds(s: State, a: Action)
    requires IdsSequential(s) && InTurn(s, a)
    ensures IdsSequential(Step(s, a))
  {
    hide WorkerStep, Remove;
    if a.Work? {
      WorkKeepsIds(s, a);
    } else if a.StartCommit? {
      CommitKeepsIds(s, a);
    } else if (a.StartSpawn? || a.StartPoll?) && a.k < |s.starters| {
      Removed(s.starters, a.k);
    }
  }

  lemma RemoveKeepsMarks(s: State, marks: seq<nat>, k: nat, s': State)
    requires Marked(s, marks) && k < |marks|
    requires s'.starters == Remove(s.starters, k) && |s'.workers| >= |s.workers|
    ensures Marked(s', Remove(marks, k))
  {
    hide Remove;
    Removed(s.starters, k);
    Removed(marks, k);
  }

  lemma StepKeepsMarks(s: State, marks: seq<nat>, a: Action)
    requires Marked(s, marks) && (a.StartBegin? ==> s.session.id == |s.workers|)
    ensures Marked(Step(s, a), MarksAfter(s, marks, a))
  {
    hide WorkerStep, Remove;
    if (a.StartSpawn? || a.StartPoll? || a.StartCommit?) && a.k < |s.starters| {
      Removed(s.starters, a.k);
      if |Step(s, a).starters| < |s.starters| {
        RemoveKeepsMarks(s, marks, a.k, Step(s, a));
      }
    }
  }

  lemma {:induction false} NotOvertakenIsInTurn(s: State, marks: seq<nat>, actions: seq<Action>)
    requires IdsSequential(s) && Marked(s, marks) && NoneOvertaken(s, marks, actions)
    ensures AllInTurn(s, actions)
    decreases |actions|
  {
    hide Step, InTurn, IdsSequential, Marked, MarksAfter;
    if actions != [] {
      MarkedFits(s, marks);
      InTurnIff(s, marks, actions[0]);
      StepKeepsIds(s, actions[0]);
      CountIsId(s);
      StepKeepsMarks(s, marks, actions[0]);
      NotOvertakenIsInTurn(Step(s, actions[0]), MarksAfter(s, marks, actions[0]), actions[1..]);
    }
  }

  lemma CountIsId(s: State)
    requires IdsSequential(s)
    ensures s.session.id == |s.workers|
  {
  }

  lemma MarkedFits(s: State, marks: seq<nat>)
    requires Marked(s, marks)
    ensures |marks| == |s.starters|
  {
  }

  lemma StepKeepsThreads(s: State, a: Action)
    ensures |s.workers| <= |Step(s, a).workers|
    ensures forall i :: 0 <= i < |s.workers| ==> Step(s, a).workers[i].id == s.workers[i].id
  {
  }

  lemma {:induction false} RunKeepsThreads(s: State, actions: seq<Action>)
    ensures |s.workers| <= |Run(s, actions).workers|
    ensures forall i :: 0 <= i < |s.workers| ==> Run(s, actions).workers[i].id == s.workers[i].id
    decreases |actions|
  {
    hide Step;
    if actions != [] {
      StepKeepsThreads(s, actions[0]);
      RunKeepsThreads(Step(s, actions[0]), actions[1..]);
    }
  }

  /** A start that commits after having been overtaken takes the id of a thread that is there. */
  lemma OvertakenShares(s: State, marks: seq<nat>, a: Action)
    requires IdsSequential(s) && Marked(s, marks) && Overtaken(s, marks, a)
    ensures var m := marks[a.k];
            m < |s.workers| < |Step(s, a).workers| && Step(s, a).workers[m].id == Step(s, a).workers[|s.workers|].id
  {
  }

  lemma {:induction false} IdsSharedIffFrom(s: State, marks: seq<nat>, actions: seq<Action>)
    requires IdsSequential(s) && Marked(s, marks)
    ensures NoneOvertaken(s, marks, actions) <==> DistinctIds(Run(s, actions))
    decreases |actions|
  {
    hide Step, InTurn, Marked, MarksAfter;
    if actions != [] {
      var a := actions[0];
      MarkedFits(s, marks);
      MarksFit(s, marks, a);
      InTurnIff(s, marks, a);
      if Overtaken(s, marks, a) {
        OvertakenShares(s, marks, a);
        RunKeepsThreads(Step(s, a), actions[1..]);
      } else {
        StepKeepsIds(s, a);
        CountIsId(s);
        StepKeepsMarks(s, marks, a);
        IdsSharedIffFrom(Step(s, a), MarksAfter(s, marks, a), actions[1..]);
      }
    }
  }

  /**
   Over every run, overlapping starts included: no two threads ever carry the same id if and only if no
   start commits after another has committed since it began.
   */
  lemma IdsSharedIff(actions: seq<Action>)
    ensures NoneOvertaken(IDLE, [], actions) <==> DistinctIds(Run(IDLE, actions))
  {
    IdsSharedIffFrom(IDLE, [], actions);
  }

  /** Starts that do not overlap never overtake each other. */
  lemma {:induction false} DisjointIsNotOvertaken(s: State, marks: seq<nat>, actions: seq<Action>)
    requires |marks| == |s.starters| <= 1 && (|marks| == 1 ==> marks[0] == |s.workers|) && Disjoint(s, actions)
    ensures NoneOvertaken(s, marks, actions)
    decreases |actions|
  {
    if actions != [] {
      var a := actions[0];
      MarksFit(s, marks, a);
      OneMark(s, marks, a);
      hide Step, MarksAfter;
      DisjointIsNotOvertaken(Step(s, a), MarksAfter(s, marks, a), actions[1..]);
    }
  }

  lemma OneMark(s: State, marks: seq<nat>, a: Action)
    requires |marks| == |s.starters| <= 1 && (|marks| == 1 ==> marks[0] == |s.workers|) && (a.StartBegin? ==> s.starters == [])
    ensures var marks' := MarksAfter(s, marks, a);
            |marks'| <= 1 && (|marks'| == 1 ==> marks'[0] == |Step(s, a).workers|)
  {
    hide WorkerStep;
  }

  // ----- Stopping and superseding -----

  /** The thread has been superseded, or told to stop. */
  ghost predicate Winding(s: State, i: nat) {
    i < |s.workers| && (s.workers[i].id != s.session.id || s.session.stopRequested)
  }

  /** How many more parts a winding thread may still create. */
  function Budget(pc: Pc): nat {
    match pc
    case Deciding(stopSeen) => if stopSeen then 0 else 1
    case Stopping(finishing) => if finishing then 0 else 1
    case Settling(finishing) => if finishing then 0 else 1
    case Spawning => 1
    case _ => 0
  }

  /** How many more steps of its own a winding thread may take. */
  function StepsLeft(pc: Pc): nat {
    match pc
    case Returned => 0
    case Settling(finishing) => if finishing then 1 else 7
    case Stopping(finishing) => if finishing then 2 else 8
    case Deciding(stopSeen) => if stopSeen then 3 else 9
    case Polling => 4
    case Publishing(_) => 5
    case Spawning => 6
  }

  lemma WindingStep(s: State, a: Action, i: nat)
    requires Inv(s) && Winding(s, i) && InTurn(s, a)
    ensures var s' := Step(s, a);
            && Winding(s', i)
            && s'.workers[i].part + Budget(s'.workers[i].pc) <= s.workers[i].part + Budget(s.workers[i].pc)
            && StepsLeft(s'.workers[i].pc) <= StepsLeft(s.workers[i].pc)
            && (a.Work? && a.i == i && s.workers[i].pc != Returned ==>
                  StepsLeft(s'.workers[i].pc) < StepsLeft(s.workers[i].pc))
  {
  }

  function OwnSteps(actions: seq<Action>, i: nat): (n: nat)
    decreases |actions|
  {
    if actions == [] then 0
    else (if actions[0].Work? && actions[0].i == i then 1 else 0) + OwnSteps(actions[1..], i)
  }

  /** Whatever else happens, a winding thread stays within its budget of parts and of steps. */
  lemma {:induction false} WindingRun(s: State, actions: seq<Action>, i: nat)
    requires Inv(s) && AllInTurn(s, actions) && Winding(s, i)
    ensures var s' := Run(s, actions);
            && Winding(s', i)
            && s'.workers[i].part <= s.workers[i].part + Budget(s.workers[i].pc)
            && (OwnSteps(actions, i) >= StepsLeft(s.workers[i].pc) ==> s'.workers[i].pc == Returned)
    decreases |actions|
  {
    hide Inv, StepsLeft, Budget, Step, Winding, InTurn;
    if actions == [] {
      WindingBounds(s, i);
    } else {
      WindingBounds(s, i);
      WindingStep(s, actions[0], i);
      StepKeepsInv(s, actions[0]);
      WindingRun(Step(s, actions[0]), actions[1..], i);
      WindingBounds(Step(s, actions[0]), i);
    }
  }

  lemma WindingBounds(s: State, i: nat)
    requires Winding(s, i)
    ensures i < |s.workers| && (StepsLeft(s.workers[i].pc) == 0 <==> s.workers[i].pc == Returned)
  {
  }

  lemma {:induction false} InTurnSplit(s: State, a: seq<Action>, b: seq<Action>)
    requires AllInTurn(s, a + b)
    ensures AllInTurn(s, a) && AllInTurn(Run(s, a), b)
    decreases |a|
  {
    hide Step, InTurn;
    if a == [] {
      assert a + b == b;
    } else {
      assert (a + b)[1..] == a[1..] + b;
      InTurnSplit(Step(s, a[0]), a[1..], b);
    }
  }

  lemma InitialInv()
    ensures Inv(IDLE) && Living(IDLE)
  {
  }

  /** A run up to a stop, and what follows it. */
  lemma StopSplits(before: seq<Action>, after: seq<Action>)
    requires NoneOvertaken(IDLE, [], before + [Stop] + after)
    ensures Inv(Run(IDLE, before)) && AllInTurn(Step(Run(IDLE, before), Stop), after)
  {
    NotOvertakenIsInTurn(IDLE, [], before + [Stop] + after);
    InitialInv();
    hide Step, InTurn, NoneOvertaken, Inv;
    InTurnSplit(IDLE, before + [Stop], after);
    InTurnSplit(IDLE, before, [Stop]);
    RunKeepsInv(IDLE, before);
    RunOneMore(IDLE, before, Stop);
  }

  lemma {:induction false} RunOneMore(s: State, actions: seq<Action>, a: Action)
    ensures Run(s, actions + [a]) == Step(Run(s, actions), a)
    decreases |actions|
  {
    hide Step;
    if actions == [] {
      assert [] + [a] == [a] && [a][1..] == [];
      assert Run(Step(s, a), []) == Step(s, a);
    } else {
      assert (actions + [a])[1..] == actions[1..] + [a];
      RunOneMore(Step(s, actions[0]), actions[1..], a);
    }
  }

  /**
   After `stop()` on a running capture -- wherever it lands, even in the middle of a rotation, and
   whatever is started later -- that session creates at most one further part, returns within nine
   steps of its own, and once it has returned the capture is not running unless started anew.
   */
  lemma StopEndsSession(before: seq<Action>, after: seq<Action>)
    requires NoneOvertaken(IDLE, [], before + [Stop] + after)
    requires Run(IDLE, before).session.running
    ensures var s := Run(IDLE, before);
            var i := |s.workers| - 1;
            var s' := Run(Step(s, Stop), after);
            && i >= 0 && |s.workers| <= |s'.workers|
            && s'.workers[i].part <= s.workers[i].part + 1
            && (OwnSteps(after, i) >= 9 ==> s'.workers[i].pc == Returned)
            && (s'.workers[i].pc == Returned && |s'.workers| == |s.workers| ==> !s'.session.running)
  {
    hide Run, NoneOvertaken;
    var s := Run(IDLE, before);
    StopSplits(before, after);
    StopWinds(s);
    var t := Step(s, Stop);
    hide Inv, Step, Winding, AllInTurn;
    RunKeepsInv(t, after);
    WindingRun(t, after, |s.workers| - 1);
    RunKeepsThreads(t, after);
    var u := Run(t, after);
    if |u.workers| == |s.workers| && u.workers[|s.workers| - 1].pc == Returned {
      LastThread(u);
    }
  }

  lemma StopWinds(s: State)
    requires Inv(s) && s.session.running
    ensures s.workers != [] && Inv(Step(s, Stop)) && Winding(Step(s, Stop), |s.workers| - 1)
    ensures Step(s, Stop).workers == s.workers
    ensures Budget(s.workers[|s.workers| - 1].pc) <= 1 && StepsLeft(s.workers[|s.workers| - 1].pc) <= 9
  {
    StepKeepsInv(s, Stop);
  }

  lemma LastThread(s: State)
    requires Inv(s) && s.workers != [] && s.workers[|s.workers| - 1].pc == Returned
    ensures !s.session.running && s.session.process == None
  {
  }

  /** A start, then the thread's steps up to spawning the second part. */
  const MID_ROTATION := [StartBegin, StartSpawn(0, true), StartPoll(0), StartCommit(0),
                         Work(0, false, true, true), Work(0, false, true, true),
                         Work(0, false, true, true), Work(0, false, true, true)]

  /** The bound is tight: a stop that lands while the thread rotates lets one more part appear. */
  lemma StopCanLandMidRotation()
    ensures NoneOvertaken(IDLE, [], MID_ROTATION + [Stop] + [Work(0, false, false, true)])
    ensures var s := Run(IDLE, MID_ROTATION);
            && s.session.running && |s.workers| == 1
            && var s' := Run(Step(s, Stop), [Work(0, false, false, true)]);
               |s'.workers| == 1 && s'.workers[0].part == s.workers[0].part + 1
  {
    StopMidRotationIsDisjoint();
    DisjointIsNotOvertaken(IDLE, [], MID_ROTATION + [Stop] + [Work(0, false, false, true)]);
  }

  lemma StopMidRotationIsDisjoint()
    ensures Disjoint(IDLE, MID_ROTATION + [Stop] + [Work(0, false, false, true)])
  {
    var rest := [StartSpawn(0, true), StartPoll(0), StartCommit(0),
                 Work(0, false, true, true), Work(0, false, true, true),
                 Work(0, false, true, true), Work(0, false, true, true), Stop, Work(0, false, false, true)];
    assert MID_ROTATION + [Stop] + [Work(0, false, false, true)] == [StartBegin] + rest;
    assert ([StartBegin] + rest)[1..] == rest;
    OneBeginIsDisjoint(Step(IDLE, StartBegin), rest);
  }

  lemma {:induction false} OneBeginIsDisjoint(s: State, actions: seq<Action>)
    requires StartBegin !in actions
    ensures Disjoint(s, actions)
    decreases |actions|
  {
    hide Step;
    if actions != [] {
      OneBeginIsDisjoint(Step(s, actions[0]), actions[1..]);
    }
  }

  // ----- Leaving for good, and leaving to rotate -----

  /**
   What a thread decides: it leaves for good exactly when a stop was seen, the deadline has passed or its
   process is dead, and leaves to rotate exactly when the file is oversize and none of that is so.
   */
  lemma DecidesIff(s: State, a: Action)
    requires a.Work? && a.i < |s.workers| && s.workers[a.i].pc.Deciding?
    ensures var w, s' := s.workers[a.i], Step(s, a);
            var forGood := w.pc.stopSeen || a.timedOut || w.process !in s.alive;
            && s'.session == s.session && s'.alive == s.alive && |s'.workers| == |s.workers|
            && (s'.workers[a.i].pc == Stopping(true) <==> forGood)
            && (s'.workers[a.i].pc == Stopping(false) <==> a.oversize && !forGood)
            && (s'.workers[a.i].pc == Polling <==> !a.oversize && !forGood)
  {
  }

  /** The thread has left for good. */
  ghost predicate Leaving(s: State, i: nat) {
    i < |s.workers| && var pc := s.workers[i].pc; pc == Stopping(true) || pc == Settling(true) || pc == Returned
  }

  lemma LeavingStep(s: State, a: Action, i: nat)
    requires Leaving(s, i)
    ensures var s' := Step(s, a);
            && Leaving(s', i) && s'.workers[i].part == s.workers[i].part
            && (s.workers[i].pc == Returned ==> s'.workers[i].pc == Returned)
            && (a.Work? && a.i == i && s.workers[i].pc.Stopping? ==> s'.workers[i].pc.Settling?)
            && (a.Work? && a.i == i && s.workers[i].pc.Settling? ==> s'.workers[i].pc == Returned)
            && (s.workers[i].pc.Settling? ==> s'.workers[i].pc.Settling? || s'.workers[i].pc == Returned)
  {
  }

  /** How many steps of its own a leaving thread has left. */
  function LeavingSteps(pc: Pc): nat {
    if pc.Stopping? then 2 else if pc.Settling? then 1 else 0
  }

  /** It never polls again and creates no further part, whatever else happens, and returns with its second step. */
  lemma {:induction false} LeavingRun(s: State, actions: seq<Action>, i: nat)
    requires Leaving(s, i)
    ensures var s' := Run(s, actions);
            && Leaving(s', i) && s'.workers[i].part == s.workers[i].part
            && (OwnSteps(actions, i) >= LeavingSteps(s.workers[i].pc) ==> s'.workers[i].pc == Returned)
    decreases |actions|
  {
    hide Step;
    if actions != [] {
      LeavingStep(s, actions[0], i);
      LeavingRun(Step(s, actions[0]), actions[1..], i);
    }
  }

  /** A thread that settles for good while it is current switches the capture off. */
  lemma SettlesOff(s: State, a: Action)
    requires a.Work? && a.i < |s.workers| && s.workers[a.i].pc == Settling(true)
    ensures var s' := Step(s, a);
            && |s'.workers| == |s.workers| && s'.workers[a.i].pc == Returned
            && (if s.workers[a.i].id == s.session.id
                then s'.session == s.session.(running := false, process := None) else s'.session == s.session)
  {
  }

  /** A thread that decides after its deadline returns with its second step from then, without another part. */
  lemma DeadlineEndsThread(s: State, a: Action, after: seq<Action>)
    requires a.Work? && a.timedOut && a.i < |s.workers| && s.workers[a.i].pc.Deciding?
    ensures var s' := Run(Step(s, a), after);
            && Leaving(s', a.i) && s'.workers[a.i].part == s.workers[a.i].part
            && (OwnSteps(after, a.i) >= 2 ==> s'.workers[a.i].pc == Returned)
  {
    hide Run, Step;
    DecidesIff(s, a);
    SamePart(s, a);
    LeavingRun(Step(s, a), after, a.i);
  }

  lemma SamePart(s: State, a: Action)
    requires a.Work? && a.i < |s.workers| && s.workers[a.i].pc.Deciding?
    ensures a.i < |Step(s, a).workers| && Step(s, a).workers[a.i].part == s.workers[a.i].part
  {
  }

  /**
   A session ends at its deadline: in every run, once a thread decides after its deadline, it creates no
   further part and returns with its second step from then; and unless starts have overtaken each other, the
   capture is then off, with no process recorded, unless it was started anew.
   */
  lemma DeadlineEndsCapture(before: seq<Action>, a: Action, after: seq<Action>)
    requires a.Work? && a.timedOut && a.i < |Run(IDLE, before).workers| && Run(IDLE, before).workers[a.i].pc.Deciding?
    ensures var s := Run(IDLE, before);
            var s' := Run(IDLE, before + [a] + after);
            && a.i < |s.workers| <= |s'.workers|
            && s'.workers[a.i].part == s.workers[a.i].part
            && (OwnSteps(after, a.i) >= 2 ==> s'.workers[a.i].pc == Returned)
            && (NoneOvertaken(IDLE, [], before + [a] + after) && s'.workers[a.i].pc == Returned && a.i == |s'.workers| - 1 ==>
                  !s'.session.running && s'.session.process == None)
  {
    hide Run, Step, NoneOvertaken, Inv, Living;
    var s := Run(IDLE, before);
    var all := before + [a] + after;
    DeadlineEndsThread(s, a, after);
    RunOneMore(IDLE, before, a);
    RunConcat(IDLE, before + [a], after);
    RunKeepsThreads(s, [a]);
    RunOneMore(s, [], a);
    RunNothing(s);
    assert [] + [a] == [a];
    RunKeepsThreads(Step(s, a), after);
    if NoneOvertaken(IDLE, [], all) && Run(IDLE, all).workers[a.i].pc == Returned && a.i == |Run(IDLE, all).workers| - 1 {
      SafeRun(all);
      LastThread(Run(IDLE, all));
    }
  }

  lemma RunNothing(s: State)
    ensures Run(s, []) == s
  {
  }

  // ----- What a start does to the capture that runs -----

  /** The `n`-th action is a start or a stop that finds `p` recorded by a running session. */
  ghost predicate SignalledAt(actions: seq<Action>, n: nat, p: ProcId) {
    && n < |actions| && (actions[n].StartBegin? || actions[n].Stop?)
    && p in Target(Run(IDLE, actions[..n]).session)
  }

  lemma SignalledByStep(s: State, a: Action)
    ensures Step(s, a).signalled == s.signalled + if a.StartBegin? || a.Stop? then Target(s.session) else {}
  {
    hide WorkerStep, Remove;
  }

  /** Over every run: the processes sent SIGTERM from outside are those which a start or a stop found recorded. */
  lemma {:induction false} SignalledIff(actions: seq<Action>, p: ProcId)
    ensures p in Run(IDLE, actions).signalled <==> exists n: nat :: SignalledAt(actions, n, p)
    decreases |actions|
  {
    if actions != [] {
      var last := |actions| - 1;
      var front := actions[..last];
      assert actions == front + [actions[last]];
      hide Run, Step, Target;
      RunOneMore(IDLE, front, actions[last]);
      SignalledByStep(Run(IDLE, front), actions[last]);
      SignalledIff(front, p);
      assert forall n: nat :: n < last ==> front[..n] == actions[..n];
      if n: nat :| SignalledAt(front, n, p) {
        assert SignalledAt(actions, n, p);
      }
      if n: nat :| SignalledAt(actions, n, p) {
        assert n < last ==> SignalledAt(front, n, p);
      }
      assert SignalledAt(actions, last, p) <==>
          (actions[last].StartBegin? || actions[last].Stop?) && p in Target(Run(IDLE, front).session);
    }
  }

  /** Unless starts have overtaken each other, that is the process of the current thread. */
  lemma TargetIsCurrent(actions: seq<Action>, p: ProcId)
    requires NoneOvertaken(IDLE, [], actions)
    ensures var s := Run(IDLE, actions);
            p in Target(s.session) <==> exists i: nat :: CurrentThread(s, i) && s.workers[i].process == p
  {
    var s := Run(IDLE, actions);
    hide Run;
    SafeRun(actions);
    SafeState(s);
    hide Inv;
  }

  /** The thread's process is dead, and the thread has not decided to rotate: it will finish. */
  ghost predicate Doomed(s: State, i: nat) {
    && i < |s.workers|
    && match s.workers[i].pc
       case Polling => s.workers[i].process !in s.alive && s.workers[i].process < s.nextProc
       case Deciding(_) => s.workers[i].process !in s.alive && s.workers[i].process < s.nextProc
       case Stopping(finishing) => finishing
       case Settling(finishing) => finishing
       case Returned => true
       case _ => false
  }

  /** How many more steps of its own a thread may take whose process is dead. */
  function DoomedSteps(pc: Pc): nat {
    match pc
    case Polling => 4
    case Deciding(_) => 3
    case Stopping(_) => 2
    case Settling(_) => 1
    case _ => 0
  }

  lemma DoomedStep(s: State, a: Action, i: nat)
    requires Doomed(s, i)
    ensures var s' := Step(s, a);
            && Doomed(s', i) && s'.workers[i].part == s.workers[i].part
            && DoomedSteps(s'.workers[i].pc) <= DoomedSteps(s.workers[i].pc)
            && (a.Work? && a.i == i && s.workers[i].pc != Returned ==>
                  DoomedSteps(s'.workers[i].pc) < DoomedSteps(s.workers[i].pc))
  {
  }

  lemma DoomedBounds(s: State, i: nat)
    requires Doomed(s, i)
    ensures i < |s.workers| && (DoomedSteps(s.workers[i].pc) == 0 <==> s.workers[i].pc == Returned)
  {
  }

  /** Whatever else happens, in turn or not, it creates no further part and soon returns. */
  lemma {:induction false} DoomedRun(s: State, actions: seq<Action>, i: nat)
    requires Doomed(s, i)
    ensures var s' := Run(s, actions);
            && Doomed(s', i) && s'.workers[i].part == s.workers[i].part
            && (OwnSteps(actions, i) >= DoomedSteps(s.workers[i].pc) ==> s'.workers[i].pc == Returned)
    decreases |actions|
  {
    hide DoomedSteps, Step, Doomed;
    DoomedBounds(s, i);
    if actions != [] {
      DoomedStep(s, actions[0], i);
      DoomedBounds(Step(s, actions[0]), i);
      DoomedRun(Step(s, actions[0]), actions[1..], i);
    }
  }

  /**
   A start whose tcpdump cannot be spawned, or exits before the start looks at it; then the end of the
   process that the start has signalled before.
   */
  function FailedStart(s: State, spawned: bool): seq<Action>
    requires s.session.process != None
  {
    var k := |s.starters|;
    [StartBegin] + (if spawned then [StartSpawn(k, true), Exit(s.nextProc), StartPoll(k)] else [StartSpawn(k, false)])
    + [Obey(s.session.process.value)]
  }

  /** All that is left of it. */
  function Failed(s: State, spawned: bool): State {
    var t := s.(alive := s.alive - Target(s.session), signalled := s.signalled + Target(s.session));
    if spawned then t.(nextProc := s.nextProc + 1, exited := s.exited + {s.nextProc}) else t
  }

  lemma AfterFailedStart(s: State, spawned: bool)
    requires s.session.process != None && s.session.running && s.nextProc !in s.alive
    ensures Run(s, FailedStart(s, spawned)) == Failed(s, spawned)
  {
    hide Step, Run, Failed, FailedStart;
    var k, end := |s.starters|, Obey(s.session.process.value);
    FailedStartIs(s, spawned);
    if spawned {
      SpawnAndFail(s);
      FourSteps(s, StartBegin, StartSpawn(k, true), Exit(s.nextProc), StartPoll(k));
      RunOneMore(s, [StartBegin, StartSpawn(k, true), Exit(s.nextProc), StartPoll(k)], end);
    } else {
      BeginAndFail(s);
      TwoSteps(s, StartBegin, StartSpawn(k, false));
      RunOneMore(s, [StartBegin, StartSpawn(k, false)], end);
    }
  }

  lemma FailedStartIs(s: State, spawned: bool)
    requires s.session.process != None
    ensures var k := |s.starters|;
            FailedStart(s, spawned) ==
            (if spawned then [StartBegin, StartSpawn(k, true), Exit(s.nextProc), StartPoll(k)]
             else [StartBegin, StartSpawn(k, false)]) + [Obey(s.session.process.value)]
  {
  }

  lemma TwoSteps(s: State, a: Action, b: Action)
    ensures Run(s, [a, b]) == Step(Step(s, a), b)
  {
    hide Step;
    assert [a, b][1..] == [b];
    assert Run(Step(s, a), [b]) == Run(Step(Step(s, a), b), []);
  }

  lemma FourSteps(s: State, a: Action, b: Action, c: Action, d: Action)
    ensures Run(s, [a, b, c, d]) == Step(Step(Step(Step(s, a), b), c), d)
  {
    hide Step, Run;
    assert [a, b, c, d] == [a, b] + [c, d];
    RunConcat(s, [a, b], [c, d]);
    TwoSteps(s, a, b);
    TwoSteps(Step(Step(s, a), b), c, d);
  }

  lemma BeginAndFail(s: State)
    requires s.session.process != None && s.session.running
    ensures Step(Step(Step(s, StartBegin), StartSpawn(|s.starters|, false)), Obey(s.session.process.value)) == Failed(s, false)
  {
    hide WorkerStep;
    var b := Step(Step(s, StartBegin), StartSpawn(|s.starters|, false));
    assert b.starters == s.starters;
  }

  lemma SpawnAndFail(s: State)
    requires s.session.process != None && s.session.running && s.nextProc !in s.alive
    ensures var k := |s.starters|;
            Step(Step(Step(Step(Step(s, StartBegin), StartSpawn(k, true)), Exit(s.nextProc)), StartPoll(k)),
                 Obey(s.session.process.value))
            == Failed(s, true)
  {
    hide WorkerStep;
    var k := |s.starters|;
    var b := Step(Step(Step(s, StartBegin), StartSpawn(k, true)), Exit(s.nextProc));
    assert b.starters == s.starters + [Checking(s.session.id + 1, s.nextProc)];
    assert b.alive == s.alive;
    var c := Step(b, StartPoll(k));
    assert c.starters == s.starters;
  }

  lemma {:induction false} RunConcat(s: State, a: seq<Action>, b: seq<Action>)
    ensures Run(s, a + b) == Run(Run(s, a), b)
    decreases |a|
  {
    hide Step;
    if a == [] {
      assert a + b == b;
    } else {
      RunConcat(Step(s, a[0]), a[1..], b);
      assert (a + b)[1..] == a[1..] + b;
    }
  }

  /** No start overtakes in a run, so none does in the run up to some point. */
  lemma NoneOvertakenBefore(a: seq<Action>, b: seq<Action>)
    requires NoneOvertaken(IDLE, [], a + b)
    ensures NoneOvertaken(IDLE, [], a)
  {
    hide Run, NoneOvertaken;
    IdsSharedIff(a + b);
    RunConcat(IDLE, a, b);
    RunKeepsThreads(Run(IDLE, a), b);
    IdsSharedIff(a);
  }

  /**
   A start that fails, either way, ends the capture that runs, though it reports an error and leaves the
   session as it is: a thread found between a spawn and its next decision creates no further part, and returns within
   four steps of its own, leaving the capture off unless started anew.
   */
  lemma FailedStartEndsCapture(before: seq<Action>, i: nat, spawned: bool, after: seq<Action>)
    requires CurrentThread(Run(IDLE, before), i)
    requires var pc := Run(IDLE, before).workers[i].pc; pc.Polling? || pc.Deciding?
    requires NoneOvertaken(IDLE, [], before + FailedStart(Run(IDLE, before), spawned) + after)
    ensures var s := Run(IDLE, before);
            var t := Run(s, FailedStart(s, spawned));
            var s' := Run(t, after);
            && t.session == s.session && t.workers == s.workers && t.starters == s.starters
            && i < |s.workers| <= |s'.workers|
            && s'.workers[i].part == s.workers[i].part
            && (OwnSteps(after, i) >= 4 ==> s'.workers[i].pc == Returned)
            && (s'.workers[i].pc == Returned && |s'.workers| == |s.workers| ==> !s'.session.running)
  {
    hide Run, NoneOvertaken, Step, Inv, FailedStart, Living;
    var s := Run(IDLE, before);
    var failed := FailedStart(s, spawned);
    hide CurrentThread;
    assert before + failed + after == before + (failed + after);
    NoneOvertakenBefore(before, failed + after);
    SafeRun(before);
    RunConcat(IDLE, before, failed);
    RunConcat(IDLE, before + failed, after);
    SafeRun(before + failed + after);
    FailedStartEndsThread(s, i, spawned, after);
  }

  lemma FailedStartEndsThread(s: State, i: nat, spawned: bool, after: seq<Action>)
    requires Inv(s) && CurrentThread(s, i) && (s.workers[i].pc.Polling? || s.workers[i].pc.Deciding?)
    requires Inv(Run(Run(s, FailedStart(s, spawned)), after))
    ensures var t := Run(s, FailedStart(s, spawned));
            var s' := Run(t, after);
            && t.session == s.session && t.workers == s.workers && t.starters == s.starters
            && i < |s.workers| <= |s'.workers|
            && s'.workers[i].part == s.workers[i].part
            && (OwnSteps(after, i) >= 4 ==> s'.workers[i].pc == Returned)
            && (s'.workers[i].pc == Returned && |s'.workers| == |s.workers| ==> !s'.session.running)
  {
    NextIsNew(s);
    hide Run, Inv, FailedStart, Doomed, OwnSteps;
    CurrentIsAccounted(s, i);
    AfterFailedStart(s, spawned);
    var t := Run(s, FailedStart(s, spawned));
    TargetIsDoomed(s, spawned, i);
    hide CurrentThread, DoomedSteps, Target;
    DoomedRun(t, after, i);
    RunKeepsThreads(t, after);
    var s' := Run(t, after);
    if s'.workers[i].pc == Returned && |s'.workers| == |s.workers| {
      LastThread(s');
    }
  }

  lemma NextIsNew(s: State)
    requires Accounted(s)
    ensures s.nextProc !in s.alive
  {
  }

  lemma TargetIsDoomed(s: State, spawned: bool, i: nat)
    requires Inv(s) && s.session.running && CurrentThread(s, i)
    requires s.workers[i].pc.Polling? || s.workers[i].pc.Deciding?
    ensures Doomed(Failed(s, spawned), i) && DoomedSteps(s.workers[i].pc) <= 4
  {
  }

  /** A capture runs; then a start fails, having signalled it; then its thread takes four steps. */
  const START_FAILS := [StartBegin, StartSpawn(0, true), StartPoll(0), StartCommit(0), StartBegin, StartSpawn(0, false)]

  lemma FailedStartSignals()
    ensures var s := Run(IDLE, START_FAILS);
            && s.session.running && s.starters == [] && s.alive == {0} && 0 in s.signalled && s.exited == {}
            && var s' := Run(s, [Obey(0), Work(0, false, false, true), Work(0, false, false, true),
                                 Work(0, false, false, true), Work(0, false, false, true)]);
               && !s'.session.running && s'.alive == {} && s'.exited == {}
               && |s'.workers| == 1 && s'.workers[0].part == 1
  {
  }

  /** The thread has decided to rotate, and its next tcpdump has not died. */
  ghost predicate Rotates(s: State, w: Worker) {
    match w.pc
    case Stopping(finishing) => !finishing
    case Settling(finishing) => !finishing
    case Spawning => true
    case Publishing(spawned) => spawned != None && spawned.value in s.alive
    case _ => false
  }

  /** The steps up to the next poll of a thread that rotates, when spawning succeeds. */
  function Onward(i: nat, pc: Pc): seq<Action> {
    var a := Work(i, false, false, true);
    match pc
    case Stopping(_) => [a, a, a, a]
    case Settling(_) => [a, a, a]
    case Spawning => [a, a]
    case _ => [a]
  }

  lemma {:induction false} RotationGoesOn(s: State, i: nat)
    requires CurrentThread(s, i) && s.session.running && Rotates(s, s.workers[i])
    ensures var s' := Run(s, Onward(i, s.workers[i].pc));
            && s'.session.running && CurrentThread(s', i)
            && s'.workers[i].pc == Polling && s'.workers[i].process in s'.alive
            && s'.workers[i].part == s.workers[i].part + if s.workers[i].pc.Publishing? then 0 else 1
    decreases |Onward(i, s.workers[i].pc)|
  {
    var a := Work(i, false, false, true);
    var t := Step(s, a);
    if s.workers[i].pc.Publishing? {
      assert Run(s, [a]) == Run(t, []) == t;
    } else {
      assert Onward(i, s.workers[i].pc)[1..] == Onward(i, t.workers[i].pc);
      RotationGoesOn(t, i);
    }
  }

  /**
   It is the decision to rotate that saves it: behind that, the failed start has signalled a process that
   the thread is replacing anyway, and the capture goes on with its next part.
   */
  lemma FailedStartMissesRotation(before: seq<Action>, i: nat, spawned: bool)
    requires var s := Run(IDLE, before);
             CurrentThread(s, i) && s.session.running && Rotates(s, s.workers[i])
    ensures var s := Run(IDLE, before);
            var s' := Run(Run(s, FailedStart(s, spawned)), Onward(i, s.workers[i].pc));
            && s'.session.running && CurrentThread(s', i)
            && s'.workers[i].pc == Polling && s'.workers[i].process in s'.alive
            && s'.workers[i].part == s.workers[i].part + if s.workers[i].pc.Publishing? then 0 else 1
  {
    var s := Run(IDLE, before);
    hide Run, Step, Accounted, Living;
    InitialInv();
    RunKeepsLiving(IDLE, before);
    NextIsNew(s);
    AfterFailedStart(s, spawned);
    StillRotates(s, i, spawned);
    RotationGoesOn(Run(s, FailedStart(s, spawned)), i);
  }

  lemma StillRotates(s: State, i: nat, spawned: bool)
    requires Accounted(s) && CurrentThread(s, i) && Rotates(s, s.workers[i])
    ensures Rotates(Failed(s, spawned), s.workers[i])
  {
  }

  // ----- Overlapping starts -----

  /** Two overlapping `start()` calls: both compute the same id before either stores it. */
  const OVERLAPPING := [StartBegin, StartBegin, StartSpawn(0, true), StartSpawn(1, true), StartPoll(0), StartPoll(1),
                        StartCommit(0), StartCommit(0)]

  lemma OverlappingStartsShareId()
    ensures var s := Run(IDLE, OVERLAPPING);
            && |s.workers| == 2
            && s.workers[0].id == s.workers[1].id == s.session.id
            && s.workers[0].pc != Returned && s.workers[1].pc != Returned
            && s.workers[0].process != s.workers[1].process
  {
  }

  lemma StepWhileOff(s: State, a: Action)
    requires !s.session.running && !a.StartCommit?
    ensures var s' := Step(s, a);
            && !s'.session.running && s'.session.stopRequested == s.session.stopRequested
            && s'.signalled == s.signalled
  {
  }

  /** As long as nothing commits, a session that is off hears no stop: nothing is flagged and nobody signalled. */
  lemma {:induction false} OffHearsNoStop(s: State, actions: seq<Action>)
    requires !s.session.running && forall k :: 0 <= k < |actions| ==> !actions[k].StartCommit?
    ensures var s' := Run(s, actions);
            && !s'.session.running && s'.session.stopRequested == s.session.stopRequested
            && s'.signalled == s.signalled && Step(s', Stop) == s'
    decreases |actions|
  {
    hide Step;
    if actions == [] {
      StopWhileOff(s);
    } else {
      StepWhileOff(s, actions[0]);
      OffHearsNoStop(Step(s, actions[0]), actions[1..]);
    }
  }

  lemma StopWhileOff(s: State)
    requires !s.session.running
    ensures Step(s, Stop) == s
  {
    assert s.signalled + {} == s.signalled;
  }

  /** Of two threads with one id, the first finishes because its process has exited. */
  const ONE_FINISHES := [Exit(0), Work(0, false, false, true), Work(0, false, false, true),
                         Work(0, false, false, true), Work(0, false, false, true)]

  /**
   What sharing an id costs: the thread that finishes clears the session that both take for theirs, and the
   other captures on, current and with a live process, while the capture is off and deaf to every stop
   until a new start commits.
   */
  lemma SharedIdLosesControl(after: seq<Action>)
    requires forall k :: 0 <= k < |after| ==> !after[k].StartCommit?
    ensures var s := Run(Run(IDLE, OVERLAPPING), ONE_FINISHES);
            && !s.session.running && s.session.process == None
            && |s.workers| == 2 && s.workers[0].pc == Returned
            && s.workers[1].pc == Polling && s.workers[1].id == s.session.id && s.workers[1].process in s.alive
            && var s' := Run(s, after);
               && !s'.session.running && !s'.session.stopRequested && s'.signalled == {}
               && Step(s', Stop) == s'
  {
    var s := Run(Run(IDLE, OVERLAPPING), ONE_FINISHES);
    OneFinishes();
    hide Run, Step;
    OffHearsNoStop(s, after);
  }

  lemma OneFinishes()
    ensures Run(Run(IDLE, OVERLAPPING), ONE_FINISHES)
            == State(Session(false, None, 1, 1, false),
                     [Worker(1, Returned, 0, 1, {0}), Worker(1, Polling, 1, 1, {1})], [], {1}, 2, {0}, {})
  {
    AfterOverlapping();
    var s := Run(IDLE, OVERLAPPING);
    hide Run;
    var a := Step(s, Exit(0));
    assert a.alive == {1} && a.exited == {0};
    var b := Step(Step(Step(Step(a, ONE_FINISHES[1]), ONE_FINISHES[2]), ONE_FINISHES[3]), ONE_FINISHES[4]);
    FiveSteps(s, ONE_FINISHES);
    assert b.alive == {1};
    assert b.workers == [Worker(1, Returned, 0, 1, {0}), Worker(1, Polling, 1, 1, {1})];
  }

  lemma FiveSteps(s: State, actions: seq<Action>)
    requires |actions| == 5
    ensures Run(s, actions) == Step(Step(Step(Step(Step(s, actions[0]), actions[1]), actions[2]), actions[3]), actions[4])
  {
    hide Step;
    assert actions == [actions[0], actions[1]] + [actions[2], actions[3]] + [actions[4]];
    RunOneMore(s, [actions[0], actions[1]] + [actions[2], actions[3]], actions[4]);
    RunConcat(s, [actions[0], actions[1]], [actions[2], actions[3]]);
    TwoSteps(s, actions[0], actions[1]);
    TwoSteps(Run(s, [actions[0], actions[1]]), actions[2], actions[3]);
  }

  lemma AfterOverlapping()
    ensures Run(IDLE, OVERLAPPING)
            == State(Session(true, Some(1), 1, 1, false),
                     [Worker(1, Polling, 0, 1, {0}), Worker(1, Polling, 1, 1, {1})], [], {0, 1}, 2, {}, {})
  {
  }

  /** Sequential numbering survives a step exactly when it is not the commit of an overtaken start. */
  lemma IdsSequentialIff(s: State, a: Action)
    requires IdsSequential(s)
    ensures IdsSequential(Step(s, a)) <==> InTurn(s, a)
  {
    if InTurn(s, a) {
      StepKeepsIds(s, a);
    }
  }
}
