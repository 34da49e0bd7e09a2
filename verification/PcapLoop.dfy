/**
 The code of a capture session (backend/capture/pcap.py): `start`, `stop` and `_session_loop`, each making
 exactly its own steps of the protocol, in between whatever the other threads and calls do.
 */
module PcapLoop {
  import Folds
  import opened PcapSession
  import opened Wrappers

  /** What a session thread does after its publishing section. */
  datatype Published = Superseded | SpawnFailed | Continue

  /** By tick: what the others do before each step of a thread, and what it finds out by itself. */
  datatype Env = Env(others: nat -> seq<Action>, timedOut: nat -> bool, oversize: nat -> bool, spawnOk: nat -> bool)

  /** No action is a step of thread `i`. */
  ghost predicate Foreign(actions: seq<Action>, i: nat) {
    forall k :: 0 <= k < |actions| && actions[k].Work? ==> actions[k].i != i
  }

  ghost predicate ForeignEnv(env: Env, i: nat) {
    forall t: nat :: Foreign(env.others(t), i)
  }

  /** No action is a step of the call at position `k`, or of one before it, whose end would move it. */
  ghost predicate ForeignCall(actions: seq<Action>, k: nat) {
    forall j :: 0 <= j < |actions| && (actions[j].StartSpawn? || actions[j].StartPoll? || actions[j].StartCommit?) ==>
      actions[j].k > k
  }

  lemma OtherStep(s: State, a: Action, i: nat)
    requires i < |s.workers| && (a.Work? ==> a.i != i)
    ensures i < |Step(s, a).workers| && Step(s, a).workers[i] == s.workers[i]
  {
  }

  lemma OtherCallStep(s: State, a: Action, k: nat)
    requires k < |s.starters| && (a.StartSpawn? || a.StartPoll? || a.StartCommit? ==> a.k > k)
    ensures k < |Step(s, a).starters| && Step(s, a).starters[k] == s.starters[k]
  {
    hide WorkerStep;
  }

  lemma {:induction false} SignalsStay(s: State, actions: seq<Action>)
    ensures s.signalled <= Run(s, actions).signalled
    decreases |actions|
  {
    hide Step;
    if actions != [] {
      SignalledByStep(s, actions[0]);
      SignalsStay(Step(s, actions[0]), actions[1..]);
    }
  }

  lemma {:induction false} OtherSteps(s: State, actions: seq<Action>, i: nat)
    requires i < |s.workers| && Foreign(actions, i)
    ensures i < |Run(s, actions).workers| && Run(s, actions).workers[i] == s.workers[i]
    decreases |actions|
  {
    hide Step;
    if actions != [] {
      OtherStep(s, actions[0], i);
      OtherSteps(Step(s, actions[0]), actions[1..], i);
    }
  }

  lemma {:induction false} OtherCallSteps(s: State, actions: seq<Action>, k: nat)
    requires k < |s.starters| && ForeignCall(actions, k)
    ensures k < |Run(s, actions).starters| && Run(s, actions).starters[k] == s.starters[k]
    decreases |actions|
  {
    hide Step;
    if actions != [] {
      OtherCallStep(s, actions[0], k);
      OtherCallSteps(Step(s, actions[0]), actions[1..], k);
    }
  }

  /** `others`, then one step, after `trace`. */
  lemma RunOn(s: State, trace: seq<Action>, others: seq<Action>, a: Action)
    ensures Run(s, trace + others + [a]) == Step(Run(Run(s, trace), others), a)
  {
    hide Step, Run;
    RunOneMore(s, trace + others, a);
    RunConcat(s, trace, others);
  }

  // ----- The steps of one thread among those of the others -----

  function Own(env: Env, i: nat, t: nat): Action {
    Work(i, env.timedOut(t), env.oversize(t), env.spawnOk(t))
  }

  function OwnOf(env: Env, i: nat): nat -> Action {
    (t: nat) => Own(env, i, t)
  }

  /** The first `n` steps of thread `i`, each behind what the others do before it. */
  ghost function Interleaved(env: Env, i: nat, n: nat): seq<Action> {
    Folds.Interleaved(env.others, OwnOf(env, i), n)
  }

  /** The state in which the thread takes its step number `t`. */
  ghost function StateAt(s: State, env: Env, i: nat, t: nat): State {
    Run(Run(s, Interleaved(env, i, t)), env.others(t))
  }

  ghost predicate At(s: State, i: nat, pc: Pc) {
    i < |s.workers| && s.workers[i].pc == pc
  }

  /** How many of the first `n` steps are polls. */
  ghost function Polls(s: State, env: Env, i: nat, n: nat): nat {
    if n == 0 then 0 else Polls(s, env, i, n - 1) + if At(StateAt(s, env, i, n - 1), i, Polling) then 1 else 0
  }

  /** The thread had not returned before any of its first `n` steps. */
  ghost predicate Busy(s: State, env: Env, i: nat, n: nat) {
    forall t :: 0 <= t < n ==> !At(StateAt(s, env, i, t), i, Returned)
  }

  lemma OneTick(s: State, env: Env, i: nat, t: nat)
    ensures Run(s, Interleaved(env, i, t + 1)) == Step(StateAt(s, env, i, t), Own(env, i, t))
    ensures Polls(s, env, i, t + 1) == Polls(s, env, i, t) + if At(StateAt(s, env, i, t), i, Polling) then 1 else 0
    ensures Busy(s, env, i, t) && !At(StateAt(s, env, i, t), i, Returned) ==> Busy(s, env, i, t + 1)
  {
    hide Step, Run;
    RunOn(s, Interleaved(env, i, t), env.others(t), Own(env, i, t));
  }

  /** At its step number `t` the thread decides, after its deadline. */
  ghost predicate DecidesLate(s: State, env: Env, i: nat, t: nat) {
    var u := StateAt(s, env, i, t);
    i < |u.workers| && u.workers[i].pc.Deciding? && env.timedOut(t)
  }

  /** From one step of the thread to a later one. */
  lemma {:induction false} LaterTick(s: State, env: Env, i: nat, t: nat, n: nat)
    requires t < n && Leaving(Run(s, Interleaved(env, i, t + 1)), i)
    ensures Leaving(Run(s, Interleaved(env, i, n)), i) && Leaving(StateAt(s, env, i, n), i)
    decreases n
  {
    hide Step, Run, Leaving, Interleaved;
    if n > t + 1 {
      LaterTick(s, env, i, t, n - 1);
      OneTick(s, env, i, n - 1);
      LeavingOne(StateAt(s, env, i, n - 1), Own(env, i, n - 1), i);
    }
    LeavingRun(Run(s, Interleaved(env, i, n)), env.others(n), i);
  }

  lemma LeavingOne(s: State, a: Action, i: nat)
    requires Leaving(s, i)
    ensures Leaving(Step(s, a), i)
  {
    LeavingStep(s, a, i);
  }

  /** After its deadline the thread decides once, and then never polls, spawns or publishes again. */
  lemma DeadlineIsLast(s: State, env: Env, i: nat, t: nat, n: nat)
    requires DecidesLate(s, env, i, t) && t < n
    ensures Leaving(Run(s, Interleaved(env, i, n)), i) && Leaving(StateAt(s, env, i, n), i)
    ensures !At(StateAt(s, env, i, n), i, Polling)
  {
    hide Step, Run, Interleaved;
    var u := StateAt(s, env, i, t);
    OneTick(s, env, i, t);
    DecidesIff(u, Own(env, i, t));
    LaterTick(s, env, i, t, n);
  }

  lemma Deadlines(s: State, env: Env, i: nat, ticks: nat)
    ensures forall t: nat, n: nat :: t < n < ticks && DecidesLate(s, env, i, t) ==> !At(StateAt(s, env, i, n), i, Polling)
    ensures (exists t: nat :: t < ticks && DecidesLate(s, env, i, t)) ==> Leaving(Run(s, Interleaved(env, i, ticks)), i)
  {
    hide Run, Interleaved, StateAt, DecidesLate, At;
    forall t: nat, n: nat | t < n < ticks && DecidesLate(s, env, i, t)
      ensures !At(StateAt(s, env, i, n), i, Polling)
    {
      DeadlineIsLast(s, env, i, t, n);
    }
    if t: nat :| t < ticks && DecidesLate(s, env, i, t) {
      DeadlineIsLast(s, env, i, t, ticks);
    }
  }

  /** The module's `_state`, with the threads, calls in flight and processes around it. */
  class Capture {
    var running: bool
    var process: Option<ProcId>
    var part: nat
    var id: nat
    var stopRequested: bool
    var workers: seq<Worker>
    var starters: seq<Starter>
    var alive: set<ProcId>
    var nextProc: ProcId
    var exited: set<ProcId>
    var signalled: set<ProcId>

    function Get(): Session
      reads this
    {
      Session(running, process, part, id, stopRequested)
    }

    function Sys(): State
      reads this
    {
      State(Get(), workers, starters, alive, nextProc, exited, signalled)
    }

    constructor ()
      ensures Sys() == IDLE
    {
      running, process, part, id, stopRequested := false, None, 0, 0, false;
      workers, starters, alive, nextProc, exited, signalled := [], [], {}, 0, {}, {};
    }

    method Poll(me: nat) returns (r: Option<bool>)
      ensures r == PollSection(Get(), me)
    {
      if id != me {
        return None;
      }
      r := Some(stopRequested);
    }

    method Settle(me: nat, finishing: bool) returns (done: bool)
      modifies this`running, this`process
      ensures Get() == SettleSection(old(Get()), me, finishing) && done == (id != me || finishing)
    {
      if id != me {
        return true;
      }
      if finishing {
        running := false;
        process := None;
        return true;
      }
      done := false;
    }

    method Publish(me: nat, nextPart: nat, spawned: Option<ProcId>) returns (r: Published)
      modifies this`running, this`process, this`part
      ensures Get() == PublishSection(old(Get()), me, nextPart, spawned)
      ensures r == if id != me then Superseded else if spawned == None then SpawnFailed else Continue
    {
      if id != me {
        return Superseded;
      }
      if spawned == None {
        running := false;
        process := None;
        return SpawnFailed;
      }
      part, process := nextPart, spawned;
      r := Continue;
    }

    // ----- `stop` -----

    /** Sets the stop flag of a running capture and signals its process. */
    method StopCapture() returns (stopping: bool)
      modifies this`stopRequested, this`signalled
      ensures Sys() == Step(old(Sys()), Stop)
      ensures stopping == (old(running) && old(process) != None)
      ensures signalled == old(signalled) + if stopping then {old(process).value} else {}
    {
      if process != None && running {
        stopRequested := true;
        signalled := signalled + {process.value};
        return true;
      }
      stopping := false;
    }

    // ----- `start` -----

    /**
     The first lock section signals the process of a running capture; nothing but the new call remembers
     the id it computes.
     */
    method BeginStart() returns (k: nat, terminate: Option<ProcId>)
      modifies this`starters, this`signalled
      ensures Sys() == Step(old(Sys()), StartBegin)
      ensures k == |old(starters)| < |starters| && starters[k] == Preparing(id + 1)
      ensures terminate == if running then process else None
      ensures signalled == old(signalled) + if terminate != None then {terminate.value} else {}
    {
      terminate := None;
      if process != None && running {
        terminate := process;
        signalled := signalled + {process.value};
      }
      k := |starters|;
      starters := starters + [Preparing(id + 1)];
    }

    method SpawnStart(k: nat, ok: bool)
      requires k < |starters| && starters[k].Preparing?
      modifies this`starters, this`alive, this`nextProc
      ensures Sys() == Step(old(Sys()), StartSpawn(k, ok))
      ensures ok ==> |starters| == |old(starters)| && starters[k] == Checking(old(starters[k].id), old(nextProc))
    {
      if ok {
        starters := starters[k := Checking(starters[k].id, nextProc)];
        alive, nextProc := alive + {nextProc}, nextProc + 1;
      } else {
        starters := Remove(starters, k);
      }
    }

    /** The look at the new process, which a bad filter or interface ends at once. */
    method PollStart(k: nat) returns (runs: bool)
      requires k < |starters| && starters[k].Checking?
      modifies this`starters
      ensures Sys() == Step(old(Sys()), StartPoll(k)) && runs == (old(starters[k].process) in alive)
      ensures runs ==> |starters| == |old(starters)| && starters[k] == Accepted(old(starters[k].id), old(starters[k].process))
    {
      var st := starters[k];
      runs := st.process in alive;
      starters := if runs then starters[k := Accepted(st.id, st.process)] else Remove(starters, k);
    }

    /** The second lock section stores the whole session; then its thread starts. */
    method CommitStart(k: nat)
      requires k < |starters| && starters[k].Accepted?
      modifies this`running, this`process, this`part, this`id, this`stopRequested, this`workers, this`starters
      ensures Sys() == Step(old(Sys()), StartCommit(k))
    {
      var st := starters[k];
      running, process, part, id, stopRequested := true, Some(st.process), 1, st.id, false;
      workers := workers + [Worker(st.id, Polling, st.process, 1, {st.process})];
      starters := Remove(starters, k);
    }

    /**
     `start`: what the code refuses leaves everything alone; otherwise the call makes its own steps and
     nothing else, with anything the threads and later calls do in between, up to the first that fails.
     Whatever becomes of it then, it has signalled the capture that was running.
     */
    method StartCapture(duration: Option<int>, tcpdump: bool, spawnOk: bool, others: nat -> seq<Action>)
      returns (r: Result<nat, StartError>, terminate: Option<ProcId>)
      requires forall t: nat :: ForeignCall(others(t), |starters|)
      modifies this
      ensures var s, k, first := old(Sys()), |old(starters)|, [StartBegin] + others(0);
              match r
              case Ok(i) =>
                && StartRefused(duration, tcpdump) == None && spawnOk
                && Sys() == Run(s, first + [StartSpawn(k, true)] + others(1) + [StartPoll(k)] + others(2) + [StartCommit(k)])
                && i == |workers| - 1 && running && id == old(id) + 1 && part == 1 && !stopRequested
                && workers[i].id == id && workers[i].pc == Polling && process == Some(workers[i].process)
              case Err(NotSpawned) =>
                StartRefused(duration, tcpdump) == None && !spawnOk && Sys() == Run(s, first + [StartSpawn(k, false)])
              case Err(EndedAtOnce) =>
                && StartRefused(duration, tcpdump) == None && spawnOk && Run(s, first).nextProc !in alive
                && Sys() == Run(s, first + [StartSpawn(k, true)] + others(1) + [StartPoll(k)])
              case Err(e) => StartRefused(duration, tcpdump) == Some(e) && Sys() == s
      ensures terminate == if StartRefused(duration, tcpdump) == None && old(running) then old(process) else None
      ensures terminate != None ==> terminate.value in signalled
    {
      hide Step, Run, Remove;
      ghost var s := Sys();
      var refused := StartRefused(duration, tcpdump);
      if refused != None {
        return Err(refused.value), None;
      }
      RunNothing(s);
      ghost var t := [StartBegin];
      RunOn(s, [], [], StartBegin);
      assert [] + [] + [StartBegin] == t;
      var k;
      k, terminate := BeginStart();
      LetOthersCall(others(0), k);
      RunConcat(s, t, others(0));
      RunOn(s, t, others(0), StartSpawn(k, spawnOk));
      SpawnStart(k, spawnOk);
      t := t + others(0) + [StartSpawn(k, spawnOk)];
      if !spawnOk {
        return Err(NotSpawned), terminate;
      }
      LetOthersCall(others(1), k);
      RunOn(s, t, others(1), StartPoll(k));
      var runs := PollStart(k);
      t := t + others(1) + [StartPoll(k)];
      if !runs {
        return Err(EndedAtOnce), terminate;
      }
      LetOthersCall(others(2), k);
      RunOn(s, t, others(2), StartCommit(k));
      CommitStores(Sys(), k);
      CommitStart(k);
      r := Ok(|workers| - 1);
    }

    /** Between two sections of a call, the others do what the schedule gives them. */
    method LetOthersCall(actions: seq<Action>, k: nat)
      requires k < |starters| && ForeignCall(actions, k)
      modifies this
      ensures Sys() == Run(old(Sys()), actions)
      ensures k < |starters| && starters[k] == old(starters[k]) && old(signalled) <= signalled
    {
      OtherCallSteps(Sys(), actions, k);
      SignalsStay(Sys(), actions);
      PlaySchedule(actions);
    }

    // ----- `_session_loop` -----

    /** Before this thread goes on, the others do what the schedule gives them. */
    method LetOthersRun(actions: seq<Action>, i: nat)
      requires i < |workers| && Foreign(actions, i)
      modifies this
      ensures Sys() == Run(old(Sys()), actions)
      ensures i < |workers| && workers[i] == old(workers[i])
    {
      OtherSteps(Sys(), actions, i);
      PlaySchedule(actions);
    }

    method PlaySchedule(actions: seq<Action>)
      modifies this
      ensures Sys() == Run(old(Sys()), actions)
    {
      hide Step, Run;
      assert actions[..0] == [];
      RunNothing(Sys());
      for k := 0 to |actions|
        invariant Sys() == Run(old(Sys()), actions[..k])
      {
        RunOneMore(old(Sys()), actions[..k], actions[k]);
        assert actions[..k + 1] == actions[..k] + [actions[k]];
        var s := Step(Sys(), actions[k]);
        running, process, part := s.session.running, s.session.process, s.session.part;
        id, stopRequested := s.session.id, s.session.stopRequested;
        workers, starters, alive, nextProc := s.workers, s.starters, s.alive, s.nextProc;
        exited, signalled := s.exited, s.signalled;
      }
      assert actions[..|actions|] == actions;
    }

    /** The polling section; a superseded thread stops its process and returns. */
    method PollTurn(i: nat, a: Action) returns (r: Option<bool>)
      requires i < |workers| && workers[i].pc == Polling && a.Work? && a.i == i
      modifies this
      ensures Sys() == Step(old(Sys()), a)
      ensures workers == old(workers)[i := old(workers[i]).(pc := if r == None then Returned else Deciding(r.value))]
    {
      var w := workers[i];
      r := Poll(w.id);
      if r == None {
        alive := alive - {w.process};
      }
      workers := workers[i := w.(pc := if r == None then Returned else Deciding(r.value))];
    }

    /** The look at the process, the deadline and the file: whether to leave the inner loop, and whether for good. */
    method DecideTurn(i: nat, a: Action) returns (leave: bool, finishing: bool)
      requires i < |workers| && workers[i].pc.Deciding? && a.Work? && a.i == i
      modifies this`workers
      ensures Sys() == Step(old(Sys()), a)
      ensures workers == old(workers)[i := old(workers[i]).(pc := if leave then Stopping(finishing) else Polling)]
      ensures finishing == (old(workers[i].pc.stopSeen) || a.timedOut || old(workers[i].process) !in alive)
      ensures leave == (finishing || a.oversize)
    {
      var w := workers[i];
      var exited := w.process !in alive;
      finishing := w.pc.stopSeen || a.timedOut || exited;
      leave := exited || w.pc.stopSeen || a.timedOut || a.oversize;
      workers := workers[i := w.(pc := if leave then Stopping(finishing) else Polling)];
    }

    /** SIGTERM, wait, prune. */
    method TerminateTurn(i: nat, a: Action)
      requires i < |workers| && workers[i].pc.Stopping? && a.Work? && a.i == i
      modifies this
      ensures Sys() == Step(old(Sys()), a)
      ensures workers == old(workers)[i := old(workers[i]).(pc := Settling(old(workers[i].pc.finishing)))]
    {
      var w := workers[i];
      alive := alive - {w.process};
      workers := workers[i := w.(pc := Settling(w.pc.finishing))];
    }

    method SettleTurn(i: nat, a: Action) returns (done: bool)
      requires i < |workers| && workers[i].pc.Settling? && a.Work? && a.i == i
      modifies this
      ensures Sys() == Step(old(Sys()), a)
      ensures workers == old(workers)[i := old(workers[i]).(pc := if done then Returned else Spawning)]
    {
      var w := workers[i];
      done := Settle(w.id, w.pc.finishing);
      workers := workers[i := w.(pc := if done then Returned else Spawning)];
    }

    method SpawnTurn(i: nat, a: Action) returns (spawned: Option<ProcId>)
      requires i < |workers| && workers[i].pc == Spawning && a.Work? && a.i == i
      modifies this
      ensures Sys() == Step(old(Sys()), a)
      ensures i < |workers| && workers[i].id == old(workers[i].id) && workers[i].pc == Publishing(spawned)
    {
      var w := workers[i];
      spawned := None;
      if a.spawnOk {
        spawned := Some(nextProc);
        alive, nextProc := alive + {nextProc}, nextProc + 1;
        workers := workers[i := w.(pc := Publishing(spawned), part := w.part + 1, owned := w.owned + {spawned.value})];
      } else {
        workers := workers[i := w.(pc := Publishing(None), part := w.part + 1)];
      }
    }

    method PublishTurn(i: nat, a: Action) returns (r: Published)
      requires i < |workers| && workers[i].pc.Publishing? && a.Work? && a.i == i
      modifies this
      ensures Sys() == Step(old(Sys()), a)
      ensures i < |workers| && workers[i].pc == if r == Continue then Polling else Returned
    {
      var w := workers[i];
      var spawned := w.pc.spawned;
      r := Publish(w.id, w.part, spawned);
      if r == Superseded && spawned != None {
        alive := alive - {spawned.value};
      }
      workers := workers[i := if r == Continue then w.(pc := Polling, process := spawned.value) else w.(pc := Returned)];
    }

    /** The thread has taken its first `t` steps since `s`, and had not returned before any of them. */
    ghost predicate Ticked(s: State, env: Env, i: nat, t: nat)
      reads this
    {
      Sys() == Run(s, Interleaved(env, i, t)) && Busy(s, env, i, t) && i < |workers|
    }

    /** The others go first; then the thread is in the state of its next step. */
    method BeforeTurn(ghost s: State, env: Env, i: nat, t: nat) returns (a: Action)
      requires Ticked(s, env, i, t) && ForeignEnv(env, i)
      modifies this
      ensures a == Own(env, i, t) && Sys() == StateAt(s, env, i, t)
      ensures i < |workers| && workers[i] == old(workers[i])
    {
      hide Run;
      LetOthersRun(env.others(t), i);
      a := Work(i, env.timedOut(t), env.oversize(t), env.spawnOk(t));
    }

    /**
     `_session_loop` in thread `i`: the state it leaves is that of a run in which its own steps, `ticks` of
     them, alternate with what the others do; it had not returned before any of its steps, and it stops
     making them only once it has returned, or polled as often as it was given.  Once it decides after its
     deadline it polls no more, and has returned in the end.
     */
    method SessionLoop(i: nat, env: Env, polls: nat) returns (ghost ticks: nat)
      requires i < |workers| && workers[i].pc == Polling && ForeignEnv(env, i)
      modifies this
      ensures Sys() == Run(old(Sys()), Interleaved(env, i, ticks)) && Busy(old(Sys()), env, i, ticks)
      ensures i < |workers|
      ensures workers[i].pc == Returned || (workers[i].pc == Polling && Polls(old(Sys()), env, i, ticks) == polls)
      ensures Polls(old(Sys()), env, i, ticks) <= polls
      ensures forall t: nat, n: nat :: t < n < ticks && DecidesLate(old(Sys()), env, i, t) ==>
                !At(StateAt(old(Sys()), env, i, n), i, Polling)
      ensures (exists t: nat :: t < ticks && DecidesLate(old(Sys()), env, i, t)) ==> workers[i].pc == Returned
    {
      hide Step, Run, Interleaved, StateAt, Busy, Polls, DecidesLate;
      ghost var s := Sys();
      NoTick(s, env, i);
      var tick, left := 0, polls;
      while left > 0
        invariant Ticked(s, env, i, tick) && workers[i].pc == Polling && Polls(s, env, i, tick) == polls - left
        decreases left
      {
        var leave, finishing := false, false;
        ghost var before := left;
        while !leave && left > 0
          invariant left <= before && (leave ==> left < before)
          invariant Ticked(s, env, i, tick) && Polls(s, env, i, tick) == polls - left
          invariant workers[i].pc == if leave then Stopping(finishing) else Polling
          decreases left, !leave
        {
          var a := BeforeTurn(s, env, i, tick);
          OneTick(s, env, i, tick);
          var r := PollTurn(i, a);
          tick, left := tick + 1, left - 1;
          if r == None {
            Deadlines(s, env, i, tick);
            return tick;
          }
          a := BeforeTurn(s, env, i, tick);
          OneTick(s, env, i, tick);
          leave, finishing := DecideTurn(i, a);
          tick := tick + 1;
        }
        if !leave {
          Deadlines(s, env, i, tick);
          return tick;
        }
        tick := Rotate(s, env, i, tick);
        if workers[i].pc == Returned {
          Deadlines(s, env, i, tick);
          return tick;
        }
      }
      Deadlines(s, env, i, tick);
      ticks := tick;
    }

    /** The rest of the outer loop's body: the thread stops its process, and returns or goes on with the next part. */
    method Rotate(ghost s: State, env: Env, i: nat, t: nat) returns (tick: nat)
      requires Ticked(s, env, i, t) && workers[i].pc.Stopping? && ForeignEnv(env, i)
      modifies this
      ensures Ticked(s, env, i, tick) && (workers[i].pc == Returned || workers[i].pc == Polling)
      ensures Polls(s, env, i, tick) == Polls(s, env, i, t)
    {
      hide Step, Run, Interleaved, StateAt, Busy, Polls;
      tick := t;
      var a := BeforeTurn(s, env, i, tick);
      OneTick(s, env, i, tick);
      TerminateTurn(i, a);
      tick := tick + 1;
      a := BeforeTurn(s, env, i, tick);
      OneTick(s, env, i, tick);
      var done := SettleTurn(i, a);
      tick := tick + 1;
      if done {
        return;
      }
      a := BeforeTurn(s, env, i, tick);
      OneTick(s, env, i, tick);
      var _ := SpawnTurn(i, a);
      tick := tick + 1;
      a := BeforeTurn(s, env, i, tick);
      OneTick(s, env, i, tick);
      var _ := PublishTurn(i, a);
      tick := tick + 1;
    }
  }

  lemma NoTick(s: State, env: Env, i: nat)
    ensures Run(s, Interleaved(env, i, 0)) == s && Busy(s, env, i, 0) && Polls(s, env, i, 0) == 0
  {
  }

  lemma CommitStores(s: State, k: nat)
    requires k < |s.starters| && s.starters[k].Accepted?
    ensures var s', st := Step(s, StartCommit(k)), s.starters[k];
            && s'.session == CommitSection(st.id, st.process) && |s'.workers| == |s.workers| + 1
            && s'.workers[|s.workers|] == Worker(st.id, Polling, st.process, 1, {st.process})
  {
  }

  datatype StartError = BadDuration | NoTcpdump | NotSpawned | EndedAtOnce

  const MAX_DURATION := 3600

  /** What `start` checks before it does anything. */
  function StartRefused(duration: Option<int>, tcpdump: bool): Option<StartError> {
    if duration != None && !(1 <= duration.value <= MAX_DURATION) then Some(BadDuration)
    else if !tcpdump then Some(NoTcpdump)
    else None
  }

  /** What it accepts, and the first fault of what it does not. */
  lemma StartRefusedIff(duration: Option<int>, tcpdump: bool)
    ensures var bounded := duration.Some? ==> 1 <= duration.value <= 3600;
            && (StartRefused(duration, tcpdump) == None <==> bounded && tcpdump)
            && (StartRefused(duration, tcpdump) == Some(BadDuration) <==> !bounded)
            && (StartRefused(duration, tcpdump) == Some(NoTcpdump) <==> bounded && !tcpdump)
  {
  }
}
