/** The round-robin scheduler: processes give up the processor only by waiting, and are woken together
    when all of them wait. */
module Scheduler {
  import opened Bytes
  import opened Arith

  datatype ProcessState = RUNNABLE | RUNNING | WAITING

  /** Whose code the processor runs. */
  datatype Task = Boot | Idle | Run(pid: nat)

  predicate All(s: seq<nat>, state: map<nat, ProcessState>, ps: ProcessState) {
    forall i | 0 <= i < |s| :: s[i] in state && state[s[i]] == ps
  }

  function Optional(current: Option<nat>): seq<nat> {
    if current.Some? then [current.value] else []
  }

  function Ran(state: map<nat, ProcessState>, current: Option<nat>): map<nat, ProcessState> {
    if current.Some? then state[current.value := RUNNING] else state
  }

  /** The `k`-th dispatch goes to the `k`-th process, round after round. */
  predicate Cyclic(log: seq<nat>, procs: seq<nat>) {
    if procs == [] then log == [] else forall k | 0 <= k < |log| :: log[k] == procs[k % |procs|]
  }

  /** How many processes had their turn in this round. */
  predicate Turn(log: seq<nat>, procs: seq<nat>, turn: nat) {
    |procs| > 0 ==> turn <= |procs| && |log| % |procs| == turn % |procs|
  }

  class Scheduler {
    var current: Option<nat>
    var runQueue: seq<nat>
    var waitQueue: seq<nat>
    var state: map<nat, ProcessState>
    var running: Task
    ghost const procs: seq<nat>
    ghost var log: seq<nat>

    /** Every process is in exactly one place, in the order they were spawned. */
    ghost predicate Placed()
      reads this
    {
      Distinct(procs) && waitQueue + Optional(current) + runQueue == procs
    }

    ghost predicate Queues()
      reads this
    {
      Placed() && All(waitQueue, state, WAITING) && All(runQueue, state, RUNNABLE)
      && Cyclic(log, procs) && Turn(log, procs, |waitQueue + Optional(current)|)
    }

    /** Between steps: a process runs, or all wait and the idle task runs. */
    ghost predicate Valid()
      reads this
    {
      && Queues() && All(Optional(current), state, RUNNING)
      && match current {
           case Some(p) => running == Run(p)
           case None => running == Idle && runQueue == []
         }
    }

    /** Processes were spawned one after another. */
    constructor (procs: seq<nat>)
      requires Distinct(procs)
      ensures Queues() && current == None && running == Boot && runQueue == procs && this.procs == procs && log == []
    {
      this.procs := procs;
      current, runQueue, waitQueue, running, log := None, procs, [], Boot, [];
      state := map p | p in procs :: RUNNABLE;
    }

    method Enqueue(p: nat)
      modifies this`runQueue, this`state
      ensures runQueue == old(runQueue) + [p] && state == old(state)[p := RUNNABLE]
    {
      state := state[p := RUNNABLE];
      runQueue := runQueue + [p];
    }

    /** Puts the current process where its state says and switches to the next runnable one, or to the
        idle task. Reports whether the current process was not waiting. */
    method Schedule() returns (ghost preempted: bool)
      requires current.Some? ==> current.value in state
      modifies this
      ensures preempted <==> old(current).Some? && old(state)[old(current).value] != WAITING
      ensures waitQueue == old(waitQueue) + if preempted then [] else Optional(old(current))
      ensures Optional(current) + runQueue == old(runQueue) + if preempted then Optional(old(current)) else []
      ensures current == None ==> runQueue == []
      ensures state == Ran(if preempted then old(state)[old(current).value := RUNNABLE] else old(state), current)
      ensures running == if current.Some? then Run(current.value) else Idle
      ensures log == old(log) + Optional(current)
    {
      var prev := current;
      current := None;
      preempted := false;
      if prev.Some? {
        if state[prev.value] == WAITING {
          waitQueue := waitQueue + [prev.value];
        } else {
          preempted := true;
          Enqueue(prev.value);
        }
      }
      if runQueue != [] {
        var next := runQueue[0];
        runQueue := runQueue[1..];
        current := Some(next);
        state := state[next := RUNNING];
        running := Run(next);
        log := log + [next];
      } else {
        running := Idle;
      }
    }

    /** The kernel starts the first process. */
    method Start()
      requires Queues() && current == None && running == Boot && runQueue == procs && log == []
      modifies this
      ensures Valid() && running == (if procs == [] then Idle else Run(procs[0]))
      ensures waitQueue == [] && |log| == if procs == [] then 0 else 1
    {
      ghost var preempted := Schedule();
      assert Optional(current) + runQueue == procs;
      Dispatched([], procs, [], Optional(current), runQueue);
      StatesOk(procs, waitQueue, current, runQueue, old(state), state);
    }

    /** The running process waits for an event. */
    method ProcessWait() returns (ghost preempted: bool)
      requires Valid() && running.Run?
      modifies this
      ensures Valid() && !preempted && waitQueue == old(waitQueue) + [old(running).pid]
      ensures |log| == |old(log)| + if current.Some? then 1 else 0
    {
      var p := current.value;
      state := state[p := WAITING];
      ghost var waiting := state;
      WaitStates(procs, waitQueue, p, runQueue, old(state));
      preempted := Schedule();
      assert Optional(current) + runQueue == old(runQueue);
      Dispatched(old(log), procs, old(waitQueue) + [p], Optional(current), runQueue);
      StatesOk(procs, waitQueue, current, runQueue, waiting, state);
    }

    /** Every waiting process becomes runnable. */
    method WakeUpProcesses()
      modifies this`waitQueue, this`runQueue, this`state
      ensures waitQueue == [] && runQueue == old(runQueue) + old(waitQueue)
      ensures state == Woken(old(state), old(waitQueue))
    {
      ghost var k := 0;
      while waitQueue != []
        invariant 0 <= k <= |old(waitQueue)| && waitQueue == old(waitQueue)[k..]
        invariant runQueue == old(runQueue) + old(waitQueue)[..k] && state == Woken(old(state), old(waitQueue)[..k])
        decreases |waitQueue|
      {
        var p := waitQueue[0];
        waitQueue := waitQueue[1..];
        Enqueue(p);
        assert old(waitQueue)[..k + 1] == old(waitQueue)[..k] + [p];
        k := k + 1;
      }
      assert old(waitQueue)[..k] == old(waitQueue);
    }

    /** The idle task wakes the processes and gives the processor away. */
    method IdleStep() returns (ghost preempted: bool)
      requires Valid() && running == Idle
      modifies this
      ensures Valid() && !preempted && waitQueue == [] && running == (if procs == [] then Idle else Run(procs[0]))
      ensures |log| == |old(log)| + if current.Some? then 1 else 0
    {
      hide Cyclic, Turn, All, Distinct, Woken;
      Everyone(waitQueue);
      NewRound(log, procs);
      WakeUpProcesses();
      WokenStates(old(waitQueue), old(state));
      ghost var woken := state;
      assert runQueue == procs;
      preempted := Schedule();
      Dispatched(old(log), procs, [], Optional(current), runQueue);
      StatesOk(procs, waitQueue, current, runQueue, woken, state);
    }
  }

  /** How many steps of the current round were taken: one for each process, and one that wakes them. */
  function InRound(procs: seq<nat>, steps: nat): nat {
    steps % (|procs| + 1)
  }

  /** Who runs after so many steps. */
  function RunsAfter(procs: seq<nat>, steps: nat): Task {
    if InRound(procs, steps) < |procs| then Run(procs[InRound(procs, steps)]) else Idle
  }

  /** How many dispatches there were: all processes in each whole round, and those of this one. */
  function Dispatches(procs: seq<nat>, steps: nat): nat {
    steps / (|procs| + 1) * |procs|
    + if InRound(procs, steps) < |procs| then InRound(procs, steps) + 1 else |procs|
  }

  lemma StepAfter(procs: seq<nat>, steps: nat)
    ensures InRound(procs, steps) < |procs| ==>
              && InRound(procs, steps + 1) == InRound(procs, steps) + 1
              && Dispatches(procs, steps + 1)
                 == Dispatches(procs, steps) + if InRound(procs, steps) + 1 < |procs| then 1 else 0
    ensures InRound(procs, steps) >= |procs| ==>
              && InRound(procs, steps + 1) == 0
              && Dispatches(procs, steps + 1) == Dispatches(procs, steps) + if procs == [] then 0 else 1
  {
    var n := |procs| + 1;
    var (q, r) := (steps / n, steps % n);
    DivMod(steps, n);
    if r + 1 < n {
      DivIs(steps + 1, q, n, r + 1);
    } else {
      assert (q + 1) * n == q * n + n && (q + 1) * |procs| == q * |procs| + |procs|;
      DivIs(steps + 1, q + 1, n, 0);
    }
  }

  lemma DivIs(x: nat, q: nat, b: nat, r: nat)
    requires b > 0 && r < b && x == q * b + r
    ensures x % b == r && x / b == q
  {
    ModUnique(x, q, b, r);
    DivMod(x, b);
    Cancel(x / b, q, b);
  }

  /** From boot on, through any number of steps, no process is ever preempted and the turns go round: who runs,
      who waits and how often processes were dispatched depends only on how many steps were taken. */
  method Operate(procs: seq<nat>, steps: nat) returns (s: Scheduler, ghost preempted: bool)
    requires Distinct(procs)
    ensures s.Valid() && s.procs == procs && !preempted && Cyclic(s.log, procs)
    ensures s.running == RunsAfter(procs, steps) && |s.log| == Dispatches(procs, steps)
    ensures s.waitQueue == procs[..InRound(procs, steps)]
  {
    hide Cyclic, Turn, All, Distinct, InRound, Dispatches, Optional;
    s := new Scheduler(procs);
    s.Start();
    preempted := false;
    AtBoot(procs);
    for i := 0 to steps
      invariant s.Valid() && s.procs == procs && !preempted && fresh(s)
      invariant |s.waitQueue| == InRound(procs, i) && |s.log| == Dispatches(procs, i)
    {
      ghost var now;
      StepAfter(procs, i);
      WhereTheyAre(procs, s.waitQueue, s.current, s.runQueue);
      if s.running.Run? {
        now := s.ProcessWait();
      } else {
        now := s.IdleStep();
      }
      WhereTheyAre(procs, s.waitQueue, s.current, s.runQueue);
      preempted := preempted || now;
    }
    WhereTheyAre(procs, s.waitQueue, s.current, s.runQueue);
  }

  lemma AtBoot(procs: seq<nat>)
    ensures InRound(procs, 0) == 0 && Dispatches(procs, 0) == if procs == [] then 0 else 1
  {
  }

  /** The length of the wait queue says who runs. */
  lemma WhereTheyAre(procs: seq<nat>, wait: seq<nat>, current: Option<nat>, run: seq<nat>)
    requires wait + Optional(current) + run == procs && (current == None ==> run == [])
    ensures |wait| <= |procs| && wait == procs[..|wait|] && (current == None <==> |wait| == |procs|)
    ensures current.Some? ==> current.value == procs[|wait|] && (run == [] <==> |wait| + 1 == |procs|)
  {
  }

  function Woken(state: map<nat, ProcessState>, ps: seq<nat>): map<nat, ProcessState> {
    if ps == [] then state else Woken(state, ps[..|ps| - 1])[ps[|ps| - 1] := RUNNABLE]
  }

  lemma Everyone(wait: seq<nat>)
    ensures wait + [] + [] == wait && wait + [] == wait && [] + wait == wait
    ensures forall state :: All([], state, WAITING) && All([], state, RUNNING)
  {
  }

  /** When all had their turn, none had it in the next round. */
  lemma NewRound(log: seq<nat>, procs: seq<nat>)
    ensures Turn(log, procs, |procs|) ==> Turn(log, procs, 0)
  {
    if procs != [] {
      ModUnique(|procs|, 1, |procs|, 0);
    }
  }

  lemma {:induction false} WokenStates(ps: seq<nat>, state: map<nat, ProcessState>)
    ensures All(ps, Woken(state, ps), RUNNABLE)
  {
    if ps != [] {
      WokenStates(ps[..|ps| - 1], state);
    }
  }

  /** A dispatch continues the round. */
  lemma Dispatched(log: seq<nat>, procs: seq<nat>, done: seq<nat>, next: seq<nat>, rest: seq<nat>)
    requires Cyclic(log, procs) && done + next + rest == procs && |next| <= 1 && Turn(log, procs, |done|)
    ensures Cyclic(log + next, procs) && Turn(log + next, procs, |done + next|)
  {
    if next != [] {
      var n := |procs|;
      ModUnique(|done|, 0, n, |done|);
      assert procs[|done|] == next[0];
      ModNext(|log|, n);
      ModNext(|done|, n);
    } else {
      assert log + next == log && done + next == done;
    }
  }

  lemma StatesOk(procs: seq<nat>, wait: seq<nat>, current: Option<nat>, run: seq<nat>,
                 before: map<nat, ProcessState>, after: map<nat, ProcessState>)
    requires Distinct(procs) && wait + Optional(current) + run == procs
    requires All(wait, before, WAITING) && All(Optional(current) + run, before, RUNNABLE)
    requires after == Ran(before, current)
    ensures All(wait, after, WAITING) && All(run, after, RUNNABLE) && All(Optional(current), after, RUNNING)
  {
    var both := Optional(current) + run;
    forall i | 0 <= i < |run| ensures run[i] in after && after[run[i]] == RUNNABLE {
      assert both[|Optional(current)| + i] == run[i];
      assert procs[|wait| + |Optional(current)| + i] == run[i] && (current.Some? ==> procs[|wait|] == current.value);
    }
    forall i | 0 <= i < |wait| ensures wait[i] in after && after[wait[i]] == WAITING {
      assert procs[i] == wait[i] && (current.Some? ==> procs[|wait|] == current.value);
    }
  }

  lemma WaitStates(procs: seq<nat>, wait: seq<nat>, p: nat, run: seq<nat>, state: map<nat, ProcessState>)
    requires Distinct(procs) && wait + [p] + run == procs && All(wait, state, WAITING) && All(run, state, RUNNABLE)
    ensures All(wait + [p], state[p := WAITING], WAITING) && All(run, state[p := WAITING], RUNNABLE)
  {
    forall i | 0 <= i < |run| ensures run[i] != p {
      assert procs[|wait|] == p && procs[|wait| + 1 + i] == run[i];
    }
  }

  /** Dispatches less than a round apart go to different processes. */
  lemma TurnsDiffer(log: seq<nat>, procs: seq<nat>, i: nat, j: nat)
    requires Distinct(procs) && Cyclic(log, procs) && i < j < |log|
    ensures log[i] == log[j] ==> j - i >= |procs|
  {
    if j - i < |procs| {
      ModDiffers(i, j, |procs|);
    }
  }

  /** No process runs twice before every process has run. */
  lemma Fair(log: seq<nat>, procs: seq<nat>, i: nat, j: nat, q: nat)
    requires Distinct(procs) && Cyclic(log, procs) && i < j < |log| && log[i] == log[j] && q in procs
    ensures j - i >= |procs| && exists k :: i <= k < j && log[k] == q
  {
    var n := |procs|;
    TurnsDiffer(log, procs, i, j);
    var m :| 0 <= m < n && procs[m] == q;
    var k := ModVisits(i, n, m);
    assert log[k] == q;
  }
}
