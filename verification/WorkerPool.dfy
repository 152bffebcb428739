/** The priority worker pool as an interleaving of its critical sections
    (include/hive_native/perf/worker_pool.hpp). */
module WorkerPool {
  import opened Wrappers

  const LEVELS := 4

  /** A task, named by its priority level and its place in the order of submission. */
  datatype Task = Task(level: nat, serial: nat)

  /** What the mutex protects. */
  datatype Shared = Shared(queues: seq<seq<Task>>, stop: bool, inflight: nat, submitted: nat, completed: nat)

  // ----- the critical sections

  /** The first level from i on whose queue is not empty. */
  function Level(queues: seq<seq<Task>>, i: nat): (l: nat)
    requires i <= |queues|
    ensures i <= l <= |queues|
    ensures forall j :: i <= j < l ==> queues[j] == []
    ensures l < |queues| ==> queues[l] != []
    decreases |queues| - i
  {
    if i == |queues| || queues[i] != [] then i else Level(queues, i + 1)
  }

  predicate AllEmpty(sh: Shared) {
    forall l :: 0 <= l < |sh.queues| ==> sh.queues[l] == []
  }

  function Push(sh: Shared, t: Task): Shared
    requires t.level < |sh.queues|
  {
    sh.(queues := sh.queues[t.level := sh.queues[t.level] + [t]], submitted := sh.submitted + 1)
  }

  function Front(sh: Shared): Task
    requires !AllEmpty(sh)
  {
    sh.queues[Level(sh.queues, 0)][0]
  }

  function Take(sh: Shared): Shared
    requires !AllEmpty(sh)
  {
    var l := Level(sh.queues, 0);
    sh.(queues := sh.queues[l := sh.queues[l][1..]], inflight := sh.inflight + 1)
  }

  function Done(sh: Shared): Shared
    requires sh.inflight > 0
  {
    sh.(inflight := sh.inflight - 1, completed := sh.completed + 1)
  }

  class Pool {
    var queues: seq<seq<Task>>
    var stop: bool
    var inflight: nat
    var submitted: nat
    var completed: nat

    ghost function Value(): Shared
      reads this
    {
      Shared(queues, stop, inflight, submitted, completed)
    }

    constructor ()
      ensures Value() == Shared([[], [], [], []], false, 0, 0, 0)
    {
      queues := [[], [], [], []];
      stop, inflight, submitted, completed := false, 0, 0, 0;
    }

    method Submit(t: Task)
      requires t.level < |queues|
      modifies this
      ensures Value() == Push(old(Value()), t)
    {
      queues := queues[t.level := queues[t.level] + [t]];
      submitted := submitted + 1;
    }

    method IsAllEmpty() returns (empty: bool)
      ensures empty <==> AllEmpty(Value())
    {
      for l := 0 to |queues|
        invariant forall j :: 0 <= j < l ==> queues[j] == []
      {
        if queues[l] != [] { return false; }
      }
      return true;
    }

    /** Removes the front of the first non-empty queue. */
    method Pop() returns (t: Option<Task>)
      modifies this`queues
      ensures t.None? <==> old(AllEmpty(Value()))
      ensures t.None? ==> queues == old(queues)
      ensures t.Some? ==> t.value == Front(old(Value())) && queues == Take(old(Value())).queues
    {
      for i := 0 to |queues|
        invariant queues == old(queues)
        invariant Level(queues, i) == Level(queues, 0)
        invariant forall j :: 0 <= j < i ==> queues[j] == []
      {
        if queues[i] != [] {
          t := Some(queues[i][0]);
          queues := queues[i := queues[i][1..]];
          return;
        }
      }
      return None;
    }

    /** A woken worker leaves when the pool is stopping and empty; otherwise it takes a
        task, and taking never fails. */
    method Wake() returns (t: Option<Task>)
      requires stop || !AllEmpty(Value())
      modifies this
      ensures t.None? <==> old(AllEmpty(Value()))
      ensures t.None? ==> Value() == old(Value()) && stop
      ensures t.Some? ==> t.value == Front(old(Value())) && Value() == Take(old(Value()))
    {
      var empty := IsAllEmpty();
      if stop && empty { return None; }
      t := Pop();
      inflight := inflight + 1;
    }

    method Finish()
      requires inflight > 0
      modifies this
      ensures Value() == Done(old(Value()))
    {
      inflight := inflight - 1;
      completed := completed + 1;
    }

    method Stop()
      modifies this
      ensures Value() == old(Value()).(stop := true)
    {
      stop := true;
    }

    /** The test on which waiting for idleness returns. */
    method IsIdle() returns (idle: bool)
      ensures idle <==> inflight == 0 && AllEmpty(Value())
    {
      var empty := IsAllEmpty();
      return inflight == 0 && empty;
    }
  }

  // ----- the pool and its threads

  datatype Worker = Waiting | Running(task: Task) | Exited

  /** The shared part, the workers, and three histories: submissions, removals from the
      queues, and completions. */
  datatype System = System(shared: Shared, workers: seq<Worker>, log: seq<Task>, started: seq<Task>,
                           finished: seq<Task>)

  /** A task is submitted by a client or by the task a worker is running. */
  datatype Event =
    | SubmitBy(worker: Option<nat>, level: nat)
    | TakeBy(w: nat)
    | FinishBy(w: nat)
    | ExitBy(w: nat)
    | StopPool

  /** Clients no longer submit once the destructor runs. */
  predicate Enabled(s: System, ev: Event) {
    match ev
    case SubmitBy(None, l) => l < |s.shared.queues| && !s.shared.stop
    case SubmitBy(Some(w), l) => l < |s.shared.queues| && w < |s.workers| && s.workers[w].Running?
    case TakeBy(w) => w < |s.workers| && s.workers[w].Waiting? && !AllEmpty(s.shared)
    case FinishBy(w) => w < |s.workers| && s.workers[w].Running? && s.shared.inflight > 0
    case ExitBy(w) => w < |s.workers| && s.workers[w].Waiting? && s.shared.stop && AllEmpty(s.shared)
    case StopPool => true
  }

  function Next(s: System, ev: Event): System
    requires Enabled(s, ev)
  {
    match ev
    case SubmitBy(_, l) =>
      var t := Task(l, |s.log|);
      s.(shared := Push(s.shared, t), log := s.log + [t])
    case TakeBy(w) =>
      var t := Front(s.shared);
      s.(shared := Take(s.shared), workers := s.workers[w := Running(t)], started := s.started + [t])
    case FinishBy(w) =>
      s.(shared := Done(s.shared), workers := s.workers[w := Waiting], finished := s.finished + [s.workers[w].task])
    case ExitBy(w) => s.(workers := s.workers[w := Exited])
    case StopPool => s.(shared := s.shared.(stop := true))
  }

  predicate Start(s: System) {
    && s.shared == Shared([[], [], [], []], false, 0, 0, 0)
    && |s.workers| > 0 && (forall w :: 0 <= w < |s.workers| ==> s.workers[w].Waiting?)
    && s.log == s.started == s.finished == []
  }

  /** A run: states, and the events between them. */
  ghost predicate IsRun(states: seq<System>, evs: seq<Event>) {
    && |states| == |evs| + 1
    && Start(states[0])
    && forall k :: 0 <= k < |evs| ==> Enabled(states[k], evs[k]) && states[k + 1] == Next(states[k], evs[k])
  }

  // ----- the invariant

  function OfLevel(ts: seq<Task>, l: nat): seq<Task> {
    if ts == [] then [] else OfLevel(ts[..|ts| - 1], l) + (if ts[|ts| - 1].level == l then [ts[|ts| - 1]] else [])
  }

  function RunningTasks(workers: seq<Worker>): multiset<Task> {
    if workers == [] then multiset{}
    else
      RunningTasks(workers[..|workers| - 1]) + TaskOf(workers[|workers| - 1])
  }

  function TaskOf(w: Worker): multiset<Task> {
    if w.Running? then multiset{w.task} else multiset{}
  }

  function Queued(sh: Shared): nat
    requires |sh.queues| == LEVELS
  {
    |sh.queues[0]| + |sh.queues[1]| + |sh.queues[2]| + |sh.queues[3]|
  }

  ghost predicate Numbered(log: seq<Task>) {
    forall i :: 0 <= i < |log| ==> log[i].serial == i && log[i].level < LEVELS
  }

  /** The counters count the histories, and nothing is lost. */
  ghost predicate Counted(s: System) {
    && |s.shared.queues| == LEVELS && |s.workers| > 0
    && s.shared.submitted == |s.log|
    && s.shared.completed == |s.finished|
    && s.shared.inflight == |RunningTasks(s.workers)|
    && |s.log| == |s.started| + Queued(s.shared)
  }

  /** What was taken is running or finished. */
  ghost predicate Accounted(s: System) {
    multiset(s.started) == multiset(s.finished) + RunningTasks(s.workers)
  }

  /** Level by level, removals followed by the queue are the submissions in order. */
  ghost predicate InOrder(s: System) {
    && |s.shared.queues| == LEVELS && Numbered(s.log)
    && forall l :: 0 <= l < LEVELS ==> OfLevel(s.started, l) + s.shared.queues[l] == OfLevel(s.log, l)
  }

  /** Workers leave only while stopping, and the last one leaves nothing behind. */
  ghost predicate ShutsDown(s: System) {
    && ((exists w :: 0 <= w < |s.workers| && s.workers[w].Exited?) ==> s.shared.stop)
    && ((forall w :: 0 <= w < |s.workers| ==> s.workers[w].Exited?) ==> AllEmpty(s.shared))
  }

  ghost predicate Inv(s: System) {
    Counted(s) && Accounted(s) && InOrder(s) && ShutsDown(s)
  }

  lemma {:induction false} OfLevelAppend(ts: seq<Task>, t: Task, l: nat)
    ensures OfLevel(ts + [t], l) == OfLevel(ts, l) + (if t.level == l then [t] else [])
  {
    assert (ts + [t])[..|ts|] == ts;
  }

  lemma {:induction false} RunningUpdateAt(workers: seq<Worker>, w: nat, x: Worker, t: Task)
    requires w < |workers|
    ensures RunningTasks(workers[w := x])[t] + TaskOf(workers[w])[t] == RunningTasks(workers)[t] + TaskOf(x)[t]
  {
    var n := |workers| - 1;
    var after := workers[w := x];
    if w == n {
      assert after[..n] == workers[..n];
    } else {
      assert after[..n] == workers[..n][w := x];
      RunningUpdateAt(workers[..n], w, x, t);
    }
  }

  lemma RunningUpdate(workers: seq<Worker>, w: nat, x: Worker)
    requires w < |workers|
    ensures RunningTasks(workers[w := x]) + TaskOf(workers[w]) == RunningTasks(workers) + TaskOf(x)
  {
    var a, b := RunningTasks(workers[w := x]) + TaskOf(workers[w]), RunningTasks(workers) + TaskOf(x);
    forall t: Task ensures a[t] == b[t] { RunningUpdateAt(workers, w, x, t); }
  }

  lemma WorkerStarts(workers: seq<Worker>, w: nat, t: Task)
    requires w < |workers| && workers[w].Waiting?
    ensures RunningTasks(workers[w := Running(t)]) == RunningTasks(workers) + multiset{t}
  {
    RunningUpdate(workers, w, Running(t));
    assert RunningTasks(workers[w := Running(t)]) + multiset{} == RunningTasks(workers[w := Running(t)]);
  }

  lemma WorkerStops(workers: seq<Worker>, w: nat, x: Worker)
    requires w < |workers| && !x.Running?
    ensures RunningTasks(workers) == RunningTasks(workers[w := x]) + TaskOf(workers[w])
  {
    RunningUpdate(workers, w, x);
    assert RunningTasks(workers) + multiset{} == RunningTasks(workers);
  }

  lemma SubmitKeepsOrder(s: System, t: Task)
    requires InOrder(s) && t.level < LEVELS && t.serial == |s.log|
    ensures InOrder(s.(shared := Push(s.shared, t), log := s.log + [t]))
  {
    forall l | 0 <= l < LEVELS ensures OfLevel(s.started, l) + Push(s.shared, t).queues[l] == OfLevel(s.log + [t], l) {
      OfLevelAppend(s.log, t, l);
      assert OfLevel(s.started, l) + s.shared.queues[l] == OfLevel(s.log, l);
      if l == t.level {
        assert OfLevel(s.started, l) + (s.shared.queues[l] + [t]) == (OfLevel(s.started, l) + s.shared.queues[l]) + [t];
      }
    }
  }

  lemma TakeKeepsOrder(s: System)
    requires InOrder(s) && !AllEmpty(s.shared)
    ensures InOrder(s.(shared := Take(s.shared), started := s.started + [Front(s.shared)]))
  {
    var t, top := Front(s.shared), Level(s.shared.queues, 0);
    FrontHasLevel(s);
    forall l | 0 <= l < LEVELS ensures OfLevel(s.started + [t], l) + Take(s.shared).queues[l] == OfLevel(s.log, l) {
      OfLevelAppend(s.started, t, l);
      assert OfLevel(s.started, l) + s.shared.queues[l] == OfLevel(s.log, l);
      if l == top {
        assert s.shared.queues[l] == [t] + s.shared.queues[l][1..];
      }
    }
  }

  lemma StepKeepsOrder(s: System, ev: Event)
    requires Inv(s) && Enabled(s, ev)
    ensures InOrder(Next(s, ev))
  {
    match ev
    case SubmitBy(_, l) => SubmitKeepsOrder(s, Task(l, |s.log|));
    case TakeBy(_) => TakeKeepsOrder(s);
    case FinishBy(_) =>
    case ExitBy(_) =>
    case StopPool =>
  }

  lemma TakeKeepsAccount(s: System, w: nat, t: Task)
    requires Accounted(s) && w < |s.workers| && s.workers[w].Waiting?
    ensures Accounted(s.(workers := s.workers[w := Running(t)], started := s.started + [t]))
    ensures |RunningTasks(s.workers[w := Running(t)])| == |RunningTasks(s.workers)| + 1
  {
    WorkerStarts(s.workers, w, t);
    assert multiset(s.started + [t]) == multiset(s.started) + multiset{t};
  }

  lemma FinishKeepsAccount(s: System, w: nat)
    requires Accounted(s) && w < |s.workers| && s.workers[w].Running?
    ensures Accounted(s.(workers := s.workers[w := Waiting], finished := s.finished + [s.workers[w].task]))
    ensures |RunningTasks(s.workers[w := Waiting])| == |RunningTasks(s.workers)| - 1
  {
    WorkerStops(s.workers, w, Waiting);
    assert multiset(s.finished + [s.workers[w].task]) == multiset(s.finished) + multiset{s.workers[w].task};
  }

  lemma ExitKeepsAccount(s: System, w: nat)
    requires Accounted(s) && w < |s.workers| && s.workers[w].Waiting?
    ensures Accounted(s.(workers := s.workers[w := Exited]))
    ensures |RunningTasks(s.workers[w := Exited])| == |RunningTasks(s.workers)|
  {
    WorkerStops(s.workers, w, Exited);
    assert RunningTasks(s.workers[w := Exited]) + multiset{} == RunningTasks(s.workers[w := Exited]);
  }

  lemma StepKeepsAccount(s: System, ev: Event)
    requires Inv(s) && Enabled(s, ev)
    ensures Accounted(Next(s, ev))
    ensures Next(s, ev).shared.inflight == |RunningTasks(Next(s, ev).workers)|
  {
    match ev
    case TakeBy(w) => TakeKeepsAccount(s, w, Front(s.shared));
    case FinishBy(w) => FinishKeepsAccount(s, w);
    case ExitBy(w) => ExitKeepsAccount(s, w);
    case SubmitBy(_, _) =>
    case StopPool =>
  }

  lemma PushQueues(sh: Shared, t: Task)
    requires |sh.queues| == LEVELS && t.level < LEVELS
    ensures Queued(Push(sh, t)) == Queued(sh) + 1
  {
  }

  lemma TakeUnqueues(sh: Shared)
    requires |sh.queues| == LEVELS && !AllEmpty(sh)
    ensures |Take(sh).queues| == LEVELS && Queued(Take(sh)) == Queued(sh) - 1
  {
  }

  lemma StepKeepsCount(s: System, ev: Event)
    requires Counted(s) && Enabled(s, ev)
    requires Next(s, ev).shared.inflight == |RunningTasks(Next(s, ev).workers)|
    ensures Counted(Next(s, ev))
  {
    match ev
    case SubmitBy(_, l) => PushQueues(s.shared, Task(l, |s.log|));
    case TakeBy(_) => TakeUnqueues(s.shared);
    case FinishBy(_) =>
    case ExitBy(_) =>
    case StopPool =>
  }

  lemma StepKeepsShutdown(s: System, ev: Event)
    requires Inv(s) && Enabled(s, ev)
    ensures ShutsDown(Next(s, ev))
  {
    var s' := Next(s, ev);
    match ev
    case TakeBy(w) => assert s'.workers[w].Running?;
    case FinishBy(w) => assert s'.workers[w].Waiting?;
    case SubmitBy(Some(w), _) => assert s'.workers[w].Running?;
    case SubmitBy(None, _) => assert !s'.workers[0].Exited?;
    case ExitBy(_) =>
    case StopPool =>
  }

  /** Tasks of a level all have that level. */
  lemma {:induction false} OfLevelMembers(ts: seq<Task>, l: nat)
    ensures forall i :: 0 <= i < |OfLevel(ts, l)| ==> OfLevel(ts, l)[i].level == l && OfLevel(ts, l)[i] in ts
  {
    if ts == [] {
    } else {
      OfLevelMembers(ts[..|ts| - 1], l);
    }
  }

  lemma FrontHasLevel(s: System)
    requires InOrder(s) && !AllEmpty(s.shared)
    ensures Front(s.shared).level == Level(s.shared.queues, 0) < LEVELS
  {
    var l := Level(s.shared.queues, 0);
    OfLevelMembers(s.log, l);
    var d := OfLevel(s.started, l);
    assert OfLevel(s.log, l) == d + s.shared.queues[l];
    assert OfLevel(s.log, l)[|d|] == s.shared.queues[l][0];
  }

  lemma StepKeepsInv(s: System, ev: Event)
    requires Inv(s) && Enabled(s, ev)
    ensures Inv(Next(s, ev))
  {
    StepKeepsOrder(s, ev);
    StepKeepsAccount(s, ev);
    StepKeepsCount(s, ev);
    StepKeepsShutdown(s, ev);
  }

  lemma {:induction false} RunKeepsInv(states: seq<System>, evs: seq<Event>, k: nat)
    requires IsRun(states, evs) && k <= |evs|
    ensures Inv(states[k])
  {
    if k == 0 {
      NobodyRuns(states[0].workers);
    } else {
      RunKeepsInv(states, evs, k - 1);
      StepKeepsInv(states[k - 1], evs[k - 1]);
    }
  }

  lemma {:induction false} NobodyRuns(workers: seq<Worker>)
    requires forall w :: 0 <= w < |workers| ==> !workers[w].Running?
    ensures RunningTasks(workers) == multiset{}
  {
    if workers == [] {
    } else {
      NobodyRuns(workers[..|workers| - 1]);
    }
  }

  // ----- what every interleaving guarantees

  /** Submitted tasks are queued, in flight or completed. */
  lemma TasksConserved(states: seq<System>, evs: seq<Event>, k: nat)
    requires IsRun(states, evs) && k <= |evs|
    ensures |states[k].shared.queues| == LEVELS
    ensures states[k].shared.submitted ==
            Queued(states[k].shared) + states[k].shared.inflight + states[k].shared.completed
  {
    RunKeepsInv(states, evs, k);
    var s := states[k];
    assert |multiset(s.started)| == |multiset(s.finished)| + |RunningTasks(s.workers)|;
  }

  lemma {:induction false} OfLevelCount(ts: seq<Task>, t: Task)
    ensures multiset(OfLevel(ts, t.level))[t] == multiset(ts)[t]
  {
    if ts == [] {
    } else {
      var n := |ts| - 1;
      assert ts == ts[..n] + [ts[n]];
      OfLevelCount(ts[..n], t);
    }
  }

  lemma {:induction false} NumberedOnce(log: seq<Task>, t: Task)
    requires Numbered(log)
    ensures multiset(log)[t] <= 1
  {
    if log == [] {
    } else {
      var n := |log| - 1;
      assert log == log[..n] + [log[n]];
      NumberedOnce(log[..n], t);
      if log[n] == t {
        assert forall i :: 0 <= i < n ==> log[..n][i] != t;
        assert t !in multiset(log[..n]);
      }
    }
  }

  /** Every submitted task is in exactly one place: it has been taken once, or it still
      waits in the queue of its level. */
  lemma TakenExactlyOnce(states: seq<System>, evs: seq<Event>, k: nat, t: Task)
    requires IsRun(states, evs) && k <= |evs| && t in states[k].log
    ensures t.level < |states[k].shared.queues|
    ensures multiset(states[k].started)[t] + multiset(states[k].shared.queues[t.level])[t] == 1
    ensures multiset(states[k].finished)[t] + RunningTasks(states[k].workers)[t] == multiset(states[k].started)[t]
  {
    var s := states[k];
    RunKeepsInv(states, evs, k);
    NumberedOnce(s.log, t);
    assert t in multiset(s.log);
    OfLevelCount(s.log, t);
    OfLevelCount(s.started, t);
    assert multiset(OfLevel(s.started, t.level) + s.shared.queues[t.level]) ==
           multiset(OfLevel(s.started, t.level)) + multiset(s.shared.queues[t.level]);
  }

  ghost predicate Precedes(t: Task, u: Task) {
    t.level < u.level || (t.level == u.level && t.serial <= u.serial)
  }

  lemma {:induction false} OfLevelSorted(log: seq<Task>, l: nat)
    requires Numbered(log)
    ensures forall i, j :: 0 <= i < j < |OfLevel(log, l)| ==> OfLevel(log, l)[i].serial < OfLevel(log, l)[j].serial
    ensures forall i :: 0 <= i < |OfLevel(log, l)| ==>
              OfLevel(log, l)[i].serial < |log| && OfLevel(log, l)[i].level == l
  {
    if log == [] {
    } else {
      OfLevelSorted(log[..|log| - 1], l);
    }
  }

  /** A worker always takes the queued task of the most urgent level, and within the level
      the one submitted first. */
  lemma TakesMostUrgent(states: seq<System>, evs: seq<Event>, k: nat, l: nat, i: nat)
    requires IsRun(states, evs) && k < |evs| && evs[k].TakeBy?
    requires l < |states[k].shared.queues| && i < |states[k].shared.queues[l]|
    ensures states[k + 1].started == states[k].started + [Front(states[k].shared)]
    ensures Precedes(Front(states[k].shared), states[k].shared.queues[l][i])
  {
    var s := states[k];
    RunKeepsInv(states, evs, k);
    FrontHasLevel(s);
    OfLevelSorted(s.log, l);
    var d := OfLevel(s.started, l);
    assert OfLevel(s.log, l) == d + s.shared.queues[l];
    assert OfLevel(s.log, l)[|d| + i] == s.shared.queues[l][i];
    assert OfLevel(s.log, l)[|d|] == s.shared.queues[l][0];
  }

  /** Waiting for idleness returns only when every submitted task has completed. */
  lemma IdleMeansComplete(states: seq<System>, evs: seq<Event>, k: nat)
    requires IsRun(states, evs) && k <= |evs|
    requires states[k].shared.inflight == 0 && AllEmpty(states[k].shared)
    ensures states[k].shared.completed == states[k].shared.submitted
    ensures forall t :: t in states[k].log ==> multiset(states[k].finished)[t] == 1
  {
    TasksConserved(states, evs, k);
    RunKeepsInv(states, evs, k);
    forall t | t in states[k].log ensures multiset(states[k].finished)[t] == 1 {
      TakenExactlyOnce(states, evs, k, t);
      assert states[k].shared.queues[t.level] == [];
      assert RunningTasks(states[k].workers) == multiset{};
    }
  }

  // ----- shutting down

  /** Once all workers have left, every task, including those submitted by tasks, has run. */
  lemma LeavesNothingBehind(states: seq<System>, evs: seq<Event>, k: nat)
    requires IsRun(states, evs) && k <= |evs|
    requires forall w :: 0 <= w < |states[k].workers| ==> states[k].workers[w].Exited?
    ensures states[k].shared.completed == states[k].shared.submitted
    ensures forall t :: t in states[k].log ==> multiset(states[k].finished)[t] == 1
  {
    RunKeepsInv(states, evs, k);
    NobodyRuns(states[k].workers);
    IdleMeansComplete(states, evs, k);
  }

  function Alive(workers: seq<Worker>): nat {
    if workers == [] then 0 else Alive(workers[..|workers| - 1]) + if workers[|workers| - 1].Exited? then 0 else 1
  }

  lemma {:induction false} AliveUpdate(workers: seq<Worker>, w: nat, x: Worker)
    requires w < |workers|
    ensures Alive(workers[w := x]) ==
            Alive(workers) + (if x.Exited? then 0 else 1) - (if workers[w].Exited? then 0 else 1)
  {
    var n := |workers| - 1;
    if w == n {
      assert workers[w := x][..n] == workers[..n];
    } else {
      assert workers[w := x][..n] == workers[..n][w := x];
      AliveUpdate(workers[..n], w, x);
    }
  }

  /** Work left: each queued task is taken and finished, each worker leaves. */
  function Measure(s: System): nat
    requires |s.shared.queues| == LEVELS
  {
    2 * Queued(s.shared) + s.shared.inflight + Alive(s.workers)
  }

  /** Every step of a worker brings the pool closer to being drained. */
  lemma WorkerStepsDecrease(s: System, ev: Event)
    requires Inv(s) && Enabled(s, ev) && (ev.TakeBy? || ev.FinishBy? || ev.ExitBy?)
    ensures |Next(s, ev).shared.queues| == LEVELS && Measure(Next(s, ev)) < Measure(s)
  {
    match ev
    case TakeBy(w) => AliveUpdate(s.workers, w, Running(Front(s.shared)));
    case FinishBy(w) => AliveUpdate(s.workers, w, Waiting);
    case ExitBy(w) => AliveUpdate(s.workers, w, Exited);
  }

  lemma RunningIsCounted(workers: seq<Worker>, w: nat)
    requires w < |workers| && workers[w].Running?
    ensures |RunningTasks(workers)| > 0
  {
    WorkerStops(workers, w, Waiting);
    assert workers[w].task in RunningTasks(workers);
  }

  /** A stopping pool with a worker left always has a worker that can step. */
  lemma StoppingPoolMoves(states: seq<System>, evs: seq<Event>, k: nat, w: nat)
    requires IsRun(states, evs) && k <= |evs| && states[k].shared.stop
    requires w < |states[k].workers| && !states[k].workers[w].Exited?
    ensures Enabled(states[k], TakeBy(w)) || Enabled(states[k], FinishBy(w)) || Enabled(states[k], ExitBy(w))
  {
    RunKeepsInv(states, evs, k);
    if states[k].workers[w].Running? { RunningIsCounted(states[k].workers, w); }
  }

  /** Without further submissions a pool makes at most Measure many worker steps. */
  lemma {:induction false} DrainIsBounded(states: seq<System>, evs: seq<Event>, j: nat, k: nat)
    requires IsRun(states, evs) && j <= k <= |evs|
    requires forall i :: j <= i < k ==> evs[i].TakeBy? || evs[i].FinishBy? || evs[i].ExitBy?
    ensures |states[j].shared.queues| == LEVELS && k - j <= Measure(states[j])
    decreases k - j
  {
    RunKeepsInv(states, evs, j);
    if j < k {
      WorkerStepsDecrease(states[j], evs[j]);
      DrainIsBounded(states, evs, j + 1, k);
    }
  }
}
