/**
 * The executor: a service thread with a run queue and a wait queue, clients
 * that schedule tasks, and backend threads that make parked tasks runnable
 * again. Every action is one critical section of the executor mutex or one
 * acquisition or release of a task mutex.
 */
module Executor {
  import opened Basics

  datatype Holder = Free | ByClient | ByBackend | ByExecutor

  /** Where the service thread is in run(). */
  datatype Pc =
    | Serving
    | Popped(task: nat)      // taken off the run queue, executor mutex released
    | Executing(task: nat)   // task mutex held, in execute()
    | Completing(task: nat)  // execute() returned true, task mutex still held
    | Notifying(task: nat)   // task mutex released
    | Parking(task: nat)     // execute() returned false
    | Unlocking(task: nat)   // in the wait queue, task mutex still held
    | Draining               // shutdown seen, waiting for the wait queue
    | Stopped

  datatype Scheduled = No | Runnable | Waiting

  /** What the client that created a task has done with it so far. */
  datatype Client = Client(started: bool, scheduled: Scheduled, released: bool)

  /**
   * `wakes` are the backend threads started and not yet through makeRunnable.
   * `pushed`, `popped`, `completed`, `notified` record, in order, the pushes to
   * and pops from the run queue, the execute() calls that returned true, and
   * the notifications; `notInWaitq` records the internal error of makeRunnable.
   */
  datatype State = State(
    runq: seq<nat>,
    waitq: set<nat>,
    shutdown: bool,
    running: bool,
    pc: Pc,
    mutex: map<nat, Holder>,
    clients: map<nat, Client>,
    wakes: set<nat>,
    pushed: seq<nat>,
    popped: seq<nat>,
    completed: seq<nat>,
    notified: seq<nat>,
    notInWaitq: bool)

  datatype Action =
    | ClientLock(t: nat)
    | ClientStart(t: nat)                     // start the backend thread
    | ClientSchedule(t: nat, runnable: bool)
    | ClientUnlock(t: nat)
    | BackendLock(t: nat)
    | BackendMakeRunnable(t: nat)
    | BackendUnlock(t: nat)
    | Serve(done: bool)                       // next step of run(); done: what execute() returns
    | RequestShutdown

  function HolderOf(s: State, t: nat): Holder {
    if t in s.mutex then s.mutex[t] else Free
  }

  predicate ClientActive(s: State, t: nat) {
    t in s.clients && !s.clients[t].released
  }

  /**
   * The task-mutex discipline: schedule and start the backend while holding the
   * task mutex, at most one backend for a task scheduled as waiting and none
   * for one scheduled as runnable.
   */
  predicate Enabled(s: State, a: Action) {
    match a
    case ClientLock(t) => t !in s.clients
    case ClientStart(t) => ClientActive(s, t) && !s.clients[t].started && s.clients[t].scheduled != Runnable
    case ClientSchedule(t, runnable) =>
      ClientActive(s, t) && s.clients[t].scheduled == No && (runnable ==> !s.clients[t].started)
    case ClientUnlock(t) =>
      && ClientActive(s, t) && s.clients[t].scheduled != No
      && (s.clients[t].scheduled == Waiting ==> s.clients[t].started)
    case BackendLock(t) => t in s.wakes && HolderOf(s, t) == Free
    case BackendMakeRunnable(t) => t in s.wakes && HolderOf(s, t) == ByBackend
    case BackendUnlock(t) => t !in s.wakes && HolderOf(s, t) == ByBackend
    case Serve(_) =>
      && !s.pc.Stopped?
      && (s.pc.Serving? ==> s.shutdown || s.runq != [])
      && (s.pc.Popped? ==> HolderOf(s, s.pc.task) == Free)
      && (s.pc.Draining? ==> s.waitq == {})
    case RequestShutdown => !s.shutdown
  }

  function ServeStep(s: State, done: bool): State
    requires Enabled(s, Serve(done))
  {
    match s.pc
    case Serving =>
      if s.shutdown then s.(pc := Draining)
      else s.(pc := Popped(s.runq[0]), runq := s.runq[1..], popped := s.popped + [s.runq[0]])
    case Popped(t) => s.(pc := Executing(t), mutex := s.mutex[t := ByExecutor])
    case Executing(t) =>
      if done then s.(pc := Completing(t), completed := s.completed + [t])
      else s.(pc := Parking(t), wakes := s.wakes + {t})  // execute() handed the work to a backend thread
    case Completing(t) => s.(pc := Notifying(t), mutex := s.mutex[t := Free])
    case Notifying(t) => s.(pc := Serving, notified := s.notified + [t])
    case Parking(t) => s.(pc := Unlocking(t), waitq := s.waitq + {t})
    case Unlocking(t) => s.(pc := Serving, mutex := s.mutex[t := Free])
    case Draining => s.(pc := Stopped, running := false)
  }

  function Next(s: State, a: Action): State
    requires Enabled(s, a)
  {
    match a
    case ClientLock(t) =>
      s.(clients := s.clients[t := Client(false, No, false)], mutex := s.mutex[t := ByClient])
    case ClientStart(t) => s.(clients := s.clients[t := s.clients[t].(started := true)], wakes := s.wakes + {t})
    case ClientSchedule(t, runnable) =>
      if runnable then
        s.(clients := s.clients[t := s.clients[t].(scheduled := Runnable)],
        runq := s.runq + [t], pushed := s.pushed + [t])
      else
        s.(clients := s.clients[t := s.clients[t].(scheduled := Waiting)], waitq := s.waitq + {t})
    case ClientUnlock(t) =>
      s.(clients := s.clients[t := s.clients[t].(released := true)], mutex := s.mutex[t := Free])
    case BackendLock(t) => s.(mutex := s.mutex[t := ByBackend])
    case BackendMakeRunnable(t) =>
      if t !in s.waitq then s.(notInWaitq := true, wakes := s.wakes - {t})
      else s.(runq := s.runq + [t], waitq := s.waitq - {t}, wakes := s.wakes - {t}, pushed := s.pushed + [t])
    case BackendUnlock(t) => s.(mutex := s.mutex[t := Free])
    case Serve(done) => ServeStep(s, done)
    case RequestShutdown => s.(shutdown := true)
  }

  ghost predicate Init(s: State) {
    s == State([], {}, false, true, Serving, map[], map[], {}, [], [], [], [], false)
  }

  ghost predicate Moves(s: State, s': State) {
    exists a :: Enabled(s, a) && s' == Next(s, a)
  }

  ghost predicate MovesAt(ss: seq<State>, i: nat) {
    i + 1 < |ss| && Moves(ss[i], ss[i + 1])
  }

  ghost predicate Run(ss: seq<State>) {
    0 < |ss| && Init(ss[0]) && forall i :: 0 <= i < |ss| - 1 ==> MovesAt(ss, i)
  }

  // ----- the invariant -----

  predicate IsScheduled(s: State, t: nat) {
    t in s.clients && s.clients[t].scheduled != No
  }

  /** The service thread has the task in its hands, outside both queues. */
  predicate InExecution(s: State, t: nat) {
    (s.pc.Popped? || s.pc.Executing? || s.pc.Completing? || s.pc.Notifying? || s.pc.Parking?) && s.pc.task == t
  }

  function Places(s: State, t: nat): nat {
    (if t in s.runq then 1 else 0) + (if t in s.waitq then 1 else 0)
    + (if InExecution(s, t) then 1 else 0) + (if t in s.notified then 1 else 0)
  }

  /** A scheduled task is in exactly one place, an unscheduled one nowhere. */
  predicate PlaceInv(s: State, t: nat) {
    Places(s, t) == if IsScheduled(s, t) then 1 else 0
  }

  predicate Locking(pc: Pc, t: nat) {
    (pc.Executing? || pc.Completing? || pc.Parking? || pc.Unlocking?) && pc.task == t
  }

  /** Who holds the task mutex, and when. */
  predicate MutexInv(s: State, t: nat) {
    && (HolderOf(s, t) == ByExecutor <==> Locking(s.pc, t))
    && (HolderOf(s, t) == ByClient <==> ClientActive(s, t))
    && (HolderOf(s, t) == ByBackend ==> t in s.clients)
    && (s.pc == Unlocking(t) ==> t in s.waitq)
  }

  /** The task has a client that will still schedule it, as waiting if the backend was started. */
  predicate Unscheduled(s: State, t: nat) {
    ClientActive(s, t) && s.clients[t].scheduled == No
  }

  /**
   * A wake is for a parked task, or for one whose mutex keeps the backend out
   * until it is parked; a parked task has its wake, or will get it.
   */
  predicate WakeInv(s: State, t: nat) {
    && (t in s.wakes ==> t in s.waitq || Unscheduled(s, t) || s.pc == Parking(t))
    && (t in s.waitq ==> t in s.wakes || (ClientActive(s, t) && !s.clients[t].started))
    && (Unscheduled(s, t) ==> (t in s.wakes <==> s.clients[t].started))
    && (ClientActive(s, t) && s.clients[t].scheduled == Waiting ==>
          t in s.waitq && (t in s.wakes <==> s.clients[t].started))
    && (ClientActive(s, t) && s.clients[t].scheduled == Runnable ==> t !in s.waitq)
    && (s.pc == Parking(t) ==> t in s.wakes)
    && (t in s.clients && s.clients[t].released ==> s.clients[t].scheduled != No)
  }

  predicate TaskInv(s: State, t: nat) {
    PlaceInv(s, t) && MutexInv(s, t) && WakeInv(s, t)
  }

  ghost predicate QueueInv(s: State) {
    s.pushed == s.popped + s.runq && NoDuplicates(s.runq)
  }

  ghost predicate DoneInv(s: State) {
    && s.completed == s.notified + (if s.pc.Completing? || s.pc.Notifying? then [s.pc.task] else [])
    && NoDuplicates(s.completed) && !s.notInWaitq
  }

  ghost predicate HistoryInv(s: State) {
    QueueInv(s) && DoneInv(s)
  }

  ghost predicate Inv(s: State) {
    (forall t: nat :: TaskInv(s, t)) && HistoryInv(s)
  }

  lemma ClientBeginKeepsTask(s: State, a: Action, t: nat)
    requires a.ClientLock? || a.ClientStart?
    requires TaskInv(s, t) && TaskInv(s, a.t) && Enabled(s, a)
    ensures TaskInv(Next(s, a), t)
  {
  }

  lemma ScheduleKeepsTask(s: State, a: Action, t: nat)
    requires a.ClientSchedule?
    requires TaskInv(s, t) && TaskInv(s, a.t) && Enabled(s, a)
    ensures TaskInv(Next(s, a), t)
  {
  }

  lemma ClientUnlockKeepsTask(s: State, a: Action, t: nat)
    requires a.ClientUnlock?
    requires TaskInv(s, t) && TaskInv(s, a.t) && Enabled(s, a)
    ensures TaskInv(Next(s, a), t)
  {
  }

  lemma BackendKeepsTask(s: State, a: Action, t: nat)
    requires a.BackendLock? || a.BackendMakeRunnable? || a.BackendUnlock?
    requires TaskInv(s, t) && TaskInv(s, a.t) && Enabled(s, a)
    ensures TaskInv(Next(s, a), t)
  {
  }

  lemma PopKeepsTask(s: State, t: nat)
    requires TaskInv(s, t) && NoDuplicates(s.runq) && s.pc.Serving? && !s.shutdown && s.runq != []
    ensures TaskInv(ServeStep(s, true), t)
  {
    assert s.runq == [s.runq[0]] + s.runq[1..];
  }

  lemma ExecuteKeepsTask(s: State, done: bool, t: nat)
    requires TaskInv(s, t) && (s.pc.Popped? || s.pc.Executing?) && Enabled(s, Serve(done))
    ensures TaskInv(ServeStep(s, done), t)
  {
  }

  lemma CompleteKeepsTask(s: State, done: bool, t: nat)
    requires TaskInv(s, t) && (s.pc.Completing? || s.pc.Notifying?)
    ensures TaskInv(ServeStep(s, done), t)
  {
  }

  lemma ParkKeepsTask(s: State, done: bool, t: nat)
    requires TaskInv(s, t) && (s.pc.Parking? || s.pc.Unlocking?)
    ensures TaskInv(ServeStep(s, done), t)
  {
  }

  lemma ServeKeepsQueue(s: State, done: bool)
    requires QueueInv(s) && Enabled(s, Serve(done))
    ensures QueueInv(ServeStep(s, done))
  {
    if s.pc.Serving? && !s.shutdown {
      PopFront(s.pushed, s.popped, s.runq);
    }
  }

  lemma PopFront(pushed: seq<nat>, popped: seq<nat>, runq: seq<nat>)
    requires pushed == popped + runq && runq != [] && NoDuplicates(runq)
    ensures pushed == popped + [runq[0]] + runq[1..] && NoDuplicates(runq[1..])
  {
    assert runq == [runq[0]] + runq[1..];
  }

  lemma ServeKeepsDone(s: State, done: bool)
    requires DoneInv(s) && Enabled(s, Serve(done)) && (s.pc.Executing? ==> PlaceInv(s, s.pc.task))
    ensures DoneInv(ServeStep(s, done))
  {
    if s.pc.Executing? && done {
      assert s.pc.task !in s.completed;
      NoDuplicatesExtend(s.completed, s.pc.task);
    }
  }

  lemma OtherKeepsHistory(s: State, a: Action)
    requires HistoryInv(s) && !a.Serve? && Enabled(s, a) && (!a.RequestShutdown? ==> TaskInv(s, a.t))
    ensures HistoryInv(Next(s, a))
  {
  }

  lemma NextKeepsTask(s: State, a: Action, t: nat)
    requires Inv(s) && Enabled(s, a)
    ensures TaskInv(Next(s, a), t)
  {
    assert TaskInv(s, t);
    match a
    case RequestShutdown =>
    case Serve(done) =>
      if s.pc.Serving? && !s.shutdown {
        PopKeepsTask(s, t);
      } else if s.pc.Popped? || s.pc.Executing? {
        ExecuteKeepsTask(s, done, t);
      } else if s.pc.Completing? || s.pc.Notifying? {
        CompleteKeepsTask(s, done, t);
      } else if s.pc.Parking? || s.pc.Unlocking? {
        ParkKeepsTask(s, done, t);
      }
    case _ =>
      assert TaskInv(s, a.t);
      if a.BackendLock? || a.BackendMakeRunnable? || a.BackendUnlock? {
        BackendKeepsTask(s, a, t);
      } else if a.ClientLock? || a.ClientStart? {
        ClientBeginKeepsTask(s, a, t);
      } else if a.ClientSchedule? {
        ScheduleKeepsTask(s, a, t);
      } else {
        ClientUnlockKeepsTask(s, a, t);
      }
  }

  lemma NextKeepsInv(s: State, a: Action)
    requires Inv(s) && Enabled(s, a)
    ensures Inv(Next(s, a))
  {
    forall t: nat ensures TaskInv(Next(s, a), t) {
      NextKeepsTask(s, a, t);
    }
    if a.Serve? {
      ServeKeepsQueue(s, a.done);
      assert s.pc.Executing? ==> TaskInv(s, s.pc.task);
      ServeKeepsDone(s, a.done);
    } else {
      OtherKeepsHistory(s, a);
    }
  }

  lemma MoveKeepsInv(s: State, s': State)
    requires Inv(s) && Moves(s, s')
    ensures Inv(s')
  {
    var a :| Enabled(s, a) && s' == Next(s, a);
    NextKeepsInv(s, a);
  }

  /** The invariant holds in every state of every run. */
  lemma {:induction false} RunHasInv(ss: seq<State>, i: nat)
    requires Run(ss) && i < |ss|
    ensures Inv(ss[i])
  {
    if i > 0 {
      RunHasInv(ss, i - 1);
      assert MovesAt(ss, i - 1);
      MoveKeepsInv(ss[i - 1], ss[i]);
    }
  }

  // ----- the theorems -----

  /** Conservation: a scheduled task is queued, parked, in execution or notified, and only one of these. */
  lemma TaskInOnePlace(ss: seq<State>, i: nat, t: nat)
    requires Run(ss) && i < |ss|
    ensures Places(ss[i], t) == if IsScheduled(ss[i], t) then 1 else 0
    ensures forall j, k :: 0 <= j < k < |ss[i].runq| ==> ss[i].runq[j] != ss[i].runq[k]
  {
    RunHasInv(ss, i);
    assert TaskInv(ss[i], t);
  }

  /** The run queue is served first in, first out: what was taken off is a prefix of what was put on. */
  lemma RunQueueIsFifo(ss: seq<State>, i: nat)
    requires Run(ss) && i < |ss|
    ensures ss[i].pushed == ss[i].popped + ss[i].runq
  {
    RunHasInv(ss, i);
  }

  /** Each completion is notified once, after execute() returned true, in order, and with the task mutex released. */
  lemma NotifiedOnce(ss: seq<State>, i: nat)
    requires Run(ss) && i < |ss|
    ensures NoDuplicates(ss[i].notified) && ss[i].notified <= ss[i].completed
    ensures |ss[i].completed| <= |ss[i].notified| + 1
    ensures ss[i].pc.Notifying? ==> HolderOf(ss[i], ss[i].pc.task) != ByExecutor
                                    && ss[i].completed == ss[i].notified + [ss[i].pc.task]
  {
    RunHasInv(ss, i);
    forall j | 0 <= j < |ss[i].notified| ensures ss[i].notified[j] == ss[i].completed[j] {}
    if ss[i].pc.Notifying? {
      assert TaskInv(ss[i], ss[i].pc.task);
    }
  }

  /** makeRunnable always finds its task in the wait queue, and no parked task is left without a wake. */
  lemma WakesFindTheirTask(ss: seq<State>, i: nat, t: nat)
    requires Run(ss) && i < |ss|
    ensures !ss[i].notInWaitq
    ensures Enabled(ss[i], BackendMakeRunnable(t)) ==> t in ss[i].waitq
    ensures t in ss[i].waitq && !ClientActive(ss[i], t) ==> t in ss[i].wakes
  {
    RunHasInv(ss, i);
    assert TaskInv(ss[i], t);
  }

  /** When `running` turns false nothing is parked or in execution: a scheduled task is notified or left queued. */
  lemma StopLeavesNothingParked(ss: seq<State>, i: nat, t: nat)
    requires Run(ss) && i + 1 < |ss| && ss[i].pc.Draining? && ss[i + 1].pc.Stopped? && IsScheduled(ss[i + 1], t)
    ensures ss[i + 1].waitq == {} && !ss[i + 1].running
    ensures t in ss[i + 1].notified || t in ss[i + 1].runq
  {
    assert MovesAt(ss, i);
    DrainStep(ss[i], ss[i + 1]);
    RunHasInv(ss, i + 1);
    assert TaskInv(ss[i + 1], t);
  }

  lemma DrainStep(s: State, s': State)
    requires Moves(s, s') && s.pc.Draining? && s'.pc.Stopped?
    ensures s'.waitq == {} && !s'.running
  {
    var a :| Enabled(s, a) && s' == Next(s, a);
    DrainingNext(s, a);
  }

  predicate Waits(s: State, t: nat) {
    t in s.runq || t in s.waitq
  }

  /** After shutdown was seen only the drain moves the service thread, and nothing leaves the run queue. */
  lemma DrainingNext(s: State, a: Action)
    requires Enabled(s, a) && (s.pc.Draining? || s.pc.Stopped?)
    ensures var s' := Next(s, a);
            && s'.popped == s.popped && s.runq <= s'.runq && s'.notified == s.notified
            && (forall t | t in s.waitq :: Waits(s', t))
            && (s'.pc == s.pc || (s.pc.Draining? && s'.pc.Stopped? && s'.waitq == {} && !s'.running))
  {
  }

  /** Once shutdown is seen no further task is taken: what is queued or parked then is never executed. */
  lemma {:induction false} ShutdownAbandonsRunQueue(ss: seq<State>, i: nat, j: nat)
    requires Run(ss) && i <= j < |ss| && (ss[i].pc.Draining? || ss[i].pc.Stopped?)
    ensures ss[j].popped == ss[i].popped && ss[i].runq <= ss[j].runq && ss[j].notified == ss[i].notified
    ensures ss[j].pc.Draining? || ss[j].pc.Stopped?
    ensures forall t | t in ss[i].waitq :: Waits(ss[j], t)
  {
    if i < j {
      ShutdownAbandonsRunQueue(ss, i, j - 1);
      assert MovesAt(ss, j - 1);
      StoppedStep(ss[j - 1], ss[j]);
    }
  }

  lemma StoppedStep(s: State, s': State)
    requires Moves(s, s') && (s.pc.Draining? || s.pc.Stopped?)
    ensures forall t | t in s.waitq :: Waits(s', t)
    ensures s'.popped == s.popped && s.runq <= s'.runq && s'.notified == s.notified
            && (s'.pc.Draining? || s'.pc.Stopped?)
  {
    var a :| Enabled(s, a) && s' == Next(s, a);
    DrainingNext(s, a);
  }

  /**
   * The fate of a task is settled when shutdown is seen: it has been completed,
   * or is never executed again because it is queued or parked then.
   */
  lemma ExactAtShutdown(ss: seq<State>, i: nat, j: nat, t: nat)
    requires Run(ss) && i <= j < |ss| && (ss[i].pc.Draining? || ss[i].pc.Stopped?) && IsScheduled(ss[i], t)
    ensures t in ss[j].notified <==> t !in ss[i].runq && t !in ss[i].waitq
  {
    RunHasInv(ss, i);
    assert TaskInv(ss[i], t);
    ShutdownAbandonsRunQueue(ss, i, j);
  }

  /** A task scheduled only after shutdown was seen is never executed. */
  lemma LateTasksAreLost(ss: seq<State>, i: nat, j: nat, t: nat)
    requires Run(ss) && i <= j < |ss| && (ss[i].pc.Draining? || ss[i].pc.Stopped?) && !IsScheduled(ss[i], t)
    ensures t !in ss[j].notified
  {
    RunHasInv(ss, i);
    assert TaskInv(ss[i], t);
    ShutdownAbandonsRunQueue(ss, i, j);
  }

  /**
   * When shutdown is seen with nothing queued or parked, every task scheduled
   * until then has been completed; otherwise some task never is.
   */
  lemma FinishedExactlyAtShutdown(ss: seq<State>, i: nat, j: nat)
    requires Run(ss) && i <= j < |ss| && (ss[i].pc.Draining? || ss[i].pc.Stopped?)
    ensures (forall t: nat | IsScheduled(ss[i], t) :: t in ss[j].notified) <==> ss[i].runq == [] && ss[i].waitq == {}
  {
    forall t: nat | IsScheduled(ss[i], t) ensures t in ss[j].notified <==> t !in ss[i].runq && t !in ss[i].waitq {
      ExactAtShutdown(ss, i, j, t);
    }
    RunHasInv(ss, i);
    if ss[i].runq != [] {
      var t := ss[i].runq[0];
      assert TaskInv(ss[i], t) && t in ss[i].runq;
    } else if ss[i].waitq != {} {
      var t :| t in ss[i].waitq;
      assert TaskInv(ss[i], t);
    }
  }

  /** Nothing was taken off the run queue: what waits goes on waiting, and no execution has begun. */
  ghost predicate Sealed(s: State, s': State, t: nat) {
    && s'.shutdown && s'.popped == s.popped && (Waits(s, t) ==> Waits(s', t)) && (t in s.notified ==> t in s'.notified)
    && (t in s'.notified || InExecution(s', t) ==> t in s.notified || InExecution(s, t))
  }

  lemma ServeSeals(s: State, done: bool, t: nat)
    requires Enabled(s, Serve(done)) && s.shutdown
    ensures Sealed(s, ServeStep(s, done), t)
  {
  }

  lemma ClientSeals(s: State, a: Action, t: nat)
    requires Enabled(s, a) && s.shutdown && (a.ClientLock? || a.ClientStart? || a.ClientSchedule? || a.ClientUnlock?)
    ensures Sealed(s, Next(s, a), t)
  {
  }

  lemma BackendSeals(s: State, a: Action, t: nat)
    requires Enabled(s, a) && s.shutdown && (a.BackendLock? || a.BackendMakeRunnable? || a.BackendUnlock?)
    ensures Sealed(s, Next(s, a), t)
  {
  }

  lemma MoveSeals(s: State, s': State, t: nat)
    requires Moves(s, s') && s.shutdown
    ensures Sealed(s, s', t)
  {
    var a :| Enabled(s, a) && s' == Next(s, a);
    match a
    case RequestShutdown =>
    case Serve(done) => ServeSeals(s, done, t);
    case BackendLock(_) => BackendSeals(s, a, t);
    case BackendMakeRunnable(_) => BackendSeals(s, a, t);
    case BackendUnlock(_) => BackendSeals(s, a, t);
    case _ => ClientSeals(s, a, t);
  }

  lemma {:induction false} RequestSeals(ss: seq<State>, i: nat, j: nat, t: nat)
    requires Run(ss) && i <= j < |ss| && ss[i].shutdown
    ensures Sealed(ss[i], ss[j], t)
  {
    if i < j {
      RequestSeals(ss, i, j - 1, t);
      assert MovesAt(ss, j - 1);
      MoveSeals(ss[j - 1], ss[j], t);
    }
  }

  /**
   * Already the request for shutdown decides. What is queued or parked then, or
   * scheduled later, is never executed; of the others, only the task in
   * execution may still be completed, and is if execute() returns true.
   */
  lemma RequestDecides(ss: seq<State>, i: nat, j: nat, t: nat)
    requires Run(ss) && i <= j < |ss| && ss[i].shutdown && (ss[j].pc.Draining? || ss[j].pc.Stopped?)
    ensures ss[j].popped == ss[i].popped && (Waits(ss[i], t) ==> Waits(ss[j], t) && t !in ss[j].notified)
    ensures t in ss[j].notified <==> t in ss[i].notified || (InExecution(ss[i], t) && t in ss[j].completed)
  {
    RequestSeals(ss, i, j, t);
    RunHasInv(ss, i);
    RunHasInv(ss, j);
    assert TaskInv(ss[i], t) && TaskInv(ss[j], t);
  }

  ghost predicate AllNotified(s: State) {
    forall t | t in s.clients && s.clients[t].scheduled != No :: t in s.notified
  }

  /**
   * When the executor stops, every task scheduled until shutdown was seen, at
   * `d`, has been completed exactly if nothing was queued or parked then; and
   * all tasks have exactly if the run queue is empty now.
   */
  lemma StopFinishesExactly(ss: seq<State>, d: nat, i: nat)
    requires Run(ss) && d <= i && i + 1 < |ss| && ss[d].pc.Draining? && ss[i].pc.Draining? && ss[i + 1].pc.Stopped?
    ensures (forall t: nat | IsScheduled(ss[d], t) :: t in ss[i + 1].notified) <==>
            ss[d].runq == [] && ss[d].waitq == {}
    ensures ss[i + 1].runq == [] <==> AllNotified(ss[i + 1])
  {
    FinishedExactlyAtShutdown(ss, d, i + 1);
    var s := ss[i + 1];
    if s.runq != [] {
      RunHasInv(ss, i + 1);
      assert TaskInv(s, s.runq[0]) && s.runq[0] in s.runq;
    } else {
      forall t | t in s.clients && s.clients[t].scheduled != No ensures t in s.notified {
        StopLeavesNothingParked(ss, i, t);
      }
    }
  }

  lemma Extend(ss: seq<State>, a: Action) returns (ss': seq<State>)
    requires Run(ss) && Enabled(Last(ss), a)
    ensures Run(ss') && Last(ss') == Next(Last(ss), a) && ss < ss'
  {
    ss' := ss + [Next(Last(ss), a)];
    forall i | 0 <= i < |ss'| - 1 ensures MovesAt(ss', i) {
      if i < |ss| - 1 {
        assert MovesAt(ss, i);
      }
    }
  }

  /** A run in which a task is in the run queue when shutdown is seen, and never executed. */
  lemma RunThatAbandonsATask() returns (ss: seq<State>)
    ensures Run(ss) && Last(ss).pc.Stopped?
    ensures IsScheduled(Last(ss), 1) && Last(ss).runq == [1] && Last(ss).popped == [] && Last(ss).notified == []
  {
    ss := [State([], {}, false, true, Serving, map[], map[], {}, [], [], [], [], false)];
    ss := Extend(ss, ClientLock(1));
    ss := Extend(ss, ClientSchedule(1, true));
    ss := Extend(ss, RequestShutdown);
    ss := Extend(ss, Serve(true));
    ss := Extend(ss, Serve(true));
  }

  /** Task 1 is parked, and a backend thread will make it runnable. */
  lemma ParkRun() returns (ss: seq<State>)
    ensures Run(ss) && Last(ss).pc.Serving? && !Last(ss).shutdown && Last(ss).waitq == {1} == Last(ss).wakes
    ensures Last(ss).runq == Last(ss).popped == Last(ss).notified == [] && HolderOf(Last(ss), 1) == Free
  {
    ss := [State([], {}, false, true, Serving, map[], map[], {}, [], [], [], [], false)];
    ss := Extend(ss, ClientLock(1));
    ss := Extend(ss, ClientStart(1));
    ss := Extend(ss, ClientSchedule(1, false));
    ss := Extend(ss, ClientUnlock(1));
  }

  /** A run in which a task is parked when shutdown is seen: it is made runnable again, and never executed either. */
  lemma RunThatAbandonsAParkedTask() returns (ss: seq<State>, i: nat)
    ensures Run(ss) && i < |ss| && ss[i].pc.Draining? && ss[i].waitq == {1} && ss[i].runq == []
    ensures Last(ss).pc.Stopped? && Last(ss).runq == [1] && Last(ss).popped == [] && Last(ss).notified == []
  {
    ss := ParkRun();
    ss := Extend(ss, RequestShutdown);
    ss := Extend(ss, Serve(true));
    i := |ss| - 1;
    ss := Extend(ss, BackendLock(1));
    ss := Extend(ss, BackendMakeRunnable(1));
    ss := Extend(ss, Serve(true));
  }
}
