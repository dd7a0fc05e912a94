/**
 * The executor seen from outside: what its queues hold and whom it notifies,
 * as functions of the calls made and of what execute() returned.
 */
module ExecutorTraces {
  import opened Basics
  import opened Executor

  /** A run together with the actions that make it. */
  ghost predicate Trace(ss: seq<State>, acts: seq<Action>) {
    && |ss| == |acts| + 1 && Init(ss[0])
    && forall i :: 0 <= i < |acts| ==> Takes(ss[i], acts[i], ss[i + 1])
  }

  ghost predicate Takes(s: State, a: Action, s': State) {
    Enabled(s, a) && s' == Next(s, a)
  }

  lemma TraceIsRun(ss: seq<State>, acts: seq<Action>)
    requires Trace(ss, acts)
    ensures Run(ss)
  {
    forall i | 0 <= i < |ss| - 1 ensures MovesAt(ss, i) {
      assert Takes(ss[i], acts[i], ss[i + 1]);
    }
  }

  /** Every run comes from some actions. */
  lemma {:induction false} RunIsTrace(ss: seq<State>) returns (acts: seq<Action>)
    requires Run(ss)
    ensures Trace(ss, acts)
    decreases |ss|
  {
    if |ss| == 1 {
      acts := [];
    } else {
      var n := |ss| - 1;
      forall i | 0 <= i < n - 1 ensures MovesAt(ss[..n], i) {
        assert MovesAt(ss, i);
      }
      var before := RunIsTrace(ss[..n]);
      assert MovesAt(ss, n - 1);
      var a :| Enabled(ss[n - 1], a) && ss[n] == Next(ss[n - 1], a);
      acts := before + [a];
      forall i | 0 <= i < |acts| ensures Takes(ss[i], acts[i], ss[i + 1]) {
        if i < n - 1 {
          assert Takes(ss[..n][i], before[i], ss[..n][i + 1]);
        }
      }
    }
  }

  /** execute() of task `t` returns `done` in this step. */
  predicate Answers(s: State, a: Action, t: nat, done: bool) {
    s.pc == Executing(t) && a == Serve(done)
  }

  /** The tasks whose execute() returned true in the first `k` steps, in order. */
  function Finished(ss: seq<State>, acts: seq<Action>, k: nat): seq<nat>
    requires k <= |acts| < |ss|
  {
    if k == 0 then []
    else
      Finished(ss, acts, k - 1) +
      if ss[k - 1].pc.Executing? && acts[k - 1] == Serve(true) then [ss[k - 1].pc.task] else []
  }

  /** The tasks made runnable in the first `k` steps, by their client or by a backend thread, in order. */
  function MadeRunnable(acts: seq<Action>, k: nat): seq<nat>
    requires k <= |acts|
  {
    if k == 0 then []
    else
      MadeRunnable(acts, k - 1) +
      match acts[k - 1]
      case ClientSchedule(t, true) => [t]
      case BackendMakeRunnable(t) => [t]
      case _ => []
  }

  /** How often task `t` was parked in the first `k` steps: scheduled as waiting, or execute() returned false. */
  function Parkings(ss: seq<State>, acts: seq<Action>, k: nat, t: nat): nat
    requires k <= |acts| < |ss|
  {
    if k == 0 then 0
    else
      Parkings(ss, acts, k - 1, t) +
      if acts[k - 1] == ClientSchedule(t, false) || Answers(ss[k - 1], acts[k - 1], t, false) then 1 else 0
  }

  function Wakings(acts: seq<Action>, k: nat, t: nat): nat
    requires k <= |acts|
  {
    if k == 0 then 0 else Wakings(acts, k - 1, t) + if acts[k - 1] == BackendMakeRunnable(t) then 1 else 0
  }

  lemma CompletedNext(s: State, a: Action)
    requires Enabled(s, a)
    ensures Next(s, a).completed == s.completed + if s.pc.Executing? && a == Serve(true) then [s.pc.task] else []
  {
    assert s.completed + [] == s.completed;
    if a.Serve? {
      ServeCompletes(s, a.done);
    }
  }

  lemma ServeCompletes(s: State, done: bool)
    requires Enabled(s, Serve(done))
    ensures ServeStep(s, done).completed == if s.pc.Executing? && done then s.completed + [s.pc.task] else s.completed
  {
  }

  /** A task is complete exactly when its execute() returns true. */
  lemma {:induction false} CompletedIsFinished(ss: seq<State>, acts: seq<Action>, k: nat)
    requires Trace(ss, acts) && k <= |acts|
    ensures ss[k].completed == Finished(ss, acts, k)
  {
    if k > 0 {
      CompletedIsFinished(ss, acts, k - 1);
      assert Takes(ss[k - 1], acts[k - 1], ss[k]);
      CompletedNext(ss[k - 1], acts[k - 1]);
    }
  }

  /** The tasks notified are those whose execute() returned true, in that order, but for one on the way. */
  lemma NotifiedAreFinished(ss: seq<State>, acts: seq<Action>, k: nat)
    requires Trace(ss, acts) && k <= |acts|
    ensures Finished(ss, acts, k) ==
            ss[k].notified + if ss[k].pc.Completing? || ss[k].pc.Notifying? then [ss[k].pc.task] else []
  {
    TraceIsRun(ss, acts);
    RunHasInv(ss, k);
    CompletedIsFinished(ss, acts, k);
  }

  lemma PushedNext(s: State, a: Action)
    requires Inv(s) && Enabled(s, a)
    ensures Next(s, a).pushed == s.pushed +
            match a
            case ClientSchedule(t, true) => [t]
            case BackendMakeRunnable(t) => [t]
            case _ => []
  {
    if a.BackendMakeRunnable? {
      assert TaskInv(s, a.t);
    }
  }

  /** The run queue holds what was made runnable and not yet taken, first in, first out. */
  lemma {:induction false} QueueIsFifo(ss: seq<State>, acts: seq<Action>, k: nat)
    requires Trace(ss, acts) && k <= |acts|
    ensures MadeRunnable(acts, k) == ss[k].popped + ss[k].runq
  {
    TraceIsRun(ss, acts);
    RunHasInv(ss, k);
    if k > 0 {
      QueueIsFifo(ss, acts, k - 1);
      RunHasInv(ss, k - 1);
      assert Takes(ss[k - 1], acts[k - 1], ss[k]);
      PushedNext(ss[k - 1], acts[k - 1]);
    }
  }

  /** The task is in the wait queue, or on its way there. */
  function Parked(s: State, t: nat): nat {
    (if t in s.waitq then 1 else 0) + (if s.pc == Parking(t) then 1 else 0)
  }

  lemma ParkedNext(s: State, a: Action, t: nat)
    requires TaskInv(s, t) && Enabled(s, a)
    ensures Parked(Next(s, a), t) + (if a == BackendMakeRunnable(t) then 1 else 0) ==
            Parked(s, t) + if a == ClientSchedule(t, false) || Answers(s, a, t, false) then 1 else 0
  {
    if a.Serve? {
      ServeParks(s, a.done, t);
    }
  }

  lemma ServeParks(s: State, done: bool, t: nat)
    requires TaskInv(s, t) && Enabled(s, Serve(done))
    ensures Parked(ServeStep(s, done), t) == Parked(s, t) + if s.pc == Executing(t) && !done then 1 else 0
  {
  }

  /** A task is in the wait queue, or on its way, exactly if it was parked once more than woken. */
  lemma {:induction false} ParkedExactly(ss: seq<State>, acts: seq<Action>, k: nat, t: nat)
    requires Trace(ss, acts) && k <= |acts|
    ensures Parkings(ss, acts, k, t) == Wakings(acts, k, t) + Parked(ss[k], t)
  {
    if k > 0 {
      ParkedExactly(ss, acts, k - 1, t);
      TraceIsRun(ss, acts);
      RunHasInv(ss, k - 1);
      assert TaskInv(ss[k - 1], t) && Takes(ss[k - 1], acts[k - 1], ss[k]);
      ParkedNext(ss[k - 1], acts[k - 1], t);
    }
  }

  /** While a task goes to the wait queue its mutex is held, and it is given back right afterwards. */
  lemma ParkingHoldsMutex(ss: seq<State>, acts: seq<Action>, k: nat, t: nat)
    requires Trace(ss, acts) && k < |acts| && acts[k].Serve?
    ensures ss[k].pc == Executing(t) && acts[k] == Serve(false) ==> ss[k + 1].pc == Parking(t)
    ensures ss[k].pc == Parking(t) ==> ss[k + 1].pc == Unlocking(t) && t in ss[k + 1].waitq
    ensures ss[k].pc == Parking(t) || ss[k].pc == Unlocking(t) ==> HolderOf(ss[k], t) == ByExecutor
    ensures ss[k].pc == Unlocking(t) ==> ss[k + 1].pc == Serving && HolderOf(ss[k + 1], t) == Free
  {
    TraceIsRun(ss, acts);
    RunHasInv(ss, k);
    assert TaskInv(ss[k], t) && Takes(ss[k], acts[k], ss[k + 1]);
  }

  // ----- two runs -----

  /** A task is scheduled and started. */
  lemma RunToExecute() returns (ss: seq<State>)
    ensures Run(ss) && !Last(ss).shutdown && Last(ss).pc == Executing(1) && Last(ss).runq == [] && Last(ss).waitq == {}
    ensures Last(ss).notified == [] && 1 in Last(ss).clients && Last(ss).clients[1].released && Last(ss).wakes == {}
    ensures HolderOf(Last(ss), 1) == ByExecutor
  {
    ss := [State([], {}, false, true, Serving, map[], map[], {}, [], [], [], [], false)];
    ss := Extend(ss, ClientLock(1));
    ss := Extend(ss, ClientSchedule(1, true));
    ss := Extend(ss, ClientUnlock(1));
    ss := Extend(ss, Serve(true));
    ss := Extend(ss, Serve(true));
  }

  /** A run in which execute() returns true and the task is notified. */
  lemma RunThatCompletes() returns (ss: seq<State>)
    ensures Run(ss) && Last(ss).notified == [1] && Last(ss).pc == Serving && HolderOf(Last(ss), 1) == Free
    ensures Last(ss).runq == [] && Last(ss).waitq == {}
  {
    ss := RunToExecute();
    ss := Extend(ss, Serve(true));
    ss := Extend(ss, Serve(true));
    ss := Extend(ss, Serve(true));
  }

  /** execute() returns false, and a backend thread makes the task runnable again. */
  lemma RunThatParks() returns (ss: seq<State>, k: nat)
    ensures Run(ss) && k < |ss| && ss[k].waitq == {1} && ss[k].notified == []
    ensures Last(ss).pc == Serving && !Last(ss).shutdown && Last(ss).runq == [1] && Last(ss).waitq == {}
    ensures Last(ss).notified == [] && HolderOf(Last(ss), 1) == Free
  {
    ss := RunToExecute();
    ss := Extend(ss, Serve(false));
    ss := Extend(ss, Serve(true));
    ss := Extend(ss, Serve(true));
    k := |ss| - 1;
    ss := Extend(ss, BackendLock(1));
    ss := Extend(ss, BackendMakeRunnable(1));
    ss := Extend(ss, BackendUnlock(1));
  }

  /** A run in which a task is parked, woken and completed. */
  lemma RunThatParksAndCompletes() returns (ss: seq<State>, k: nat)
    ensures Run(ss) && k < |ss| && ss[k].waitq == {1} && ss[k].notified == []
    ensures Last(ss).notified == [1] && Last(ss).runq == [] && Last(ss).waitq == {}
  {
    ss, k := RunThatParks();
    ss := Extend(ss, Serve(true));
    ss := Extend(ss, Serve(true));
    ss := Extend(ss, Serve(true));
    ss := Extend(ss, Serve(true));
    ss := Extend(ss, Serve(true));
  }
}
