/**
 * What keeps creates and deletes going: buckets_lock is given back, every
 * thread has few steps to make, and only deletes that wait for each other never
 * end.
 */
module BucketsProgress {
  import opened Basics
  import opened Buckets
  import opened BucketsSafety
  import opened BucketsRuns
  import opened BucketsDrift

  // ----- the lock -----

  ghost predicate LockInv(s: State) {
    s.lock.Some? ==> s.lock.value in s.threads && Scanning(s.threads[s.lock.value])
  }

  lemma ThreadStepKeepsLock(s: State, t: nat, ok: bool)
    requires WellFormed(s) && LockInv(s) && ScanInv(s) && Enabled(s, Step(t, ok))
    ensures LockInv(ThreadStep(s, t, ok))
  {
    var p := s.threads[t];
    if Owning(p) {
      ThreadStepsAlone(s, t, ok);
      assert ThreadStep(s, t, ok).lock == s.lock;
    }
  }

  lemma NextKeepsLock(s: State, a: Action)
    requires WellFormed(s) && LockInv(s) && ScanInv(s) && Enabled(s, a)
    ensures LockInv(Next(s, a))
  {
    if a.Step? {
      ThreadStepKeepsLock(s, a.t, a.ok);
    }
  }

  /** buckets_lock is held exactly by a thread that is scanning the table. */
  lemma {:induction false} LockHeldExactly(ss: seq<State>, i: nat, t: nat)
    requires Run(ss) && i < |ss|
    ensures LockInv(ss[i])
    ensures ss[i].lock == Some(t) <==> t in ss[i].threads && Scanning(ss[i].threads[t])
  {
    RunHasInv(ss, i);
    if i > 0 {
      LockHeldExactly(ss, i - 1, t);
      RunHasInv(ss, i - 1);
      var a := RunStep(ss, i - 1);
      NextKeepsLock(ss[i - 1], a);
    }
  }

  // ----- the number of steps -----

  /** More than the number of steps a thread at `p` has to make, in a table of `n` slots. */
  function Rank(p: Pc, n: nat): nat {
    match p
    case Scan(_, next, _, _) => 8 + if next < n then n - next else 0
    case Reserve(_, _) => 7
    case NewEngine(_) => 6
    case NoEngine(_) => 1
    case SetInitializing(_) => 5
    case Initialize(_) => 4
    case SetReady(_) => 1
    case SetDestroying(_) => 3
    case CreateDestroy(_) => 2
    case CreateClear(_) => 1
    case Find(_, _, next) => 5 + if next < n then n - next else 0
    case Release(_, _) => 4
    case Await(_, _) => 3
    case Destroy(_, _) => 2
    case Clear(_, _) => 1
    case Done(_) => 0
  }

  lemma OwnStepLowersRank(s: State, t: nat, ok: bool)
    requires WellFormed(s) && Enabled(s, Step(t, ok))
    ensures var s' := ThreadStep(s, t, ok);
            t in s'.threads && Rank(s'.threads[t], |s.buckets|) < Rank(s.threads[t], |s.buckets|)
  {
    var p := s.threads[t];
    if Owning(p) {
      assert LeaveOwn(s, p).threads == s.threads && |LeaveOwn(s, p).buckets| == |s.buckets|;
    }
  }

  /** The thread made a step between two states. */
  predicate Moved(s: State, s': State, t: nat) {
    t in s.threads && t in s'.threads && s.threads[t] != s'.threads[t]
  }

  lemma RankNext(s: State, a: Action, t: nat)
    requires WellFormed(s) && Enabled(s, a) && t in s.threads
    ensures var s' := Next(s, a);
            && t in s'.threads && (!Moved(s, s', t) ==> s'.threads[t] == s.threads[t])
            && (Moved(s, s', t) ==> Rank(s'.threads[t], |s.buckets|) < Rank(s.threads[t], |s.buckets|))
  {
    if a.Step? {
      ThreadStepsAlone(s, a.t, a.ok);
      OwnStepLowersRank(s, a.t, a.ok);
    }
  }

  /** How many steps the thread made from state `i` to state `k`. */
  function Steps(ss: seq<State>, t: nat, i: nat, k: nat): nat
    requires i <= k < |ss|
  {
    if i == k then 0 else Steps(ss, t, i, k - 1) + if Moved(ss[k - 1], ss[k], t) then 1 else 0
  }

  /** Whatever the others do, a create or delete makes at most as many steps as there are slots, and eight more. */
  lemma {:induction false} StepsAreFew(ss: seq<State>, t: nat, i: nat, k: nat)
    requires Run(ss) && i <= k < |ss| && t in ss[i].threads
    ensures t in ss[k].threads && |ss[k].buckets| == |ss[i].buckets|
    ensures Steps(ss, t, i, k) + Rank(ss[k].threads[t], |ss[i].buckets|)
            <= Rank(ss[i].threads[t], |ss[i].buckets|) <= |ss[i].buckets| + 8
  {
    if i < k {
      StepsAreFew(ss, t, i, k - 1);
      TableSizeFixed(ss, k - 1, k);
      RunHasInv(ss, k - 1);
      var a := RunStep(ss, k - 1);
      RankNext(ss[k - 1], a, t);
    }
  }

  // ----- what a thread may wait for -----

  ghost predicate AskedBy(s: State, u: nat, c: nat) {
    u in s.threads && PcConn(s.threads[u]) == Some(c)
  }

  /** Thread `t` waits for connection `c` to leave, which is parked until thread `u` is done. */
  ghost predicate WaitsFor(s: State, t: nat, c: nat, u: nat) {
    && t in s.threads && s.threads[t].Await? && c in s.conns && s.conns[c].index == s.threads[t].slot
    && AskedBy(s, u, c)
  }

  /** A parked connection has asked for a delete that is not done. */
  ghost predicate AskedInv(s: State) {
    forall c | c in s.conns && s.conns[c].work.Delegated? :: exists u :: AskedBy(s, u, c)
  }

  lemma StepResumes(s: State, t: nat, ok: bool, c: nat)
    requires WellFormed(s) && Enabled(s, Step(t, ok)) && c in s.conns && AskedBy(s, t, c)
    ensures var s' := ThreadStep(s, t, ok); c in s'.conns && (AskedBy(s', t, c) || s'.conns[c].work.Idle?)
  {
  }

  lemma StepKeepsAsked(s: State, t: nat, ok: bool)
    requires WellFormed(s) && AskedInv(s) && Enabled(s, Step(t, ok))
    ensures AskedInv(ThreadStep(s, t, ok))
  {
    var s' := ThreadStep(s, t, ok);
    ThreadStepsAlone(s, t, ok);
    forall c | c in s'.conns && s'.conns[c].work.Delegated? ensures exists u :: AskedBy(s', u, c) {
      var u :| AskedBy(s, u, c);
      if u == t {
        StepResumes(s, t, ok, c);
      } else {
        assert AskedBy(s', u, c);
      }
    }
  }

  lemma NextKeepsAsked(s: State, a: Action)
    requires WellFormed(s) && AskedInv(s) && Enabled(s, a)
    ensures AskedInv(Next(s, a))
  {
    if a.Step? {
      StepKeepsAsked(s, a.t, a.ok);
    } else {
      var s' := Next(s, a);
      forall c | c in s'.conns && s'.conns[c].work.Delegated? ensures exists u :: AskedBy(s', u, c) {
        if a.DeleteBegin? && a.conn == Some(c) {
          assert AskedBy(s', a.t, c);
        } else {
          var u :| AskedBy(s, u, c);
          assert AskedBy(s', u, c);
        }
      }
    }
  }

  lemma {:induction false} AskedInRun(ss: seq<State>, k: nat)
    requires Run(ss) && k < |ss|
    ensures AskedInv(ss[k])
  {
    if k > 0 {
      AskedInRun(ss, k - 1);
      RunHasInv(ss, k - 1);
      var a := RunStep(ss, k - 1);
      NextKeepsAsked(ss[k - 1], a);
    }
  }

  // ----- deletes that wait for each other -----

  ghost predicate Held(s: State, ts: set<nat>, t: nat) {
    exists c, u :: u in ts && WaitsFor(s, t, c, u)
  }

  /** Each of these deletes waits for a connection that has asked for one of them. */
  ghost predicate Knot(s: State, ts: set<nat>) {
    ts != {} && forall t {:trigger Held(s, ts, t)} | t in ts :: Held(s, ts, t)
  }

  /** These threads, and the connections they wait for, have nothing left that they could do. */
  ghost predicate Stuck(s: State, ts: set<nat>) {
    && (forall t | t in ts :: t in s.threads && !s.threads[t].Done? && !Enabled(s, Step(t, true)))
    && (forall t, c | t in ts && c in s.conns && s.conns[c].index == s.threads[t].slot ::
          !Enabled(s, Close(c)) && !Enabled(s, Work(c)))
  }

  /** Whatever these threads wait for is in their hands. */
  ghost predicate Closed(s: State, ts: set<nat>) {
    forall t, c, u | t in ts && WaitsFor(s, t, c, u) :: u in ts
  }

  /** Where a thread waits, somebody is still connected. */
  lemma SomebodyConnected(s: State, t: nat)
    requires Inv(s) && t in s.threads && s.threads[t].Await?
    ensures s.threads[t].slot < |s.buckets|
    ensures 0 < s.buckets[s.threads[t].slot].clients <==>
            exists c :: c in s.conns && s.conns[c].index == s.threads[t].slot
  {
    var i := s.threads[t].slot;
    assert OwnedState(s, s.threads[t]);
    if c :| c in s.conns && s.conns[c].index == i {
      assert c in ClientsOf(s.conns, i);
    }
    if 0 < s.buckets[i].clients {
      var c :| c in ClientsOf(s.conns, i);
      assert c in s.conns && s.conns[c].index == i;
    }
  }

  lemma StuckWaits(s: State, ts: set<nat>, t: nat)
    requires Inv(s) && AskedInv(s) && Stuck(s, ts) && t in ts
    ensures exists c, u :: WaitsFor(s, t, c, u)
  {
    SomebodyConnected(s, t);
    var c :| c in s.conns && s.conns[c].index == s.threads[t].slot;
    assert s.conns[c].work.Delegated?;
    var u :| AskedBy(s, u, c);
    assert WaitsFor(s, t, c, u);
  }

  /** Nothing but waiting for each other keeps deletes from going on. */
  lemma OnlyKnotsBlock(ss: seq<State>, k: nat, ts: set<nat>)
    requires Run(ss) && k < |ss| && ts != {} && Closed(ss[k], ts) && Stuck(ss[k], ts)
    ensures Knot(ss[k], ts)
  {
    RunHasInv(ss, k);
    AskedInRun(ss, k);
    forall t | t in ts ensures Held(ss[k], ts, t) {
      StuckWaits(ss[k], ts, t);
    }
  }

  lemma HeldCannotStep(s: State, ts: set<nat>, t: nat, ok: bool)
    requires Inv(s) && Held(s, ts, t)
    ensures t in s.threads && s.threads[t].Await? && !Enabled(s, Step(t, ok))
  {
    var c, u :| u in ts && WaitsFor(s, t, c, u);
    SomebodyConnected(s, t);
  }

  /** A step leaves alone all connections but the one it was asked by. */
  lemma StepKeepsOthers(s: State, v: nat, ok: bool, c: nat)
    requires WellFormed(s) && Enabled(s, Step(v, ok)) && c in s.conns && !AskedBy(s, v, c)
    ensures var s' := ThreadStep(s, v, ok); c in s'.conns && s'.conns[c] == s.conns[c]
  {
  }

  /** Other threads, and connections, do not end a wait. */
  lemma WaitGoesOn(s: State, a: Action, t: nat, c: nat, u: nat)
    requires WellFormed(s) && ParkInv(s) && Enabled(s, a) && WaitsFor(s, t, c, u) && (a.Step? ==> a.t != t && a.t != u)
    ensures WaitsFor(Next(s, a), t, c, u)
  {
    assert Parked(s, c);
    if a.Step? {
      ThreadStepsAlone(s, a.t, a.ok);
      StepKeepsOthers(s, a.t, a.ok, c);
    }
  }

  lemma KnotNext(s: State, a: Action, ts: set<nat>)
    requires Inv(s) && ParkInv(s) && Enabled(s, a) && Knot(s, ts)
    ensures Knot(Next(s, a), ts)
  {
    if a.Step? && a.t in ts {
      assert Held(s, ts, a.t);
      HeldCannotStep(s, ts, a.t, a.ok);
    }
    forall t | t in ts ensures Held(Next(s, a), ts, t) {
      assert Held(s, ts, t);
      var c, u :| u in ts && WaitsFor(s, t, c, u);
      WaitGoesOn(s, a, t, c, u);
    }
  }

  lemma KnotMoves(ss: seq<State>, k: nat, ts: set<nat>)
    requires Run(ss) && k + 1 < |ss| && Knot(ss[k], ts)
    ensures Knot(ss[k + 1], ts)
  {
    RunHasInv(ss, k);
    StraysInRun(ss, k);
    var a := RunStep(ss, k);
    KnotNext(ss[k], a, ts);
  }

  lemma {:induction false} KnotLasts(ss: seq<State>, i: nat, k: nat, ts: set<nat>)
    requires Run(ss) && i <= k < |ss| && Knot(ss[i], ts)
    ensures Knot(ss[k], ts)
  {
    if i < k {
      KnotLasts(ss, i, k - 1, ts);
      KnotMoves(ss, k - 1, ts);
    }
  }

  /** Deletes that wait for each other do so in every state that follows: none of them ever ends. */
  lemma KnotIsForever(ss: seq<State>, i: nat, k: nat, ts: set<nat>)
    requires Run(ss) && i <= k < |ss| && Knot(ss[i], ts)
    ensures Knot(ss[k], ts) && forall t | t in ts :: t in ss[k].threads && ss[k].threads[t].Await?
  {
    KnotLasts(ss, i, k, ts);
    forall t | t in ts ensures t in ss[k].threads && ss[k].threads[t].Await? {
      assert Held(ss[k], ts, t);
    }
  }
}
