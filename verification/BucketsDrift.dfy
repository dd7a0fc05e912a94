/**
 * The count of the no-bucket: a delete takes the connection that asked for it
 * out of the bucket without counting it in at slot 0, and the count is short by
 * one from then on.
 */
module BucketsDrift {
  import opened Basics
  import opened Buckets
  import opened BucketsSafety
  import opened BucketsRuns

  // ----- connections that wait for a delete -----

  /** A connection that waits for a delete is parked, and waits for one delete only. */
  ghost predicate ParkInv(s: State) {
    && (forall t | t in s.threads && PcConn(s.threads[t]).Some? :: Parked(s, PcConn(s.threads[t]).value))
    && (forall t, u | t in s.threads && u in s.threads && t != u && PcConn(s.threads[t]).Some? ::
          PcConn(s.threads[t]) != PcConn(s.threads[u]))
  }

  ghost predicate Parked(s: State, c: nat) {
    c in s.conns && s.conns[c].work.Delegated?
  }

  /** Connections and threads that are parked and waited for stay so. */
  lemma ConnActionKeepsPark(s: State, a: Action)
    requires WellFormed(s) && ParkInv(s) && Enabled(s, a) && !a.Step? && !a.DeleteBegin?
    ensures ParkInv(Next(s, a))
  {
    var s' := Next(s, a);
    forall t | t in s'.threads && PcConn(s'.threads[t]).Some? ensures Parked(s', PcConn(s'.threads[t]).value) {
      assert Parked(s, PcConn(s.threads[t]).value);
    }
  }

  lemma DeleteBeginKeepsPark(s: State, a: Action)
    requires WellFormed(s) && ParkInv(s) && Enabled(s, a) && a.DeleteBegin?
    ensures ParkInv(Next(s, a))
  {
    var s' := Next(s, a);
    forall t | t in s.threads && PcConn(s.threads[t]).Some?
      ensures PcConn(s.threads[t]) != a.conn && Parked(s', PcConn(s.threads[t]).value) {
      assert Parked(s, PcConn(s.threads[t]).value);
    }
  }

  /** A step changes its own thread only, and may only let the connection that waits for it go on. */
  ghost predicate StepsAlone(s: State, s': State, t: nat) {
    && t in s.threads && t in s'.threads && s'.threads == s.threads[t := s'.threads[t]]
    && PcConn(s'.threads[t]) in {PcConn(s.threads[t]), None}
    && s.conns.Keys == s'.conns.Keys
    && forall c | c in s.conns :: s'.conns[c].work == s.conns[c].work ||
         (Some(c) == PcConn(s.threads[t]) && PcConn(s'.threads[t]) == None && s'.conns[c].work == Idle)
  }

  lemma ScanStepsAlone(s: State, t: nat, p: Pc)
    requires t in s.threads && s.threads[t] == p && p.Scan?
    ensures StepsAlone(s, ScanStep(s, t, p), t) && ScanStep(s, t, p).conns == s.conns
  {
  }

  lemma FindStepsAlone(s: State, t: nat, p: Pc)
    requires t in s.threads && s.threads[t] == p && p.Find?
    ensures StepsAlone(s, FindStep(s, t, p), t)
  {
  }

  lemma OwnerStepsAlone(s: State, t: nat, p: Pc, ok: bool)
    requires t in s.threads && s.threads[t] == p && Owning(p) && p.slot < |s.buckets|
    ensures StepsAlone(s, OwnerStep(s, t, p, ok), t)
  {
    var e := OwnerEffect(p, s.buckets[p.slot], ok, s.nextEngine);
    assert e.pc.Done? || PcConn(e.pc) == PcConn(p);
  }

  lemma ThreadStepsAlone(s: State, t: nat, ok: bool)
    requires WellFormed(s) && Enabled(s, Step(t, ok))
    ensures StepsAlone(s, ThreadStep(s, t, ok), t)
  {
    var p := s.threads[t];
    if p.Scan? {
      ScanStepsAlone(s, t, p);
    } else if p.Find? {
      FindStepsAlone(s, t, p);
    } else if Owning(p) {
      OwnerStepsAlone(LeaveOwn(s, p), t, p, ok);
    }
  }

  lemma StepKeepsPark(s: State, s': State, t: nat)
    requires ParkInv(s) && StepsAlone(s, s', t)
    ensures ParkInv(s')
  {
    forall u | u in s'.threads && PcConn(s'.threads[u]).Some? ensures Parked(s', PcConn(s'.threads[u]).value) {
      assert Parked(s, PcConn(s.threads[u]).value);
    }
  }

  lemma NextKeepsPark(s: State, a: Action)
    requires WellFormed(s) && ParkInv(s) && Enabled(s, a)
    ensures ParkInv(Next(s, a))
  {
    if a.Step? {
      ThreadStepsAlone(s, a.t, a.ok);
      StepKeepsPark(s, Next(s, a), a.t);
    } else if a.DeleteBegin? {
      DeleteBeginKeepsPark(s, a);
    } else {
      ConnActionKeepsPark(s, a);
    }
  }

  // ----- the count -----

  /** Connections that rest at the no-bucket although it does not count them. */
  ghost function Strays(conns: map<nat, Conn>): set<nat> {
    set c | c in conns && conns[c].index == 0 && !conns[c].counted && !conns[c].work.Seeking?
  }

  /** Connections at the no-bucket that are not on their way to another bucket. */
  ghost function Resting(conns: map<nat, Conn>): set<nat> {
    set c | c in conns && conns[c].index == 0 && !conns[c].work.Seeking?
  }

  /** A delete is about to take the connection that asked for it out of the bucket. */
  ghost predicate OwnRelease(s: State, t: nat) {
    && t in s.threads && s.threads[t].Release? && s.threads[t].conn.Some?
    && s.threads[t].conn.value in s.conns && s.conns[s.threads[t].conn.value].index == s.threads[t].slot
  }

  ghost predicate ReleasesOwn(s: State, s': State) {
    exists t :: OwnRelease(s, t) && t in s'.threads && s'.threads[t].Await?
  }

  lemma ConnActionStrays(s: State, a: Action)
    requires WellFormed(s) && Enabled(s, a) && !a.Step?
    ensures var s' := Next(s, a);
            s'.uncountedExits + |Strays(s'.conns)| == s.uncountedExits + |Strays(s.conns)| && !ReleasesOwn(s, s')
  {
    var s' := Next(s, a);
    if a.CreateRefuse? || a.CreateBegin? || (a.DeleteBegin? && a.conn.None?) {
      assert s'.conns == s.conns;
    } else {
      var c := if a.DeleteBegin? then a.conn.value else a.c;
      CardAfterUpdate(Strays(s.conns), Strays(s'.conns), c);
    }
  }

  lemma OwnerStepStrays(s: State, t: nat, p: Pc, ok: bool)
    requires ParkInv(s) && t in s.threads && s.threads[t] == p && Owning(p) && p.slot < |s.buckets|
    ensures Strays(OwnerStep(s, t, p, ok).conns) == Strays(s.conns)
  {
    if PcConn(p).Some? {
      assert Parked(s, PcConn(p).value);
    }
  }

  lemma FindStepStrays(s: State, t: nat, p: Pc)
    requires ParkInv(s) && t in s.threads && s.threads[t] == p && p.Find?
    ensures Strays(FindStep(s, t, p).conns) == Strays(s.conns)
  {
    if p.conn.Some? {
      assert Parked(s, p.conn.value);
    }
  }

  lemma LeaveOwnStrays(s: State, t: nat, p: Pc)
    requires WellFormed(s) && ParkInv(s) && OwnedInv(s) && t in s.threads && s.threads[t] == p && Owning(p)
    ensures var s1 := LeaveOwn(s, p);
            && ParkInv(s1) && s1.uncountedExits == s.uncountedExits
            && |Strays(s1.conns)| == |Strays(s.conns)| + if OwnRelease(s, t) then 1 else 0
  {
    assert OwnedState(s, p);
    if OwnRelease(s, t) {
      assert Parked(s, p.conn.value);
      CardAfterUpdate(Strays(s.conns), Strays(LeaveOwn(s, p).conns), p.conn.value);
      forall u | u in s.threads && PcConn(s.threads[u]).Some?
        ensures Parked(LeaveOwn(s, p), PcConn(s.threads[u]).value) {
        assert Parked(s, PcConn(s.threads[u]).value);
      }
    }
  }

  /** Each step: what is missing at the no-bucket grows exactly when a delete releases its own connection. */
  lemma ThreadStepStrays(s: State, t: nat, ok: bool)
    requires WellFormed(s) && ParkInv(s) && OwnedInv(s) && Enabled(s, Step(t, ok))
    ensures var s' := ThreadStep(s, t, ok);
            s'.uncountedExits + |Strays(s'.conns)|
              == s.uncountedExits + |Strays(s.conns)| + if OwnRelease(s, t) then 1 else 0
  {
    var p := s.threads[t];
    if p.Find? {
      FindStepStrays(s, t, p);
    } else if Owning(p) {
      LeaveOwnStrays(s, t, p);
      OwnerStepStrays(LeaveOwn(s, p), t, p, ok);
    }
  }

  lemma ReleasesOwnIs(s: State, t: nat, ok: bool)
    requires WellFormed(s) && Enabled(s, Step(t, ok))
    ensures ReleasesOwn(s, ThreadStep(s, t, ok)) <==> OwnRelease(s, t)
  {
    ThreadStepsAlone(s, t, ok);
    if OwnRelease(s, t) {
      assert ThreadStep(s, t, ok).threads[t].Await?;
    }
  }

  /** How many deletes have released their own connection by then. */
  ghost function OwnReleases(ss: seq<State>, k: nat): nat
    requires k < |ss|
  {
    if k == 0 then 0 else OwnReleases(ss, k - 1) + if ReleasesOwn(ss[k - 1], ss[k]) then 1 else 0
  }

  lemma {:induction false} StraysInRun(ss: seq<State>, k: nat)
    requires Run(ss) && k < |ss|
    ensures ParkInv(ss[k]) && ss[k].uncountedExits + |Strays(ss[k].conns)| == OwnReleases(ss, k)
  {
    if k == 0 {
      assert Strays(ss[0].conns) == {};
    } else {
      StraysInRun(ss, k - 1);
      OwnersInRun(ss, k - 1);
      var a := RunStep(ss, k - 1);
      NextKeepsPark(ss[k - 1], a);
      if a.Step? {
        ThreadStepStrays(ss[k - 1], a.t, a.ok);
        ReleasesOwnIs(ss[k - 1], a.t, a.ok);
      } else {
        ConnActionStrays(ss[k - 1], a);
      }
    }
  }

  lemma RestingIs(s: State)
    requires SeekInv(s)
    ensures |Resting(s.conns)| == |CountedAtZero(s.conns)| + |Strays(s.conns)|
  {
    assert Resting(s.conns) == CountedAtZero(s.conns) + Strays(s.conns);
    assert CountedAtZero(s.conns) * Strays(s.conns) == {};
  }

  /** The no-bucket counts the connections that rest there, less one for every delete of a connection's own bucket. */
  lemma NoBucketCount(ss: seq<State>, k: nat)
    requires Run(ss) && k < |ss|
    ensures 0 < |ss[k].buckets| && ss[k].buckets[0].clients == |Resting(ss[k].conns)| - OwnReleases(ss, k)
  {
    RunHasInv(ss, k);
    StraysInRun(ss, k);
    RestingIs(ss[k]);
  }

  // ----- a run in which the count falls below zero -----

  lemma Go(s: State, a: Action) returns (s': State)
    requires Reachable(s) && Enabled(s, a)
    ensures WellFormed(s) && s' == Next(s, a) && Reachable(s')
  {
    var ss :| Run(ss) && Last(ss) == s;
    RunHasInv(ss, |ss| - 1);
    ReachNext(s, a);
    s' := Next(s, a);
  }

  /** Slot 1 of two, thread 0 making it, and nobody connected. */
  ghost predicate Making(s: State, b: Bucket, p: Pc) {
    && |s.buckets| == 2 && s.buckets[0] == NO_BUCKET && s.buckets[1] == b
    && s.conns == map[] && s.threads.Keys == {0} && s.threads[0] == p && s.lock.None? && s.uncountedExits == 0
  }

  lemma ReachInitialize() returns (s: State, e: Engine)
    ensures Reachable(s) && Making(s, Bucket(Initializing, "default", e, 0), Initialize(1))
  {
    ReachReserve();
    s := Creating0(Reserve("default", 1));
    s := Go(s, Step(0, true));
    assert Making(s, Bucket(Creating, "default", Null, 0), NewEngine(1));
    e := At(s.nextEngine);
    s := Go(s, Step(0, true));
    assert Making(s, Bucket(Creating, "default", e, 0), SetInitializing(1));
    s := Go(s, Step(0, true));
  }

  lemma ReachReady() returns (s: State, e: Engine)
    ensures Reachable(s) && Making(s, Bucket(Ready, "default", e, 0), Done(Success))
  {
    s, e := ReachInitialize();
    s := Go(s, Step(0, true));
    assert Making(s, Bucket(Initializing, "default", e, 0), SetReady(1));
    s := Go(s, Step(0, true));
  }

  /** Connection 5 is the only one, and no thread but 0 and 1 has run. */
  ghost predicate Using(s: State, zero: int, b: Bucket, k: Conn) {
    && |s.buckets| == 2 && s.buckets[0] == NO_BUCKET.(clients := zero) && s.buckets[1] == b
    && s.conns.Keys == {5} && s.conns[5] == k && s.threads.Keys <= {0, 1} && s.uncountedExits == 0
  }

  lemma ReachJoined() returns (s: State, e: Engine)
    ensures Reachable(s) && Using(s, 0, Bucket(Ready, "default", e, 1), Conn(1, e, true, Idle))
    ensures s.threads.Keys == {0} && s.lock.None?
  {
    s, e := ReachReady();
    s := Go(s, Connect(5));
    assert Using(s, 1, Bucket(Ready, "default", e, 0), Conn(0, At(0), true, Leaving("default")));
    s := Go(s, Work(5));
    assert Using(s, 0, Bucket(Ready, "default", e, 0), Conn(0, Null, false, Seeking("default", 1)));
    s := Go(s, Work(5));
  }

  /** Thread 1 deletes the bucket for connection 5. */
  lemma ReachRelease() returns (s: State, e: Engine)
    ensures Reachable(s) && Using(s, 0, Bucket(Destroying, "default", e, 1), Conn(1, e, true, Delegated))
    ensures 1 in s.threads && s.threads[1] == Release(1, Some(5))
  {
    s, e := ReachJoined();
    s := Go(s, DeleteBegin(1, "default", Some(5)));
    assert Using(s, 0, Bucket(Ready, "default", e, 1), Conn(1, e, true, Delegated));
    assert s.threads[1] == Find("default", Some(5), 0);
    s := Go(s, Step(1, true));
    assert s.threads[1] == Find("default", Some(5), 1);
    s := Go(s, Step(1, true));
  }

  lemma ReachDestroy() returns (s: State, e: Engine)
    ensures Reachable(s) && Using(s, 0, Bucket(Destroying, "default", e, 0), Conn(0, Null, false, Delegated))
    ensures 1 in s.threads && s.threads[1] == Destroy(1, Some(5))
  {
    s, e := ReachRelease();
    s := Go(s, Step(1, true));
    assert Using(s, 0, Bucket(Destroying, "default", e, 0), Conn(0, Null, false, Delegated));
    assert s.threads[1] == Await(1, Some(5));
    s := Go(s, Step(1, true));
  }

  lemma ReachDeleted() returns (s: State)
    ensures Reachable(s) && Using(s, 0, FREE_SLOT, Conn(0, Null, false, Idle))
  {
    var e;
    s, e := ReachDestroy();
    s := Go(s, Step(1, true));
    assert s.threads[1] == Clear(1, Some(5));
    s := Go(s, Step(1, true));
  }

  /** A connection deletes its own bucket and closes: the no-bucket counts one less than nobody. */
  lemma RunThatDrifts() returns (ss: seq<State>)
    ensures Run(ss) && Last(ss).conns == map[] && Last(ss).uncountedExits == 1
    ensures |Last(ss).buckets| == 2 && Last(ss).buckets[0].clients == -1
  {
    var s := ReachDeleted();
    s := Go(s, Close(5));
    ss :| Run(ss) && Last(ss) == s;
  }
}
