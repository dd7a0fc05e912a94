/** What a create, a select and a delete achieve, and answer, when nobody interferes. */
module BucketsAlone {
  import opened Basics
  import opened Buckets
  import opened BucketsSafety
  import opened BucketsRuns
  import opened BucketsDrift

  /** Only slot `k` has this name. */
  predicate OnlyNamed(s: State, name: string, k: nat) {
    k < |s.buckets| && forall j :: 0 <= j < |s.buckets| ==> (s.buckets[j].name == name <==> j == k)
  }

  predicate Unnamed(s: State, name: string) {
    forall j :: 0 <= j < |s.buckets| ==> s.buckets[j].name != name
  }

  predicate FirstFree(s: State, k: nat) {
    k < |s.buckets| && forall j :: 0 <= j <= k ==> (s.buckets[j].state == Unused <==> j == k)
  }

  // ----- a thread that owns a slot -----

  /** Slot `k` is `b`, its owner is at `p`, and everything else is as in `s` but for the engines made and destroyed. */
  function OwnerAt(s: State, t: nat, k: nat, b: Bucket, p: Pc, made: nat, gone: seq<nat>): State
    requires k < |s.buckets|
  {
    s.(buckets := s.buckets[k := b], threads := s.threads[t := p], lock := None, nextEngine := s.nextEngine + made,
    destroyed := s.destroyed + gone)
  }

  /** The state after the step of an owner. */
  function OwnerWentOn(s: State, t: nat, k: nat, b: Bucket, p: Pc, made: nat, gone: seq<nat>, ok: bool): State
    requires Owning(p) && p.slot == k < |s.buckets|
  {
    AfterEffect(s, t, k, b, PcConn(p), made, gone, OwnerEffect(p, b, ok, s.nextEngine + made))
  }

  function AfterEffect(s: State, t: nat, k: nat, b: Bucket, conn: Option<nat>, made: nat, gone: seq<nat>,
                       e: Effect): State
    requires k < |s.buckets|
  {
    OwnerAt(if e.pc.Done? then s.(conns := Resume(s.conns, conn)) else s, t, k, e.bucket, e.pc,
            made + (if e.creates then 1 else 0), gone + if e.destroys && b.engine.At? then [b.engine.id] else [])
  }

  lemma EffectIs(s: State, t: nat, k: nat, b: Bucket, p: Pc, made: nat, gone: seq<nat>, e: Effect)
    requires k < |s.buckets|
    ensures var s0 := OwnerAt(s, t, k, b, p, made, gone);
            AfterEffect(s, t, k, b, PcConn(p), made, gone, e) ==
            State(s0.buckets[k := e.bucket], if e.pc.Done? then Resume(s0.conns, PcConn(p)) else s0.conns,
                  s0.threads[t := e.pc], s0.lock, s0.nextEngine + (if e.creates then 1 else 0),
                  s0.destroyed + (if e.destroys && b.engine.At? then [b.engine.id] else []), s0.deletes,
                  s0.uncountedExits)
  {
    var more := if e.destroys && b.engine.At? then [b.engine.id] else [];
    assert s.destroyed + gone + more == s.destroyed + (gone + more);
    assert s.buckets[k := b][k := e.bucket] == s.buckets[k := e.bucket];
    assert s.threads[t := p][t := e.pc] == s.threads[t := e.pc];
  }

  lemma OwnerStepIs(s: State, t: nat, k: nat, b: Bucket, p: Pc, made: nat, gone: seq<nat>, ok: bool)
    requires Owning(p) && p.slot == k < |s.buckets|
    ensures OwnerStep(OwnerAt(s, t, k, b, p, made, gone), t, p, ok) == OwnerWentOn(s, t, k, b, p, made, gone, ok)
  {
    EffectIs(s, t, k, b, p, made, gone, OwnerEffect(p, b, ok, s.nextEngine + made));
  }

  lemma OwnerStepAlone(s: State, t: nat, k: nat, b: Bucket, p: Pc, made: nat, gone: seq<nat>, ok: bool)
    requires Owning(p) && !p.Release? && p.slot == k < |s.buckets| && (p.Await? ==> b.clients <= 0)
    requires Reachable(OwnerAt(s, t, k, b, p, made, gone))
    ensures Reachable(OwnerWentOn(s, t, k, b, p, made, gone, ok))
  {
    var s0 := OwnerAt(s, t, k, b, p, made, gone);
    var s1 := Go(s0, Step(t, ok));
    assert s1 == OwnerStep(s0, t, p, ok);
    OwnerStepIs(s, t, k, b, p, made, gone, ok);
  }

  // ----- creating -----

  function ThreadAt(s: State, t: nat, p: Pc, lock: Option<nat>): State {
    s.(threads := s.threads[t := p], lock := lock)
  }

  /** The scan finds the first free slot. */
  lemma {:induction false} ScanAlone(s: State, t: nat, name: string, next: nat, k: nat)
    requires next <= |s.buckets| && Unnamed(s, name) && FirstFree(s, k)
    requires Reachable(ThreadAt(s, t, Scan(name, next, if k < next then Some(k) else None, false), Some(t)))
    ensures Reachable(ThreadAt(s, t, Reserve(name, k), Some(t)))
    decreases |s.buckets| - next
  {
    var s1 := ThreadAt(s, t, Scan(name, next, if k < next then Some(k) else None, false), Some(t));
    var s2 := Go(s1, Step(t, true));
    if next < |s.buckets| {
      assert s2 == ThreadAt(s, t, Scan(name, next + 1, if k < next + 1 then Some(k) else None, false), Some(t));
      ScanAlone(s, t, name, next + 1, k);
    } else {
      assert s2 == ThreadAt(s, t, Reserve(name, k), Some(t));
    }
  }

  lemma ReserveAlone(s: State, t: nat, name: string, k: nat)
    requires k < |s.buckets| && Reachable(ThreadAt(s, t, Reserve(name, k), Some(t)))
    ensures Reachable(OwnerAt(s, t, k, s.buckets[k].(state := Creating, name := name), NewEngine(k), 0, []))
  {
    var s1 := Go(ThreadAt(s, t, Reserve(name, k), Some(t)), Step(t, true));
    assert s.destroyed + [] == s.destroyed;
    assert s1 == OwnerAt(s, t, k, s.buckets[k].(state := Creating, name := name), NewEngine(k), 0, []);
  }

  /** The create has taken the first free slot. */
  lemma TakeAlone(s: State, t: nat, name: string, k: nat)
    requires Reachable(s) && t !in s.threads && s.lock.None? && ValidName(name) && Unnamed(s, name) && FirstFree(s, k)
    ensures Reachable(OwnerAt(s, t, k, s.buckets[k].(state := Creating, name := name), NewEngine(k), 0, []))
  {
    var s1 := Go(s, CreateBegin(t, name));
    assert s1 == ThreadAt(s, t, Scan(name, 0, None, false), Some(t));
    ScanAlone(s, t, name, 0, k);
    ReserveAlone(s, t, name, k);
  }

  /** From a slot that is taken to one whose engine is to be initialised. */
  lemma EngineAlone(s: State, t: nat, k: nat, b: Bucket)
    requires k < |s.buckets| && Reachable(OwnerAt(s, t, k, b, NewEngine(k), 0, []))
    ensures Reachable(OwnerAt(s, t, k, b.(state := Initializing, engine := At(s.nextEngine)), Initialize(k), 1, []))
  {
    OwnerStepAlone(s, t, k, b, NewEngine(k), 0, [], true);
    OwnerStepAlone(s, t, k, b.(engine := At(s.nextEngine)), SetInitializing(k), 1, [], true);
  }

  lemma ReadyAlone(s: State, t: nat, k: nat, b: Bucket)
    requires k < |s.buckets| && Reachable(OwnerAt(s, t, k, b, Initialize(k), 1, []))
    ensures Reachable(OwnerAt(s, t, k, b.(state := Ready), Done(Success), 1, []))
  {
    OwnerStepAlone(s, t, k, b, Initialize(k), 1, [], true);
    OwnerStepAlone(s, t, k, b, SetReady(k), 1, [], true);
  }

  /** Left alone, a create puts a fresh engine into the first free slot, and touches nothing else. */
  lemma CreateAlone(s: State, t: nat, name: string, k: nat)
    requires Reachable(s) && t !in s.threads && s.lock.None? && ValidName(name) && Unnamed(s, name) && FirstFree(s, k)
    ensures Reachable(OwnerAt(s, t, k, Bucket(Ready, name, At(s.nextEngine), s.buckets[k].clients), Done(Success), 1,
                              []))
  {
    TakeAlone(s, t, name, k);
    EngineAlone(s, t, k, s.buckets[k].(state := Creating, name := name));
    ReadyAlone(s, t, k, s.buckets[k].(state := Initializing, name := name, engine := At(s.nextEngine)));
  }

  /** A create that gets no engine fails and gives the slot back as it was. */
  lemma CreateWithoutEngine(s: State, t: nat, name: string, k: nat)
    requires Reachable(s) && t !in s.threads && s.lock.None? && ValidName(name) && Unnamed(s, name) && FirstFree(s, k)
    ensures Reachable(s.(threads := s.threads[t := Done(Failed)]))
  {
    TakeAlone(s, t, name, k);
    var b := s.buckets[k].(state := Creating, name := name);
    OwnerStepAlone(s, t, k, b, NewEngine(k), 0, [], false);
    OwnerStepAlone(s, t, k, b, NoEngine(k), 0, [], false);
    UnusedIsEmpty(s, k);
    assert OwnerAt(s, t, k, EmptySlot(b), Done(Failed), 0, []) == s.(threads := s.threads[t := Done(Failed)]);
  }

  lemma UnusedIsEmpty(s: State, k: nat)
    requires Reachable(s) && FirstFree(s, k)
    ensures s.buckets[k].state == Unused && s.buckets[k].name == "" && s.buckets[k].engine == Null
    ensures s.buckets == s.buckets[k := s.buckets[k]] && s.destroyed + [] == s.destroyed
  {
    var ss :| Run(ss) && Last(ss) == s;
    RunHasInv(ss, |ss| - 1);
    assert k >= 1 ==> SlotInv(s.buckets[k]);
  }

  lemma UndoAlone(s: State, t: nat, k: nat, b: Bucket, e: nat)
    requires k < |s.buckets| && b.engine == At(e) && Reachable(OwnerAt(s, t, k, b, SetDestroying(k), 1, []))
    ensures Reachable(OwnerAt(s, t, k, Bucket(Unused, "", Null, b.clients), Done(NotStored), 1, [e]))
  {
    OwnerStepAlone(s, t, k, b, SetDestroying(k), 1, [], true);
    var b1 := b.(state := Destroying);
    OwnerStepAlone(s, t, k, b1, CreateDestroy(k), 1, [], true);
    assert [] + [e] == [e] && [e] + [] == [e];
    OwnerStepAlone(s, t, k, b1, CreateClear(k), 1, [e], true);
  }

  /** A create whose engine cannot be initialised destroys the engine and gives the slot back as it was. */
  lemma CreateWithBadEngine(s: State, t: nat, name: string, k: nat)
    requires Reachable(s) && t !in s.threads && s.lock.None? && ValidName(name) && Unnamed(s, name) && FirstFree(s, k)
    ensures Reachable(s.(threads := s.threads[t := Done(NotStored)], nextEngine := s.nextEngine + 1,
                         destroyed := s.destroyed + [s.nextEngine]))
  {
    TakeAlone(s, t, name, k);
    EngineAlone(s, t, k, s.buckets[k].(state := Creating, name := name));
    var b := s.buckets[k].(state := Initializing, name := name, engine := At(s.nextEngine));
    OwnerStepAlone(s, t, k, b, Initialize(k), 1, [], false);
    UndoAlone(s, t, k, b, s.nextEngine);
    UnusedIsEmpty(s, k);
    assert Bucket(Unused, "", Null, b.clients) == s.buckets[k];
  }

  lemma {:induction false} ScanFinds(s: State, t: nat, name: string, next: nat, free: Option<nat>, k: nat)
    requires next <= k && OnlyNamed(s, name, k)
    requires Reachable(ThreadAt(s, t, Scan(name, next, free, false), Some(t)))
    ensures Reachable(ThreadAt(s, t, Done(KeyEexists), None))
    decreases k - next
  {
    var s2 := Go(ThreadAt(s, t, Scan(name, next, free, false), Some(t)), Step(t, true));
    var free' := if free.None? && s.buckets[next].state == Unused then Some(next) else free;
    if next < k {
      assert s2 == ThreadAt(s, t, Scan(name, next + 1, free', false), Some(t));
      ScanFinds(s, t, name, next + 1, free', k);
    } else {
      assert s2 == ThreadAt(s, t, Scan(name, next + 1, free', true), Some(t));
      var s3 := Go(s2, Step(t, true));
      assert s3 == ThreadAt(s, t, Done(KeyEexists), None);
    }
  }

  /** A create for a name that is taken is refused with KEY_EEXISTS and changes nothing. */
  lemma CreateTaken(s: State, t: nat, name: string, k: nat)
    requires Reachable(s) && t !in s.threads && s.lock.None? && ValidName(name) && OnlyNamed(s, name, k)
    ensures Reachable(s.(threads := s.threads[t := Done(KeyEexists)]))
  {
    var s1 := Go(s, CreateBegin(t, name));
    assert s1 == ThreadAt(s, t, Scan(name, 0, None, false), Some(t));
    ScanFinds(s, t, name, 0, None, k);
    assert ThreadAt(s, t, Done(KeyEexists), None) == s.(threads := s.threads[t := Done(KeyEexists)]);
  }

  lemma {:induction false} ScanFull(s: State, t: nat, name: string, next: nat)
    requires next <= |s.buckets| && Unnamed(s, name)
    requires forall j :: 0 <= j < |s.buckets| ==> s.buckets[j].state != Unused
    requires Reachable(ThreadAt(s, t, Scan(name, next, None, false), Some(t)))
    ensures Reachable(ThreadAt(s, t, Done(E2big), None))
    decreases |s.buckets| - next
  {
    var s2 := Go(ThreadAt(s, t, Scan(name, next, None, false), Some(t)), Step(t, true));
    if next < |s.buckets| {
      assert s2 == ThreadAt(s, t, Scan(name, next + 1, None, false), Some(t));
      ScanFull(s, t, name, next + 1);
    } else {
      assert s2 == ThreadAt(s, t, Done(E2big), None);
    }
  }

  /** A create in a full table is refused with E2BIG and changes nothing. */
  lemma CreateFull(s: State, t: nat, name: string)
    requires Reachable(s) && t !in s.threads && s.lock.None? && ValidName(name) && Unnamed(s, name)
    requires forall j :: 0 <= j < |s.buckets| ==> s.buckets[j].state != Unused
    ensures Reachable(s.(threads := s.threads[t := Done(E2big)]))
  {
    var s1 := Go(s, CreateBegin(t, name));
    assert s1 == ThreadAt(s, t, Scan(name, 0, None, false), Some(t));
    ScanFull(s, t, name, 0);
    assert ThreadAt(s, t, Done(E2big), None) == s.(threads := s.threads[t := Done(E2big)]);
  }

  // ----- selecting -----

  function WithConn(s: State, c: nat, k: Conn): State {
    s.(conns := s.conns[c := k])
  }

  function Joined(s: State, c: nat, k: nat): State
    requires k < |s.buckets|
  {
    var b := s.buckets[k];
    WithConn(SetBucket(s, k, b.(clients := b.clients + 1)), c, Conn(k, b.engine, true, Idle))
  }

  /** Left alone, a connection that looks for a bucket finds it. */
  lemma {:induction false} SeekAlone(s: State, c: nat, name: string, next: nat, k: nat)
    requires next <= k && OnlyNamed(s, name, k) && s.buckets[k].state == Ready
    requires Reachable(WithConn(s, c, Conn(0, Null, false, Seeking(name, next))))
    ensures Reachable(Joined(s, c, k))
    decreases k - next
  {
    var s1 := WithConn(s, c, Conn(0, Null, false, Seeking(name, next)));
    var s2 := Go(s1, Work(c));
    if next < k {
      assert s2 == WithConn(s, c, Conn(0, Null, false, Seeking(name, next + 1)));
      SeekAlone(s, c, name, next + 1, k);
    } else {
      assert s2 == Joined(s, c, k);
    }
  }

  /** A new connection gets into the default bucket. */
  lemma ConnectAlone(s: State, c: nat, k: nat)
    requires Reachable(s) && c !in s.conns && 1 <= k && OnlyNamed(s, "default", k) && s.buckets[k].state == Ready
    ensures Reachable(Joined(s, c, k))
  {
    var s1 := Go(s, Connect(c));
    var s2 := Go(s1, Work(c));
    assert s2 == WithConn(s, c, Conn(0, Null, false, Seeking("default", 1)));
    SeekAlone(s, c, "default", 1, k);
  }

  /** A connection changes from bucket `i` to bucket `k`. */
  lemma SelectAlone(s: State, c: nat, i: nat, name: string, k: nat)
    requires Reachable(s) && c in s.conns && s.conns[c].work.Idle? && s.conns[c].index == i < |s.buckets| && 1 <= i
    requires 1 <= k && OnlyNamed(s, name, k) && s.buckets[k].state == Ready
    ensures var b := s.buckets[i]; Reachable(Joined(SetBucket(s, i, b.(clients := b.clients - 1)), c, k))
  {
    var b := s.buckets[i];
    var left := SetBucket(s, i, b.(clients := b.clients - 1));
    var s1 := Go(s, Select(c, name));
    var s2 := Go(s1, Work(c));
    assert s2 == WithConn(left, c, Conn(0, Null, false, Seeking(name, 1)));
    SeekAlone(left, c, name, 1, k);
  }

  lemma {:induction false} SeekInVain(s: State, c: nat, name: string, next: nat)
    requires next <= |s.buckets| && 0 < |s.buckets|
    requires forall j :: 1 <= j < |s.buckets| ==> s.buckets[j].state != Ready || s.buckets[j].name != name
    requires 1 <= next && Reachable(WithConn(s, c, Conn(0, Null, false, Seeking(name, next))))
    ensures Reachable(Joined(s, c, 0))
    decreases |s.buckets| - next
  {
    var s2 := Go(WithConn(s, c, Conn(0, Null, false, Seeking(name, next))), Work(c));
    if next < |s.buckets| {
      assert s2 == WithConn(s, c, Conn(0, Null, false, Seeking(name, next + 1)));
      SeekInVain(s, c, name, next + 1);
    } else {
      assert s2 == Joined(s, c, 0);
    }
  }

  /** A connection that selects a bucket that is not in service ends up in the no-bucket. */
  lemma SelectInVain(s: State, c: nat, i: nat, name: string)
    requires Reachable(s) && c in s.conns && s.conns[c].work.Idle? && s.conns[c].index == i < |s.buckets| && 1 <= i
    requires forall j :: 1 <= j < |s.buckets| ==> s.buckets[j].state != Ready || s.buckets[j].name != name
    ensures var b := s.buckets[i]; Reachable(Joined(SetBucket(s, i, b.(clients := b.clients - 1)), c, 0))
  {
    var b := s.buckets[i];
    var left := SetBucket(s, i, b.(clients := b.clients - 1));
    var s1 := Go(s, Select(c, name));
    var s2 := Go(s1, Work(c));
    assert s2 == WithConn(left, c, Conn(0, Null, false, Seeking(name, 1)));
    SeekInVain(left, c, name, 1);
  }

  // ----- deleting -----

  /** The connection that asked for a delete, if any, is parked. */
  function WithParked(s: State, conn: Option<nat>): State
    requires conn.Some? ==> conn.value in s.conns
  {
    if conn.None? then s else WithConn(s, conn.value, s.conns[conn.value].(work := Delegated))
  }

  /** Nobody asks, or a connection that has nothing else to do. */
  predicate MayAsk(s: State, conn: Option<nat>) {
    conn.Some? ==> conn.value in s.conns && s.conns[conn.value].work.Idle?
  }

  /** Thread `t` deletes for `conn` and is at `p`. */
  function Deleting(s: State, t: nat, conn: Option<nat>, p: Pc, lock: Option<nat>): State
    requires conn.Some? ==> conn.value in s.conns
  {
    ThreadAt(WithParked(s, conn), t, p, lock)
  }

  /** The bucket is no longer offered to anybody, and its engine is marked. */
  function Condemned(s: State, k: nat): State
    requires k < |s.buckets| && s.buckets[k].engine.At?
  {
    SetBucket(s, k, s.buckets[k].(state := Destroying)).(deletes := s.deletes + [s.buckets[k].engine.id])
  }

  lemma BeginDelete(s: State, t: nat, conn: Option<nat>, name: string)
    requires Reachable(s) && t !in s.threads && s.lock.None? && name != "" && MayAsk(s, conn)
    ensures Reachable(Deleting(s, t, conn, Find(name, conn, 0), Some(t)))
  {
    var s1 := Go(s, DeleteBegin(t, name, conn));
    assert s1 == Deleting(s, t, conn, Find(name, conn, 0), Some(t));
  }

  lemma {:induction false} FindAlone(s: State, t: nat, conn: Option<nat>, name: string, next: nat, k: nat)
    requires (conn.Some? ==> conn.value in s.conns) && next <= k && OnlyNamed(s, name, k)
    requires s.buckets[k].state == Ready && s.buckets[k].engine.At?
    requires Reachable(Deleting(s, t, conn, Find(name, conn, next), Some(t)))
    ensures Reachable(Deleting(Condemned(s, k), t, conn, Release(k, conn), None))
    decreases k - next
  {
    var s2 := Go(Deleting(s, t, conn, Find(name, conn, next), Some(t)), Step(t, true));
    if next < k {
      assert s2 == Deleting(s, t, conn, Find(name, conn, next + 1), Some(t));
      FindAlone(s, t, conn, name, next + 1, k);
    } else {
      assert s2 == Deleting(Condemned(s, k), t, conn, Release(k, conn), None);
    }
  }

  lemma ReleaseAlone(s: State, t: nat, conn: Option<nat>, k: nat)
    requires (conn.Some? ==> conn.value in s.conns && s.conns[conn.value].index != k) && k < |s.buckets|
    requires Reachable(Deleting(s, t, conn, Release(k, conn), None))
    ensures Reachable(Deleting(s, t, conn, Await(k, conn), None))
  {
    var s2 := Go(Deleting(s, t, conn, Release(k, conn), None), Step(t, true));
    assert s2 == Deleting(s, t, conn, Await(k, conn), None);
  }

  /** Left alone, a delete that nobody in the bucket asked for comes to the point where it waits for clients. */
  lemma DeleteAlone(s: State, t: nat, conn: Option<nat>, name: string, k: nat)
    requires Reachable(s) && t !in s.threads && s.lock.None? && name != "" && MayAsk(s, conn)
    requires conn.Some? ==> s.conns[conn.value].index != k
    requires OnlyNamed(s, name, k) && s.buckets[k].state == Ready && s.buckets[k].engine.At?
    ensures Reachable(Deleting(Condemned(s, k), t, conn, Await(k, conn), None))
  {
    BeginDelete(s, t, conn, name);
    FindAlone(s, t, conn, name, 0, k);
    ReleaseAlone(Condemned(s, k), t, conn, k);
  }

  /** The delete is over: the slot is as new, the engine is destroyed, and whoever asked goes on. */
  function Deleted(s: State, t: nat, k: nat, e: nat): State
    requires k < |s.buckets|
  {
    s.(buckets := s.buckets[k := Bucket(Unused, "", Null, s.buckets[k].clients)],
    threads := s.threads[t := Done(Success)], destroyed := s.destroyed + [e], deletes := s.deletes + [e])
  }

  /** A wait that is over, in a state that is `s` but for the slot, the thread and the connection that asked. */
  lemma EndAlone(s: State, t: nat, conn: Option<nat>, k: nat, b: Bucket, e: nat)
    requires k < |s.buckets| && b.clients <= 0 && b.engine == At(e)
    requires Reachable(OwnerAt(s, t, k, b, Await(k, conn), 0, []))
    ensures Reachable(OwnerAt(s.(conns := Resume(s.conns, conn)), t, k, Bucket(Unused, "", Null, b.clients),
                              Done(Success), 0, [e]))
  {
    DestroyEngineAlone(s, t, conn, k, b, e);
    assert [e] + [] == [e];
    OwnerStepAlone(s, t, k, b, Clear(k, conn), 0, [e], true);
  }

  lemma DestroyEngineAlone(s: State, t: nat, conn: Option<nat>, k: nat, b: Bucket, e: nat)
    requires k < |s.buckets| && b.clients <= 0 && b.engine == At(e)
    requires Reachable(OwnerAt(s, t, k, b, Await(k, conn), 0, []))
    ensures Reachable(OwnerAt(s, t, k, b, Clear(k, conn), 0, [e]))
  {
    OwnerStepAlone(s, t, k, b, Await(k, conn), 0, [], true);
    OwnerStepAlone(s, t, k, b, Destroy(k, conn), 0, [], true);
    assert [] + [e] == [e];
  }

  /** Left alone, a delete of a bucket without clients empties the slot and destroys the engine, and nothing else. */
  lemma DeleteWholly(s: State, t: nat, conn: Option<nat>, name: string, k: nat)
    requires Reachable(s) && t !in s.threads && s.lock.None? && name != "" && MayAsk(s, conn)
    requires conn.Some? ==> s.conns[conn.value].index != k
    requires OnlyNamed(s, name, k) && s.buckets[k].state == Ready && s.buckets[k].engine.At?
    requires s.buckets[k].clients == 0
    ensures Reachable(Deleted(s, t, k, s.buckets[k].engine.id))
  {
    DeleteAlone(s, t, conn, name, k);
    var s1, b, e := WithParked(Condemned(s, k), conn), s.buckets[k].(state := Destroying), s.buckets[k].engine.id;
    assert s1.destroyed + [] == s1.destroyed && s1.buckets[k := b] == s1.buckets;
    assert Deleting(Condemned(s, k), t, conn, Await(k, conn), None) == OwnerAt(s1, t, k, b, Await(k, conn), 0, []);
    EndAlone(s1, t, conn, k, b, e);
    assert Resume(s1.conns, conn) == s.conns;
    assert s1.buckets[k := Bucket(Unused, "", Null, b.clients)] == s.buckets[k := Bucket(Unused, "", Null, b.clients)];
  }

  /** The delete of a connection's own bucket, of which it is the only client, leaves it at the no-bucket. */
  lemma DeleteOwn(s: State, t: nat, c: nat, name: string, k: nat)
    requires Reachable(s) && t !in s.threads && s.lock.None? && name != "" && 1 <= k
    requires c in s.conns && s.conns[c].work.Idle? && s.conns[c].index == k
    requires OnlyNamed(s, name, k) && s.buckets[k].state == Ready && s.buckets[k].engine.At?
    requires s.buckets[k].clients == 1
    ensures Reachable(WithConn(Deleted(SetBucket(s, k, s.buckets[k].(clients := 0)), t, k, s.buckets[k].engine.id),
                               c, Conn(0, Null, false, Idle)))
  {
    var e := s.buckets[k].engine.id;
    BeginDelete(s, t, Some(c), name);
    FindAlone(s, t, Some(c), name, 0, k);
    var s2 := Go(Deleting(Condemned(s, k), t, Some(c), Release(k, Some(c)), None), Step(t, true));
    var left := Condemned(s, k).(conns := s.conns[c := Conn(0, Null, false, Delegated)]);
    var b := s.buckets[k].(state := Destroying, clients := 0);
    assert left.destroyed + [] == left.destroyed;
    assert s2 == OwnerAt(left, t, k, b, Await(k, Some(c)), 0, []);
    EndAlone(left, t, Some(c), k, b, e);
    assert Resume(left.conns, Some(c)) == s.conns[c := Conn(0, Null, false, Idle)];
    assert left.buckets[k := Bucket(Unused, "", Null, 0)] == s.buckets[k := Bucket(Unused, "", Null, 0)];
  }

  lemma {:induction false} FindInVain(s: State, t: nat, conn: Option<nat>, name: string, next: nat)
    requires MayAsk(s, conn) && next <= |s.buckets| && Unnamed(s, name)
    requires Reachable(Deleting(s, t, conn, Find(name, conn, next), Some(t)))
    ensures Reachable(ThreadAt(s, t, Done(KeyEnoent), None))
    decreases |s.buckets| - next
  {
    var s2 := Go(Deleting(s, t, conn, Find(name, conn, next), Some(t)), Step(t, true));
    if next < |s.buckets| {
      assert s2 == Deleting(s, t, conn, Find(name, conn, next + 1), Some(t));
      FindInVain(s, t, conn, name, next + 1);
    } else {
      assert Resume(WithParked(s, conn).conns, conn) == s.conns;
      assert s2 == ThreadAt(s, t, Done(KeyEnoent), None);
    }
  }

  /** A delete of an unknown bucket is refused with KEY_ENOENT and changes nothing. */
  lemma DeleteUnknown(s: State, t: nat, conn: Option<nat>, name: string)
    requires Reachable(s) && t !in s.threads && s.lock.None? && name != "" && MayAsk(s, conn) && Unnamed(s, name)
    ensures Reachable(s.(threads := s.threads[t := Done(KeyEnoent)]))
  {
    BeginDelete(s, t, conn, name);
    FindInVain(s, t, conn, name, 0);
    assert ThreadAt(s, t, Done(KeyEnoent), None) == s.(threads := s.threads[t := Done(KeyEnoent)]);
  }

  lemma {:induction false} FindBusy(s: State, t: nat, conn: Option<nat>, name: string, next: nat, k: nat)
    requires MayAsk(s, conn) && next <= k && OnlyNamed(s, name, k) && s.buckets[k].state != Ready
    requires Reachable(Deleting(s, t, conn, Find(name, conn, next), Some(t)))
    ensures Reachable(ThreadAt(s, t, Done(KeyEexists), None))
    decreases k - next
  {
    var s2 := Go(Deleting(s, t, conn, Find(name, conn, next), Some(t)), Step(t, true));
    if next < k {
      assert s2 == Deleting(s, t, conn, Find(name, conn, next + 1), Some(t));
      FindBusy(s, t, conn, name, next + 1, k);
    } else {
      assert Resume(WithParked(s, conn).conns, conn) == s.conns;
      assert s2 == ThreadAt(s, t, Done(KeyEexists), None);
    }
  }

  /** A delete of a bucket that is being made or deleted is refused with KEY_EEXISTS and changes nothing. */
  lemma DeleteBusy(s: State, t: nat, conn: Option<nat>, name: string, k: nat)
    requires Reachable(s) && t !in s.threads && s.lock.None? && name != "" && MayAsk(s, conn)
    requires OnlyNamed(s, name, k) && s.buckets[k].state != Ready
    ensures Reachable(s.(threads := s.threads[t := Done(KeyEexists)]))
  {
    BeginDelete(s, t, conn, name);
    FindBusy(s, t, conn, name, 0, k);
    assert ThreadAt(s, t, Done(KeyEexists), None) == s.(threads := s.threads[t := Done(KeyEexists)]);
  }
}
