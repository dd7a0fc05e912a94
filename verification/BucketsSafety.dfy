/** Safety of the bucket lifecycle protocol over every run. */
module BucketsSafety {
  import opened Basics
  import opened Buckets

  // ----- the invariant -----

  ghost function ClientsOf(conns: map<nat, Conn>, i: nat): set<nat> {
    set c | c in conns && conns[c].index == i
  }

  ghost function CountedAtZero(conns: map<nat, Conn>): set<nat> {
    set c | c in conns && conns[c].index == 0 && conns[c].counted
  }

  ghost predicate SlotInv(b: Bucket) {
    && (b.name == "" <==> b.state == Unused)
    && b.state != Stopping
    && (b.state == Unused ==> b.engine == Null)
    && (b.state in {Initializing, Ready, Destroying} ==> b.engine.At?)
  }

  ghost predicate TableInv(s: State) {
    && 0 < |s.buckets|
    && s.buckets[0].state == Ready && s.buckets[0].name == "" && s.buckets[0].engine == At(0)
    && forall i :: 1 <= i < |s.buckets| ==> SlotInv(s.buckets[i])
  }

  ghost predicate NamesInv(s: State) {
    forall i, j :: 0 <= i < j < |s.buckets| && s.buckets[i].name == s.buckets[j].name ==> s.buckets[i].name == ""
  }

  ghost predicate SeenInv(s: State, p: Pc)
    requires Scanning(p)
  {
    match p
    case Scan(name, next, firstFree, found) =>
      && name != "" && next <= |s.buckets|
      && (firstFree.Some? ==> 1 <= firstFree.value < |s.buckets| && s.buckets[firstFree.value].state == Unused)
      && (!found ==> forall j :: 0 <= j < next ==> s.buckets[j].name != name)
    case Reserve(name, slot) =>
      && name != "" && 1 <= slot < |s.buckets| && s.buckets[slot].state == Unused
      && forall j :: 0 <= j < |s.buckets| ==> s.buckets[j].name != name
    case Find(name, _, next) =>
      name != "" && next <= |s.buckets| && forall j :: 0 <= j < next ==> s.buckets[j].name != name
  }

  /** Only the lock holder scans, and what it has seen so far still holds. */
  ghost predicate ScanInv(s: State) {
    forall t | t in s.threads && Scanning(s.threads[t]) :: s.lock == Some(t) && SeenInv(s, s.threads[t])
  }

  ghost predicate Live(s: State, e: Engine) {
    e.At? && e.id !in s.destroyed
  }

  /** The slot state that goes with each owning program counter. */
  ghost predicate OwnedState(s: State, p: Pc)
    requires Owning(p)
  {
    && 1 <= p.slot < |s.buckets|
    && var b := s.buckets[p.slot];
       match p
       case NewEngine(_) => b.state == Creating
       case NoEngine(_) => b.state == Creating
       case SetInitializing(_) => b.state == Creating && Live(s, b.engine)
       case Initialize(_) => b.state == Initializing && Live(s, b.engine)
       case SetReady(_) => b.state == Initializing && Live(s, b.engine)
       case SetDestroying(_) => b.state == Initializing && Live(s, b.engine)
       case CreateDestroy(_) => b.state == Destroying && Live(s, b.engine)
       case CreateClear(_) => b.state == Destroying
       case Release(_, _) => b.state == Destroying && Live(s, b.engine)
       case Await(_, _) => b.state == Destroying && Live(s, b.engine)
       case Destroy(_, _) => b.state == Destroying && Live(s, b.engine)
       case Clear(_, _) => b.state == Destroying
  }

  ghost predicate OwnedInv(s: State) {
    forall t | t in s.threads && Owning(s.threads[t]) :: OwnedState(s, s.threads[t])
  }

  ghost predicate ExclusiveInv(s: State) {
    forall t, u | t in s.threads && u in s.threads && t != u && Owning(s.threads[t]) && Owning(s.threads[u]) ::
      s.threads[t].slot != s.threads[u].slot
  }

  ghost predicate EngineInv(s: State) {
    && (forall i :: 0 <= i < |s.buckets| && s.buckets[i].engine.At? ==> s.buckets[i].engine.id < s.nextEngine)
    && (forall i, j :: 0 <= i < j < |s.buckets| && s.buckets[i].engine == s.buckets[j].engine ==>
         s.buckets[i].engine == Null)
    && (forall i :: 0 <= i < |s.buckets| && s.buckets[i].state == Ready ==> Live(s, s.buckets[i].engine))
    && (forall i :: 0 <= i < |s.buckets| && s.buckets[i].state != Destroying && s.buckets[i].engine.At? ==>
          s.buckets[i].engine.id !in s.deletes)
  }

  ghost predicate HistoryInv(s: State) {
    && (forall e | e in s.destroyed :: e < s.nextEngine)
    && (forall e | e in s.deletes :: e < s.nextEngine)
    && NoDuplicates(s.destroyed) && NoDuplicates(s.deletes)
  }

  /** Everything about slots and threads that does not mention connections. */
  ghost predicate SlotsInv(s: State) {
    && TableInv(s) && NamesInv(s) && ScanInv(s) && OwnedInv(s) && ExclusiveInv(s) && EngineInv(s) && HistoryInv(s)
  }

  ghost predicate ConnInv(s: State)
    requires WellFormed(s)
  {
    forall c | c in s.conns && s.conns[c].index != 0 ::
      && s.conns[c].engine == s.buckets[s.conns[c].index].engine
      && s.buckets[s.conns[c].index].state in {Ready, Destroying}
      && Live(s, s.conns[c].engine)
  }

  /** A connection that is looking for a bucket is counted nowhere. */
  ghost predicate SeekInv(s: State) {
    forall c | c in s.conns && s.conns[c].work.Seeking? :: s.conns[c].index == 0 && !s.conns[c].counted
  }

  ghost predicate CountInv(s: State)
    requires WellFormed(s)
  {
    && (forall i :: 1 <= i < |s.buckets| ==> s.buckets[i].clients == |ClientsOf(s.conns, i)|)
    && s.buckets[0].clients + s.uncountedExits == |CountedAtZero(s.conns)|
  }

  /** The thread is past the point where it has seen the last client leave. */
  predicate Drained(p: Pc) {
    p.CreateDestroy? || p.CreateClear? || p.Destroy? || p.Clear?
  }

  ghost predicate DrainedInv(s: State)
    requires WellFormed(s)
  {
    forall t | t in s.threads && Drained(s.threads[t]) ::
      1 <= s.threads[t].slot && s.buckets[s.threads[t].slot].clients == 0
  }

  /** Everything that mentions connections. */
  ghost predicate ConnsInv(s: State) {
    WellFormed(s) && ConnInv(s) && SeekInv(s) && CountInv(s) && DrainedInv(s)
  }

  ghost predicate Inv(s: State) {
    SlotsInv(s) && ConnsInv(s)
  }

  // ----- counting connections -----

  lemma CardAfterUpdate(before: set<nat>, after: set<nat>, c: nat)
    requires forall x :: x != c ==> (x in before <==> x in after)
    ensures |after| == |before| - (if c in before then 1 else 0) + (if c in after then 1 else 0)
  {
    assert before - {c} == after - {c};
    assert |before - {c}| == |before| - if c in before then 1 else 0;
    assert |after - {c}| == |after| - if c in after then 1 else 0;
  }

  /** Rewriting one connection moves exactly that connection between the client sets. */
  lemma CountsAfterUpdate(conns: map<nat, Conn>, c: nat, k: Conn)
    ensures forall i {:trigger ClientsOf(conns[c := k], i)} ::
              |ClientsOf(conns[c := k], i)| == |ClientsOf(conns, i)|
                - (if c in conns && conns[c].index == i then 1 else 0) + (if k.index == i then 1 else 0)
    ensures |CountedAtZero(conns[c := k])| == |CountedAtZero(conns)|
              - (if c in conns && conns[c].index == 0 && conns[c].counted then 1 else 0)
              + (if k.index == 0 && k.counted then 1 else 0)
  {
    forall i: nat {
      CardAfterUpdate(ClientsOf(conns, i), ClientsOf(conns[c := k], i), c);
    }
    CardAfterUpdate(CountedAtZero(conns), CountedAtZero(conns[c := k]), c);
  }

  // ----- connection actions -----

  /** Slots that differ at most in their client counts. */
  ghost predicate SameSlots(s: State, s': State) {
    && |s.buckets| == |s'.buckets|
    && (forall i :: 0 <= i < |s.buckets| ==> s'.buckets[i] == s.buckets[i].(clients := s'.buckets[i].clients))
    && s.threads == s'.threads && s.lock == s'.lock && s.nextEngine == s'.nextEngine
    && s.destroyed == s'.destroyed && s.deletes == s'.deletes
  }

  lemma SameSlotsKeepInv(s: State, s': State)
    requires SlotsInv(s) && SameSlots(s, s')
    ensures SlotsInv(s')
  {
    assert OwnedInv(s') by {
      forall t | t in s'.threads && Owning(s'.threads[t]) ensures OwnedState(s', s'.threads[t]) {
        assert OwnedState(s, s.threads[t]);
      }
    }
    assert ScanInv(s') by {
      forall t | t in s'.threads && Scanning(s'.threads[t]) ensures SeenInv(s', s'.threads[t]) {
        assert SeenInv(s, s.threads[t]);
      }
    }
  }

  lemma DisassociateKeepsConns(s: State, c: nat)
    requires ConnsInv(s) && c in s.conns
    ensures ConnsInv(Disassociate(s, c))
  {
    CountsAfterUpdate(s.conns, c, s.conns[c].(index := 0, engine := Null, counted := false));
    assert c in ClientsOf(s.conns, s.conns[c].index);
  }

  lemma DisassociateKeepsInv(s: State, c: nat)
    requires Inv(s) && c in s.conns
    ensures Inv(Disassociate(s, c))
  {
    DisassociateKeepsConns(s, c);
    SameSlotsKeepInv(s, Disassociate(s, c));
  }

  /** Only `work` changes: indices, and so all counts, stay. */
  lemma WorkOnlyKeepsConns(s: State, s': State, c: nat, w: Buckets.Work)
    requires ConnsInv(s) && c in s.conns && (w.Seeking? ==> s.conns[c].index == 0 && !s.conns[c].counted)
    requires s' == s.(conns := s.conns[c := s.conns[c].(work := w)])
    ensures ConnsInv(s')
  {
    CountsAfterUpdate(s.conns, c, s'.conns[c]);
  }

  /** A connection counted nowhere joins slot i, which is Ready. */
  lemma JoinKeepsConns(s: State, s': State, c: nat, i: nat, w: Buckets.Work)
    requires ConnsInv(s) && i < |s.buckets| && s.buckets[i].state == Ready && Live(s, s.buckets[i].engine)
    requires forall t | t in s.threads && Drained(s.threads[t]) :: s.threads[t].slot != i
    requires (c in s.conns ==> s.conns[c].index == 0 && !s.conns[c].counted) && !w.Seeking?
    requires s' == s.(buckets := s.buckets[i := s.buckets[i].(clients := s.buckets[i].clients + 1)],
                      conns := s.conns[c := Conn(i, s.buckets[i].engine, true, w)])
    ensures ConnsInv(s')
  {
    CountsAfterUpdate(s.conns, c, s'.conns[c]);
  }

  lemma JoinKeepsInv(s: State, s': State, c: nat, i: nat, w: Buckets.Work)
    requires Inv(s) && i < |s.buckets| && s.buckets[i].state == Ready
    requires (c in s.conns ==> s.conns[c].index == 0 && !s.conns[c].counted) && !w.Seeking?
    requires s' == s.(buckets := s.buckets[i := s.buckets[i].(clients := s.buckets[i].clients + 1)],
                      conns := s.conns[c := Conn(i, s.buckets[i].engine, true, w)])
    ensures Inv(s')
  {
    forall t | t in s.threads && Drained(s.threads[t]) ensures s.threads[t].slot != i {
      assert OwnedState(s, s.threads[t]);
    }
    JoinKeepsConns(s, s', c, i, w);
    SameSlotsKeepInv(s, s');
  }

  lemma WorkOnlyKeepsInv(s: State, s': State, c: nat, w: Buckets.Work)
    requires Inv(s) && c in s.conns && (w.Seeking? ==> s.conns[c].index == 0 && !s.conns[c].counted)
    requires s' == s.(conns := s.conns[c := s.conns[c].(work := w)])
    ensures Inv(s')
  {
    WorkOnlyKeepsConns(s, s', c, w);
    SameSlotsKeepInv(s, s');
  }

  lemma CloseKeepsInv(s: State, c: nat)
    requires Inv(s) && c in s.conns && s.conns[c].work.Idle?
    ensures Inv(Next(s, Close(c)))
  {
    DisassociateKeepsInv(s, c);
    var s1 := Disassociate(s, c);
    var s' := Next(s, Close(c));
    forall i: nat | i != 0 ensures ClientsOf(s'.conns, i) == ClientsOf(s1.conns, i) {}
    assert CountedAtZero(s'.conns) == CountedAtZero(s1.conns);
    SameSlotsKeepInv(s1, s');
  }

  lemma WorkKeepsInv(s: State, c: nat)
    requires Inv(s) && c in s.conns && (s.conns[c].work.Leaving? || s.conns[c].work.Seeking?)
    ensures Inv(WorkStep(s, c))
  {
    var s' := WorkStep(s, c);
    match s.conns[c].work
    case Leaving(name) =>
      DisassociateKeepsInv(s, c);
      WorkOnlyKeepsInv(Disassociate(s, c), s', c, Seeking(name, 1));
    case Seeking(name, next) =>
      if next >= |s.buckets| {
        JoinKeepsInv(s, s', c, 0, Idle);
      } else if s.buckets[next].state == Ready && s.buckets[next].name == name {
        JoinKeepsInv(s, s', c, next, Idle);
      } else {
        WorkOnlyKeepsInv(s, s', c, Seeking(name, next + 1));
      }
  }

  lemma ConnActionKeepsInv(s: State, a: Action)
    requires Inv(s) && Enabled(s, a) && (a.Connect? || a.Select? || a.Work? || a.Close?)
    ensures Inv(Next(s, a))
  {
    var s' := Next(s, a);
    match a
    case Connect(c) => JoinKeepsInv(s, s', c, 0, Leaving("default"));
    case Select(c, name) => WorkOnlyKeepsInv(s, s', c, Leaving(name));
    case Close(c) => CloseKeepsInv(s, c);
    case Work(c) => WorkKeepsInv(s, c);
  }

  // ----- thread actions -----

  /** Threads other than `t`, and slots other than `i`, are as before. */
  ghost predicate OnlyAt(s: State, s': State, t: nat, i: nat) {
    && |s.buckets| == |s'.buckets|
    && (forall j :: 0 <= j < |s.buckets| && j != i ==> s'.buckets[j] == s.buckets[j])
    && t in s'.threads
    && (forall u :: u != t ==>
          (u in s'.threads <==> u in s.threads) && (u in s.threads ==> s'.threads[u] == s.threads[u]))
  }

  /** A step of the thread `t` that owns slot `i`: what it may do to the slot and the history. */
  ghost predicate OwnerMove(s: State, s': State, t: nat, i: nat) {
    && OnlyAt(s, s', t, i) && 1 <= i < |s.buckets| && s'.lock == s.lock
    && t in s.threads && Owning(s.threads[t]) && s.threads[t].slot == i
    && var b, b', p' := s.buckets[i], s'.buckets[i], s'.threads[t];
       && (p'.Done? || (Owning(p') && p'.slot == i && OwnedState(s', p')))
       && SlotInv(b') && (b'.name == b.name || b'.name == "")
       && (|| (b'.engine in {b.engine, Null} && s'.nextEngine == s.nextEngine)
           || (b'.engine == At(s.nextEngine) && s'.nextEngine == s.nextEngine + 1))
       && s'.deletes == s.deletes
       && (s'.destroyed == s.destroyed
           || (Live(s, b.engine) && s'.destroyed == s.destroyed + [b.engine.id] && b'.state == Destroying))
       && (b'.state == Ready ==> Live(s', b'.engine))
       && (b'.state != Destroying && b'.engine == b.engine ==> b.state != Destroying)
  }

  lemma OwnerMoveKeepsEngines(s: State, s': State, t: nat, i: nat)
    requires SlotsInv(s) && OwnerMove(s, s', t, i)
    ensures EngineInv(s') && HistoryInv(s')
  {
  }

  lemma OwnerMoveKeepsThreads(s: State, s': State, t: nat, i: nat)
    requires SlotsInv(s) && OwnerMove(s, s', t, i)
    ensures ScanInv(s') && OwnedInv(s') && ExclusiveInv(s')
  {
    assert OwnedState(s, s.threads[t]);
    forall u | u in s'.threads && Scanning(s'.threads[u]) ensures s'.lock == Some(u) && SeenInv(s', s'.threads[u]) {
      assert SeenInv(s, s.threads[u]);
    }
    forall u | u in s'.threads && Owning(s'.threads[u]) ensures OwnedState(s', s'.threads[u]) {
      if u != t {
        assert OwnedState(s, s.threads[u]);
      }
    }
  }

  lemma OwnerMoveKeepsSlots(s: State, s': State, t: nat, i: nat)
    requires SlotsInv(s) && OwnerMove(s, s', t, i)
    ensures SlotsInv(s')
  {
    OwnerMoveKeepsEngines(s, s', t, i);
    OwnerMoveKeepsThreads(s, s', t, i);
  }

  /** Unless the slot is serving or closing down, nobody is connected to it. */
  lemma EmptyOutsideService(s: State, i: nat)
    requires ConnsInv(s) && 1 <= i < |s.buckets|
    ensures s.buckets[i].state !in {Ready, Destroying} || s.buckets[i].clients == 0 ==> ClientsOf(s.conns, i) == {}
    ensures s.buckets[i].state !in {Ready, Destroying} ==> s.buckets[i].clients == 0
  {
  }

  /** Every connection stays where it is; at most its work changes, and not to a search. */
  ghost predicate SamePlaces(conns: map<nat, Conn>, conns': map<nat, Conn>) {
    && conns.Keys == conns'.Keys
    && forall c | c in conns ::
         && conns'[c] == conns[c].(work := conns'[c].work)
         && (conns'[c].work == conns[c].work || !conns'[c].work.Seeking?)
  }

  /** A thread's step as the connections see it: slot `i` keeps serving, or nobody is there. */
  ghost predicate HarmlessAt(s: State, s': State, t: nat, i: nat) {
    && OnlyAt(s, s', t, i) && 1 <= i < |s.buckets|
    && SamePlaces(s.conns, s'.conns) && s'.uncountedExits == s.uncountedExits
    && s'.buckets[i].clients == s.buckets[i].clients
    && (|| s'.buckets[i] == s.buckets[i]
        || s.buckets[i].clients == 0
        || (s'.buckets[i].engine == s.buckets[i].engine && s'.buckets[i].state in {Ready, Destroying}))
    && (Owning(s'.threads[t]) || s'.threads[t].Reserve? ==> s'.threads[t].slot < |s.buckets|)
    && (Drained(s'.threads[t]) ==> s'.threads[t].slot == i && s.buckets[i].clients == 0)
    && (|| s'.destroyed == s.destroyed
        || (s.buckets[i].clients == 0 && Live(s, s.buckets[i].engine)
            && s'.destroyed == s.destroyed + [s.buckets[i].engine.id]))
  }

  lemma ThreadMoveKeepsCounts(s: State, s': State, t: nat, i: nat)
    requires ConnsInv(s) && HarmlessAt(s, s', t, i)
    ensures WellFormed(s') && SeekInv(s') && CountInv(s') && DrainedInv(s')
  {
    forall j: nat ensures ClientsOf(s'.conns, j) == ClientsOf(s.conns, j) {}
    assert CountedAtZero(s'.conns) == CountedAtZero(s.conns);
  }

  lemma ThreadMoveKeepsPlaces(s: State, s': State, t: nat, i: nat)
    requires WellFormed(s) && WellFormed(s') && ConnInv(s) && CountInv(s) && EngineInv(s) && HarmlessAt(s, s', t, i)
    ensures ConnInv(s')
  {
    forall c | c in s.conns && s.conns[c].index == i ensures s.buckets[i].clients != 0 {
      assert c in ClientsOf(s.conns, i);
    }
  }

  lemma ThreadMoveKeepsConns(s: State, s': State, t: nat, i: nat)
    requires ConnsInv(s) && EngineInv(s) && HarmlessAt(s, s', t, i)
    ensures ConnsInv(s')
  {
    ThreadMoveKeepsCounts(s, s', t, i);
    ThreadMoveKeepsPlaces(s, s', t, i);
  }

  lemma OwnerStepMoves(s: State, t: nat, p: Pc, ok: bool)
    requires TableInv(s) && HistoryInv(s) && t in s.threads && s.threads[t] == p && Owning(p) && OwnedState(s, p)
    ensures OwnerMove(s, OwnerStep(s, t, p, ok), t, p.slot)
  {
    var b := s.buckets[p.slot];
    assert SlotInv(b);
    var e := OwnerEffect(p, b, ok, s.nextEngine);
    assert SlotInv(e.bucket);
  }

  lemma OwnerStepHarmless(s: State, t: nat, p: Pc, ok: bool)
    requires t in s.threads && s.threads[t] == p && Owning(p) && OwnedState(s, p)
    requires s.buckets[p.slot].clients == 0 || p.Release?
    ensures HarmlessAt(s, OwnerStep(s, t, p, ok), t, p.slot)
  {
  }

  lemma ReserveKeepsThreads(s: State, t: nat, ok: bool)
    requires WellFormed(s) && TableInv(s) && ScanInv(s) && OwnedInv(s) && ExclusiveInv(s)
    requires t in s.threads && s.threads[t].Reserve?
    ensures var s' := ReserveStep(s, t, s.threads[t], ok); ScanInv(s') && OwnedInv(s') && ExclusiveInv(s')
  {
    var s', i := ReserveStep(s, t, s.threads[t], ok), s.threads[t].slot;
    assert SeenInv(s, s.threads[t]);
    forall u | u in s'.threads && u != t && Owning(s'.threads[u])
      ensures OwnedState(s', s'.threads[u]) && s'.threads[u].slot != i {
      assert OwnedState(s, s.threads[u]);
    }
  }

  lemma ReserveKeepsTable(s: State, t: nat, ok: bool)
    requires WellFormed(s) && TableInv(s) && NamesInv(s) && ScanInv(s) && EngineInv(s) && HistoryInv(s)
    requires t in s.threads && s.threads[t].Reserve?
    ensures var s' := ReserveStep(s, t, s.threads[t], ok);
            TableInv(s') && NamesInv(s') && EngineInv(s') && HistoryInv(s')
  {
    assert SeenInv(s, s.threads[t]);
  }

  /** A thread enters, advances in or leaves a scan, or starts a connection's wait: no slot changes. */
  lemma ScanMoveKeepsSlots(s: State, s': State, t: nat)
    requires SlotsInv(s) && s'.buckets == s.buckets && s'.nextEngine == s.nextEngine
    requires s'.destroyed == s.destroyed && s'.deletes == s.deletes
    requires t in s'.threads && s'.threads == s.threads[t := s'.threads[t]]
    requires s'.threads[t].Done? || (Scanning(s'.threads[t]) && s'.lock == Some(t) && SeenInv(s', s'.threads[t]))
    requires s.lock == Some(t) || s.lock == None
    ensures SlotsInv(s')
  {
    forall u | u in s'.threads && Scanning(s'.threads[u]) ensures u == t {
    }
    forall u | u in s'.threads && Owning(s'.threads[u]) ensures OwnedState(s', s'.threads[u]) {
      assert OwnedState(s, s.threads[u]);
    }
  }

  lemma ScanMoveKeepsConns(s: State, s': State, t: nat)
    requires ConnsInv(s) && s'.buckets == s.buckets && s'.uncountedExits == s.uncountedExits
    requires s'.destroyed == s.destroyed
    requires t in s'.threads && s'.threads == s.threads[t := s'.threads[t]] && !Owning(s'.threads[t])
    requires s'.threads[t].Reserve? ==> s'.threads[t].slot < |s.buckets|
    requires SamePlaces(s.conns, s'.conns)
    ensures ConnsInv(s')
  {
    forall j: nat ensures ClientsOf(s'.conns, j) == ClientsOf(s.conns, j) {}
    assert CountedAtZero(s'.conns) == CountedAtZero(s.conns);
  }

  /** A delete finds its bucket Ready and takes the slot over. */
  ghost predicate Accepts(s: State, s': State, t: nat, i: nat, conn: Option<nat>) {
    && t in s.threads && s.threads[t].Find? && s.lock == Some(t)
    && 1 <= i < |s.buckets| && s.buckets[i].state == Ready && s.buckets[i].engine.At?
    && s'.buckets == s.buckets[i := s.buckets[i].(state := Destroying)]
    && s'.threads == s.threads[t := Release(i, conn)] && s'.lock == None
    && s'.nextEngine == s.nextEngine && s'.destroyed == s.destroyed
    && s'.deletes == s.deletes + [s.buckets[i].engine.id]
  }

  lemma AcceptKeepsThreads(s: State, s': State, t: nat, i: nat, conn: Option<nat>)
    requires TableInv(s) && ScanInv(s) && OwnedInv(s) && ExclusiveInv(s) && EngineInv(s) && Accepts(s, s', t, i, conn)
    ensures ScanInv(s') && OwnedInv(s') && ExclusiveInv(s')
  {
    forall u | u in s'.threads && u != t && Owning(s'.threads[u])
      ensures OwnedState(s', s'.threads[u]) && s'.threads[u].slot != i {
      assert OwnedState(s, s.threads[u]);
    }
  }

  lemma AcceptKeepsTable(s: State, s': State, t: nat, i: nat, conn: Option<nat>)
    requires TableInv(s) && NamesInv(s) && EngineInv(s) && HistoryInv(s) && Accepts(s, s', t, i, conn)
    ensures TableInv(s') && NamesInv(s') && EngineInv(s') && HistoryInv(s')
  {
  }

  lemma FindStepKeepsSlots(s: State, t: nat, p: Pc)
    requires SlotsInv(s) && t in s.threads && s.threads[t] == p && p.Find?
    ensures SlotsInv(FindStep(s, t, p))
  {
    assert SeenInv(s, p);
    if p.next < |s.buckets| && s.buckets[p.next].name == p.name && s.buckets[p.next].state == Ready {
      AcceptKeepsThreads(s, FindStep(s, t, p), t, p.next, p.conn);
      AcceptKeepsTable(s, FindStep(s, t, p), t, p.next, p.conn);
    } else {
      ScanMoveKeepsSlots(s, FindStep(s, t, p), t);
    }
  }

  lemma FindHarmless(s: State, t: nat, p: Pc)
    requires t in s.threads && p.Find? && 1 <= p.next < |s.buckets|
    requires s.buckets[p.next].name == p.name && s.buckets[p.next].state == Ready
    ensures HarmlessAt(s, FindStep(s, t, p), t, p.next)
  {
  }

  lemma FindStepKeepsConns(s: State, t: nat, p: Pc)
    requires ConnsInv(s) && EngineInv(s) && t in s.threads && s.threads[t] == p && p.Find?
    requires s.buckets[0].name != p.name
    ensures ConnsInv(FindStep(s, t, p))
  {
    if p.next < |s.buckets| && s.buckets[p.next].name == p.name && s.buckets[p.next].state == Ready {
      FindHarmless(s, t, p);
      ThreadMoveKeepsConns(s, FindStep(s, t, p), t, p.next);
    } else {
      ScanMoveKeepsConns(s, FindStep(s, t, p), t);
    }
  }

  lemma ScanStepKeepsSlots(s: State, t: nat, p: Pc)
    requires SlotsInv(s) && t in s.threads && s.threads[t] == p && p.Scan?
    ensures SlotsInv(ScanStep(s, t, p))
  {
    assert SeenInv(s, p);
    ScanMoveKeepsSlots(s, ScanStep(s, t, p), t);
  }

  lemma ScanStepKeepsConns(s: State, t: nat, p: Pc)
    requires ConnsInv(s) && t in s.threads && s.threads[t] == p && p.Scan? && SeenInv(s, p)
    ensures ConnsInv(ScanStep(s, t, p))
  {
    ScanMoveKeepsConns(s, ScanStep(s, t, p), t);
  }

  lemma BeginKeepsInv(s: State, a: Action)
    requires Inv(s) && Enabled(s, a) && (a.CreateBegin? || a.DeleteBegin?)
    ensures Inv(Next(s, a))
  {
    var s' := Next(s, a);
    ScanMoveKeepsSlots(s, s', a.t);
    ScanMoveKeepsConns(s, s', a.t);
  }

  /** A create that is refused leaves nothing but its answer. */
  lemma RefuseKeepsInv(s: State, t: nat, s': State)
    requires Inv(s) && t !in s.threads && s' == s.(threads := s.threads[t := Done(Einval)])
    ensures Inv(s')
  {
    forall u | u in s'.threads && Owning(s'.threads[u]) ensures OwnedState(s', s'.threads[u]) {
      assert OwnedState(s, s.threads[u]);
    }
    forall u | u in s'.threads && Scanning(s'.threads[u]) ensures s'.lock == Some(u) && SeenInv(s', s'.threads[u]) {
      assert SeenInv(s, s.threads[u]);
    }
  }

  lemma ReserveHarmless(s: State, t: nat, p: Pc, ok: bool)
    requires t in s.threads && p.Reserve? && 1 <= p.slot < |s.buckets| && s.buckets[p.slot].clients == 0
    ensures HarmlessAt(s, ReserveStep(s, t, p, ok), t, p.slot)
  {
  }

  lemma ReserveKeepsInv(s: State, t: nat, p: Pc, ok: bool)
    requires Inv(s) && t in s.threads && s.threads[t] == p && p.Reserve?
    ensures Inv(ReserveStep(s, t, p, ok))
  {
    assert SeenInv(s, p);
    ReserveKeepsThreads(s, t, ok);
    ReserveKeepsTable(s, t, ok);
    EmptyOutsideService(s, p.slot);
    ReserveHarmless(s, t, p, ok);
    ThreadMoveKeepsConns(s, ReserveStep(s, t, p, ok), t, p.slot);
  }

  lemma OwnerStepKeepsInv(s: State, t: nat, p: Pc, ok: bool)
    requires Inv(s) && t in s.threads && s.threads[t] == p && Owning(p)
    requires p.Await? ==> s.buckets[p.slot].clients <= 0
    ensures Inv(OwnerStep(s, t, p, ok))
  {
    assert OwnedState(s, p);
    EmptyOutsideService(s, p.slot);
    OwnerStepMoves(s, t, p, ok);
    OwnerMoveKeepsSlots(s, OwnerStep(s, t, p, ok), t, p.slot);
    OwnerStepHarmless(s, t, p, ok);
    ThreadMoveKeepsConns(s, OwnerStep(s, t, p, ok), t, p.slot);
  }

  lemma LeaveOwnKeepsInv(s: State, p: Pc)
    requires Inv(s)
    ensures Inv(LeaveOwn(s, p)) && LeaveOwn(s, p).threads == s.threads
    ensures !p.Release? ==> LeaveOwn(s, p) == s
  {
    if LeaveOwn(s, p) != s {
      DisassociateKeepsInv(s, p.conn.value);
    }
  }

  lemma StepKeepsInv(s: State, t: nat, ok: bool)
    requires Inv(s) && Enabled(s, Step(t, ok))
    ensures Inv(ThreadStep(s, t, ok))
  {
    var p := s.threads[t];
    if p.Scan? {
      assert SeenInv(s, p);
      ScanStepKeepsSlots(s, t, p);
      ScanStepKeepsConns(s, t, p);
    } else if p.Find? {
      assert SeenInv(s, p);
      FindStepKeepsSlots(s, t, p);
      FindStepKeepsConns(s, t, p);
    } else if p.Reserve? {
      ReserveKeepsInv(s, t, p, ok);
    } else {
      LeaveOwnKeepsInv(s, p);
      OwnerStepKeepsInv(LeaveOwn(s, p), t, p, ok);
    }
  }

  lemma NextKeepsInv(s: State, a: Action)
    requires Inv(s) && Enabled(s, a)
    ensures Inv(Next(s, a))
  {
    match a
    case CreateRefuse(t, _) => RefuseKeepsInv(s, t, Next(s, a));
    case CreateBegin(_, _) => BeginKeepsInv(s, a);
    case DeleteBegin(_, _, _) => BeginKeepsInv(s, a);
    case Step(t, ok) => StepKeepsInv(s, t, ok);
    case _ => ConnActionKeepsInv(s, a);
  }

  lemma InitHasInv(s: State)
    requires Init(s)
    ensures Inv(s)
  {
    assert CountedAtZero(s.conns) == {};
    forall i: nat ensures ClientsOf(s.conns, i) == {} {}
  }

  lemma MoveKeepsInv(s: State, s': State)
    requires Inv(s) && Moves(s, s')
    ensures Inv(s')
  {
    var a :| Enabled(s, a) && s' == Next(s, a);
    NextKeepsInv(s, a);
  }

  /** The invariant holds in every state of every run. */
  lemma {:induction false} RunHasInv(ss: seq<State>, i: nat)
    requires Run(ss) && i < |ss|
    ensures Inv(ss[i])
  {
    if i == 0 {
      InitHasInv(ss[0]);
    } else {
      RunHasInv(ss, i - 1);
      assert MovesAt(ss, i - 1);
      MoveKeepsInv(ss[i - 1], ss[i]);
    }
  }

  lemma RunStep(ss: seq<State>, i: nat) returns (a: Action)
    requires Run(ss) && i + 1 < |ss|
    ensures WellFormed(ss[i]) && Enabled(ss[i], a) && ss[i + 1] == Next(ss[i], a)
  {
    assert MovesAt(ss, i);
    a :| Enabled(ss[i], a) && ss[i + 1] == Next(ss[i], a);
  }

  // ----- the theorems -----

  /** A connected client always holds the engine of its slot, and that engine is alive. */
  lemma ConnectedEngineAlive(ss: seq<State>, i: nat, c: nat)
    requires Run(ss) && i < |ss| && c in ss[i].conns && ss[i].conns[c].index != 0
    ensures var k := ss[i].conns[c];
            && k.index < |ss[i].buckets| && k.engine == ss[i].buckets[k.index].engine
            && k.engine.At? && k.engine.id !in ss[i].destroyed
  {
    RunHasInv(ss, i);
  }

  /** The reference count, name and uniqueness claims for every slot but the first. */
  lemma SlotTableExact(ss: seq<State>, i: nat, j: nat)
    requires Run(ss) && i < |ss| && 1 <= j < |ss[i].buckets|
    ensures ss[i].buckets[j].clients == |ClientsOf(ss[i].conns, j)|
    ensures ss[i].buckets[j].name != "" <==> ss[i].buckets[j].state != Unused
    ensures forall k :: 0 <= k < |ss[i].buckets| && k != j && ss[i].buckets[j].name != "" ==>
              ss[i].buckets[k].name != ss[i].buckets[j].name
  {
    RunHasInv(ss, i);
    assert SlotInv(ss[i].buckets[j]);
  }

  /** The documented lifecycle of a slot. */
  predicate LifecycleEdge(a: BucketState, b: BucketState) {
    || a == b
    || (a == Unused && b == Creating)
    || (a == Creating && b in {Unused, Initializing})
    || (a == Initializing && b in {Ready, Destroying})
    || (a == Ready && b == Destroying)
    || (a == Destroying && b == Unused)
  }

  lemma NextFollowsLifecycle(s: State, a: Action, j: nat)
    requires WellFormed(s) && TableInv(s) && ScanInv(s) && OwnedInv(s) && Enabled(s, a) && j < |s.buckets|
    ensures var s' := Next(s, a); |s'.buckets| == |s.buckets| && LifecycleEdge(s.buckets[j].state, s'.buckets[j].state)
    ensures j == 0 ==> Next(s, a).buckets[0].state == Ready
  {
    if a.Step? {
      var p := s.threads[a.t];
      if Owning(p) {
        assert OwnedState(s, p);
        var s1 := LeaveOwn(s, p);
        assert s1.buckets[p.slot].state == s.buckets[p.slot].state;
      } else {
        assert SeenInv(s, p);
      }
    }
  }

  /** Slots move only along the lifecycle; the no-bucket stays Ready. */
  lemma SlotsFollowLifecycle(ss: seq<State>, i: nat, j: nat)
    requires Run(ss) && i + 1 < |ss| && j < |ss[i].buckets|
    ensures |ss[i + 1].buckets| == |ss[i].buckets|
    ensures LifecycleEdge(ss[i].buckets[j].state, ss[i + 1].buckets[j].state)
    ensures j == 0 ==> ss[i + 1].buckets[0].state == Ready
  {
    RunHasInv(ss, i);
    var a := RunStep(ss, i);
    NextFollowsLifecycle(ss[i], a, j);
  }

  /** No engine is destroyed twice, and of all deletes of one engine at most one is accepted. */
  lemma {:induction false} EnginesDestroyedOnce(ss: seq<State>, i: nat, j: nat)
    requires Run(ss) && i <= j < |ss|
    ensures NoDuplicates(ss[j].destroyed) && NoDuplicates(ss[j].deletes)
    ensures ss[i].destroyed <= ss[j].destroyed && ss[i].deletes <= ss[j].deletes
  {
    if i < j {
      EnginesDestroyedOnce(ss, i, j - 1);
      HistoryGrows(ss, j - 1);
    }
    HistoryIsDuplicateFree(ss, j);
  }

  lemma HistoryIsDuplicateFree(ss: seq<State>, i: nat)
    requires Run(ss) && i < |ss|
    ensures NoDuplicates(ss[i].destroyed) && NoDuplicates(ss[i].deletes)
  {
    RunHasInv(ss, i);
  }

  lemma HistoryGrows(ss: seq<State>, i: nat)
    requires Run(ss) && i + 1 < |ss|
    ensures ss[i].destroyed <= ss[i + 1].destroyed && ss[i].deletes <= ss[i + 1].deletes
  {
    var a := RunStep(ss, i);
  }

  /** Thread `t` has seen the last client leave slot `j` and still owns the slot. */
  ghost predicate DrainedBy(s: State, t: nat, j: nat) {
    && t in s.threads && Drained(s.threads[t]) && s.threads[t].slot == j
    && j < |s.buckets| && s.buckets[j].state == Destroying && s.buckets[j].clients == 0
  }

  /** What the invariant says about one thread that has seen the last client leave. */
  ghost predicate DrainedFact(s: State, t: nat) {
    t in s.threads && Drained(s.threads[t]) ==>
      && s.threads[t].slot < |s.buckets|
      && s.buckets[s.threads[t].slot].state == Destroying && s.buckets[s.threads[t].slot].clients == 0
  }

  lemma DrainedStep(s: State, a: Action, s': State, t: nat, j: nat)
    requires WellFormed(s) && Enabled(s, a) && s' == Next(s, a) && DrainedBy(s, t, j) && DrainedFact(s', t)
    ensures DrainedBy(s', t, j) || (j < |s'.buckets| && s'.buckets[j].state == Unused)
  {
    if !(a.Step? && a.t == t) {
      OtherThreadsKept(s, a, t);
    }
  }

  lemma OtherThreadsKept(s: State, a: Action, t: nat)
    requires WellFormed(s) && Enabled(s, a) && t in s.threads && !(a.Step? && a.t == t)
    ensures t in Next(s, a).threads && Next(s, a).threads[t] == s.threads[t]
  {
    if a.Step? {
      StepKeepsOtherThreads(s, a.t, a.ok, t);
    }
  }

  lemma StepKeepsOtherThreads(s: State, u: nat, ok: bool, t: nat)
    requires WellFormed(s) && Enabled(s, Step(u, ok)) && t in s.threads && t != u
    ensures t in ThreadStep(s, u, ok).threads && ThreadStep(s, u, ok).threads[t] == s.threads[t]
  {
  }

  lemma OwnersInRun(ss: seq<State>, i: nat)
    requires Run(ss) && i < |ss|
    ensures WellFormed(ss[i]) && OwnedInv(ss[i]) && DrainedInv(ss[i])
  {
    RunHasInv(ss, i);
  }

  lemma DrainedInRun(ss: seq<State>, i: nat, t: nat)
    requires Run(ss) && i < |ss|
    ensures DrainedFact(ss[i], t)
  {
    OwnersInRun(ss, i);
    if t in ss[i].threads && Drained(ss[i].threads[t]) {
      assert OwnedState(ss[i], ss[i].threads[t]);
    }
  }

  lemma DrainedNext(ss: seq<State>, i: nat, t: nat, j: nat)
    requires Run(ss) && i + 1 < |ss| && DrainedBy(ss[i], t, j)
    ensures DrainedBy(ss[i + 1], t, j) || (j < |ss[i + 1].buckets| && ss[i + 1].buckets[j].state == Unused)
  {
    DrainedInRun(ss, i + 1, t);
    var a := RunStep(ss, i);
    DrainedStep(ss[i], a, ss[i + 1], t, j);
  }

  /** After the wait, no client is counted in the slot until the slot is unused again. */
  lemma {:induction false} DrainedUntilUnused(ss: seq<State>, i: nat, k: nat, t: nat, j: nat)
    requires Run(ss) && i <= k < |ss| && DrainedBy(ss[i], t, j)
    ensures DrainedBy(ss[k], t, j) || exists m :: i < m <= k && j < |ss[m].buckets| && ss[m].buckets[j].state == Unused
  {
    if i < k {
      DrainedUntilUnused(ss, i, k - 1, t, j);
      if DrainedBy(ss[k - 1], t, j) {
        DrainedNext(ss, k - 1, t, j);
      }
    }
  }

  /** Slot `j` is marked as being created, but no thread is creating it. */
  ghost predicate Abandoned(s: State, j: nat) {
    && 1 <= j < |s.buckets| && s.buckets[j].state == Creating
    && forall t | t in s.threads && Owning(s.threads[t]) :: s.threads[t].slot != j
  }

  /** A create whose TopKeys allocation fails reports ENOMEM and abandons the slot it took. */
  lemma FailedTopKeysAbandons(s: State, t: nat)
    requires Inv(s) && t in s.threads && s.threads[t].Reserve?
    ensures var s' := Next(s, Step(t, false));
            s'.threads[t] == Done(Enomem) && Abandoned(s', s.threads[t].slot)
  {
    var i, s' := s.threads[t].slot, Next(s, Step(t, false));
    assert SeenInv(s, s.threads[t]);
    forall u | u in s'.threads && Owning(s'.threads[u]) ensures s'.threads[u].slot != i {
      assert OwnedState(s, s.threads[u]);
    }
  }

  lemma AbandonedStep(s: State, a: Action, s': State, j: nat)
    requires WellFormed(s) && ScanInv(s) && Enabled(s, a) && s' == Next(s, a) && Abandoned(s, j)
    ensures Abandoned(s', j) && s'.buckets[j].name == s.buckets[j].name
  {
    if a.Step? {
      if Scanning(s.threads[a.t]) {
        assert SeenInv(s, s.threads[a.t]);
      } else {
        OwnerLeavesOthers(s, a.t, a.ok, j);
      }
    }
  }

  /** A thread that owns another slot leaves this one alone. */
  lemma OwnerLeavesOthers(s: State, t: nat, ok: bool, j: nat)
    requires WellFormed(s) && Enabled(s, Step(t, ok)) && Owning(s.threads[t]) && j < |s.buckets|
             && s.threads[t].slot != j
    ensures var s' := Next(s, Step(t, ok));
            && |s'.buckets| == |s.buckets|
            && s'.buckets[j].state == s.buckets[j].state && s'.buckets[j].name == s.buckets[j].name
            && s'.threads == s.threads[t := s'.threads[t]]
            && (Owning(s'.threads[t]) ==> s'.threads[t].slot == s.threads[t].slot)
  {
  }

  lemma AbandonedNext(ss: seq<State>, i: nat, j: nat)
    requires Run(ss) && i + 1 < |ss| && Abandoned(ss[i], j)
    ensures Abandoned(ss[i + 1], j) && ss[i + 1].buckets[j].name == ss[i].buckets[j].name
  {
    RunHasInv(ss, i);
    var a := RunStep(ss, i);
    AbandonedStep(ss[i], a, ss[i + 1], j);
  }

  /** An abandoned slot and its name are lost for the rest of the run. */
  lemma {:induction false} AbandonedForever(ss: seq<State>, i: nat, k: nat, j: nat)
    requires Run(ss) && i <= k < |ss| && Abandoned(ss[i], j)
    ensures Abandoned(ss[k], j) && ss[k].buckets[j].name == ss[i].buckets[j].name
  {
    if i < k {
      AbandonedForever(ss, i, k - 1, j);
      AbandonedNext(ss, k - 1, j);
    }
  }

  /** The no-bucket's count falls short by one for every exit it never counted in. */
  lemma NoBucketCountDrift(ss: seq<State>, i: nat)
    requires Run(ss) && i < |ss|
    ensures 0 < |ss[i].buckets| && ss[i].buckets[0].clients == |CountedAtZero(ss[i].conns)| - ss[i].uncountedExits
  {
    RunHasInv(ss, i);
  }
}
