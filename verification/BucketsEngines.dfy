/** Where engines are: every engine ever made is in a slot or has been destroyed. */
module BucketsEngines {
  import opened Basics
  import opened Buckets
  import opened BucketsSafety
  import opened BucketsRuns

  /** Whether the thread is about to give its slot back, with the engine already destroyed. */
  predicate Clearing(p: Pc) {
    p.Clear? || p.CreateClear?
  }

  /** Before it has made an engine a create has none in its slot; after the engine call it is destroyed. */
  ghost predicate PhaseInv(s: State) {
    forall t | t in s.threads && Owning(s.threads[t]) && s.threads[t].slot < |s.buckets| ::
      var e := s.buckets[s.threads[t].slot].engine;
      && (s.threads[t].NewEngine? || s.threads[t].NoEngine? ==> e == Null)
      && (Clearing(s.threads[t]) ==> e.At? && e.id in s.destroyed)
  }

  ghost predicate InSlot(s: State, j: nat, e: nat) {
    j < |s.buckets| && s.buckets[j].engine == At(e)
  }

  ghost predicate Kept(s: State, e: nat) {
    e in s.destroyed || exists j :: InSlot(s, j, e)
  }

  ghost predicate KeptInv(s: State) {
    forall e: nat | e < s.nextEngine :: Kept(s, e)
  }

  ghost predicate ClearedBy(s: State, t: nat, j: nat) {
    t in s.threads && Clearing(s.threads[t]) && s.threads[t].slot == j
  }

  /** Only a slot that is about to be given back holds an engine that is destroyed. */
  ghost predicate GoneInv(s: State) {
    forall j, e | InSlot(s, j, e) && e in s.destroyed :: exists t :: ClearedBy(s, t, j)
  }

  ghost predicate PlaceInv(s: State) {
    PhaseInv(s) && KeptInv(s) && GoneInv(s)
  }

  /** No engine and no owner changes. */
  ghost predicate SameEngines(s: State, s': State) {
    && |s'.buckets| == |s.buckets| && s'.nextEngine == s.nextEngine && s'.destroyed == s.destroyed
    && (forall j :: 0 <= j < |s.buckets| ==> s'.buckets[j].engine == s.buckets[j].engine)
    && (forall t | t in s.threads && Clearing(s.threads[t]) :: t in s'.threads && s'.threads[t] == s.threads[t])
    && (forall t | t in s'.threads && Owning(s'.threads[t]) ::
          || (t in s.threads && s.threads[t] == s'.threads[t])
          || (!Clearing(s'.threads[t])
              && (s'.threads[t].NewEngine? && s'.threads[t].slot < |s.buckets| ==>
                    s.buckets[s'.threads[t].slot].engine == Null)
              && !s'.threads[t].NoEngine?))
  }

  lemma SameEnginesKeepPlaces(s: State, s': State)
    requires PlaceInv(s) && SameEngines(s, s')
    ensures PlaceInv(s')
  {
    forall e: nat | e < s'.nextEngine ensures Kept(s', e) {
      assert Kept(s, e);
      if j :| InSlot(s, j, e) {
        assert InSlot(s', j, e);
      }
    }
    forall j, e | InSlot(s', j, e) && e in s'.destroyed ensures exists t :: ClearedBy(s', t, j) {
      assert InSlot(s, j, e);
      var t :| ClearedBy(s, t, j);
      assert ClearedBy(s', t, j);
    }
  }

  lemma ConnActionSameEngines(s: State, a: Action)
    requires WellFormed(s) && Enabled(s, a) && !a.Step?
    ensures SameEngines(s, Next(s, a))
  {
  }

  lemma FindSameEngines(s: State, t: nat, ok: bool)
    requires WellFormed(s) && Enabled(s, Step(t, ok)) && s.threads[t].Find?
    ensures SameEngines(s, ThreadStep(s, t, ok))
  {
  }

  lemma ScanSameEngines(s: State, t: nat, ok: bool)
    requires WellFormed(s) && Enabled(s, Step(t, ok)) && s.threads[t].Scan?
    ensures SameEngines(s, ThreadStep(s, t, ok))
  {
  }

  lemma ReserveSameEngines(s: State, t: nat, ok: bool)
    requires WellFormed(s) && TableInv(s) && ScanInv(s) && Enabled(s, Step(t, ok)) && s.threads[t].Reserve?
    ensures SameEngines(s, ThreadStep(s, t, ok))
  {
    assert SeenInv(s, s.threads[t]);
    assert SlotInv(s.buckets[s.threads[t].slot]);
  }

  lemma LeaveOwnSameEngines(s: State, p: Pc)
    requires WellFormed(s)
    ensures SameEngines(s, LeaveOwn(s, p))
  {
  }

  /** What an owner may do to the engine of its slot `i`. */
  ghost predicate EngineMove(s: State, s': State, t: nat, i: nat) {
    && i < |s.buckets| == |s'.buckets|
    && t in s.threads && t in s'.threads && s'.threads == s.threads[t := s'.threads[t]]
    && Owning(s.threads[t]) && s.threads[t].slot == i
    && (forall j :: 0 <= j < |s.buckets| && j != i ==> s'.buckets[j].engine == s.buckets[j].engine)
    && var e, e', p, p' := s.buckets[i].engine, s'.buckets[i].engine, s.threads[t], s'.threads[t];
       && (Owning(p') ==> p'.slot == i) && (p'.NewEngine? || p'.NoEngine? ==> e' == Null)
       && (|| (e' == e && !Clearing(p) && !Clearing(p') && s'.nextEngine == s.nextEngine && s'.destroyed == s.destroyed)
           || (p.NewEngine? && e == Null && e' == At(s.nextEngine) && !Clearing(p')
               && s'.nextEngine == s.nextEngine + 1 && s'.destroyed == s.destroyed)
           || (e' == e && e.At? && Clearing(p')
               && s'.nextEngine == s.nextEngine && s'.destroyed == s.destroyed + [e.id])
           || (e' == Null && p'.Done? && (e == Null || Clearing(p))
               && s'.nextEngine == s.nextEngine && s'.destroyed == s.destroyed))
  }

  lemma OwnerStepMovesEngine(s: State, t: nat, p: Pc, ok: bool)
    requires PhaseInv(s) && t in s.threads && s.threads[t] == p && Owning(p) && OwnedState(s, p)
    ensures EngineMove(s, OwnerStep(s, t, p, ok), t, p.slot)
  {
    assert p.NewEngine? || p.NoEngine? ==> s.buckets[p.slot].engine == Null;
  }

  lemma EngineMoveKeepsPhase(s: State, s': State, t: nat, i: nat)
    requires PhaseInv(s) && ExclusiveInv(s) && EngineMove(s, s', t, i)
    ensures PhaseInv(s')
  {
    forall u | u in s'.threads && Owning(s'.threads[u]) && s'.threads[u].slot < |s'.buckets| && u != t
      ensures s'.threads[u].slot != i {
      assert s.threads[u].slot != s.threads[t].slot;
    }
  }

  lemma EngineMoveKeepsKept(s: State, s': State, t: nat, i: nat)
    requires PhaseInv(s) && KeptInv(s) && EngineMove(s, s', t, i)
    ensures KeptInv(s')
  {
    forall e: nat | e < s'.nextEngine ensures Kept(s', e) {
      if e == s.nextEngine {
        assert InSlot(s', i, e);
      } else {
        assert Kept(s, e);
        if j :| InSlot(s, j, e) {
          assert j != i || e in s.destroyed || InSlot(s', i, e);
          assert j != i ==> InSlot(s', j, e);
        }
      }
    }
  }

  lemma EngineMoveKeepsGone(s: State, s': State, t: nat, i: nat)
    requires EngineInv(s) && HistoryInv(s) && PhaseInv(s) && GoneInv(s) && ExclusiveInv(s) && EngineMove(s, s', t, i)
    ensures GoneInv(s')
  {
    forall j, e | InSlot(s', j, e) && e in s'.destroyed ensures exists u :: ClearedBy(s', u, j) {
      if j == i && Clearing(s'.threads[t]) {
        assert ClearedBy(s', t, j);
      } else {
        assert InSlot(s, j, e) && e in s.destroyed;
        var u :| ClearedBy(s, u, j);
        assert u != t;
        assert ClearedBy(s', u, j);
      }
    }
  }

  lemma OwnerKeepsPlaces(s: State, t: nat, p: Pc, ok: bool)
    requires SlotsInv(s) && PlaceInv(s) && t in s.threads && s.threads[t] == p && Owning(p)
    ensures PlaceInv(OwnerStep(s, t, p, ok))
  {
    assert OwnedState(s, p);
    OwnerStepMovesEngine(s, t, p, ok);
    EngineMoveKeepsPhase(s, OwnerStep(s, t, p, ok), t, p.slot);
    EngineMoveKeepsKept(s, OwnerStep(s, t, p, ok), t, p.slot);
    EngineMoveKeepsGone(s, OwnerStep(s, t, p, ok), t, p.slot);
  }

  lemma NextKeepsPlaces(s: State, a: Action)
    requires Inv(s) && PlaceInv(s) && Enabled(s, a)
    ensures PlaceInv(Next(s, a))
  {
    if !a.Step? {
      ConnActionSameEngines(s, a);
      SameEnginesKeepPlaces(s, Next(s, a));
    } else {
      var p := s.threads[a.t];
      if Owning(p) {
        LeaveOwnSameEngines(s, p);
        LeaveOwnKeepsInv(s, p);
        SameEnginesKeepPlaces(s, LeaveOwn(s, p));
        OwnerKeepsPlaces(LeaveOwn(s, p), a.t, p, a.ok);
      } else {
        if p.Reserve? {
          ReserveSameEngines(s, a.t, a.ok);
        } else if p.Find? {
          FindSameEngines(s, a.t, a.ok);
        } else {
          ScanSameEngines(s, a.t, a.ok);
        }
        SameEnginesKeepPlaces(s, Next(s, a));
      }
    }
  }

  lemma MoveKeepsPlaces(ss: seq<State>, i: nat)
    requires Run(ss) && i + 1 < |ss| && PlaceInv(ss[i])
    ensures PlaceInv(ss[i + 1])
  {
    RunHasInv(ss, i);
    var a := RunStep(ss, i);
    NextKeepsPlaces(ss[i], a);
  }

  lemma {:induction false} PlacesInRun(ss: seq<State>, i: nat)
    requires Run(ss) && i < |ss|
    ensures PlaceInv(ss[i])
  {
    if i == 0 {
      assert InSlot(ss[0], 0, 0);
    } else {
      PlacesInRun(ss, i - 1);
      MoveKeepsPlaces(ss, i - 1);
    }
  }

  // ----- the theorems -----

  /**
   * No engine is forgotten: every one ever made is in a slot or destroyed, and
   * both only while a thread is about to give the slot back.
   */
  lemma EnginesAccountedFor(ss: seq<State>, i: nat, e: nat)
    requires Run(ss) && i < |ss| && e < ss[i].nextEngine
    ensures e in ss[i].destroyed || exists j :: 0 <= j < |ss[i].buckets| && ss[i].buckets[j].engine == At(e)
    ensures forall j :: 0 <= j < |ss[i].buckets| && ss[i].buckets[j].engine == At(e) ==>
              (e in ss[i].destroyed <==> exists t :: ClearedBy(ss[i], t, j))
  {
    PlacesInRun(ss, i);
    RunHasInv(ss, i);
    assert Kept(ss[i], e);
    if j: nat :| InSlot(ss[i], j, e) {
      assert ss[i].buckets[j].engine == At(e);
    }
    forall j | 0 <= j < |ss[i].buckets| && ss[i].buckets[j].engine == At(e)
      ensures e in ss[i].destroyed <==> exists t :: ClearedBy(ss[i], t, j) {
      assert InSlot(ss[i], j, e);
      if t :| ClearedBy(ss[i], t, j) {
        assert Owning(ss[i].threads[t]);
      }
    }
  }

  /** An accepted delete destroys its engine: until then the slot of the engine is being destroyed by some thread. */
  lemma DeletesAreCarriedOut(ss: seq<State>, i: nat, e: nat)
    requires Run(ss) && i < |ss| && e in ss[i].deletes
    ensures e in ss[i].destroyed ||
            exists j :: 0 <= j < |ss[i].buckets| && ss[i].buckets[j].engine == At(e)
                        && ss[i].buckets[j].state == Destroying && HasOwner(ss[i], j)
  {
    RunHasInv(ss, i);
    EnginesAccountedFor(ss, i, e);
    if e !in ss[i].destroyed {
      var j :| 0 <= j < |ss[i].buckets| && ss[i].buckets[j].engine == At(e);
      assert ss[i].buckets[j].state == Destroying;
      NoOtherSlotStuck(ss, i, j);
    }
  }

  /** When all threads are done, the engines whose deletion was accepted have all been destroyed. */
  lemma NothingLeftToDestroy(ss: seq<State>, i: nat, e: nat)
    requires Run(ss) && i < |ss| && e in ss[i].deletes
    requires forall t | t in ss[i].threads :: ss[i].threads[t].Done?
    ensures e in ss[i].destroyed
  {
    DeletesAreCarriedOut(ss, i, e);
  }
}
