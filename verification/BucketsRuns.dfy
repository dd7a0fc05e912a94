/** Slots that are lost for good, what loses them, and a run that gets there. */
module BucketsRuns {
  import opened Basics
  import opened Buckets
  import opened BucketsSafety

  // ----- lost slots -----

  ghost predicate OwnedBy(s: State, t: nat, j: nat) {
    t in s.threads && Owning(s.threads[t]) && s.threads[t].slot == j
  }

  ghost predicate HasOwner(s: State, j: nat) {
    exists t :: OwnedBy(s, t, j)
  }

  /** The TopKeys allocation of a create that is about to take slot `j` fails. */
  ghost predicate FailsTopKeys(s: State, a: Action, j: nat) {
    a.Step? && !a.ok && a.t in s.threads && s.threads[a.t].Reserve? && s.threads[a.t].slot == j
  }

  /** A thread that owns a slot gives it up only by making it Ready or Unused. */
  lemma OwnerStepLetsGo(s: State, t: nat, ok: bool)
    requires WellFormed(s) && OwnedInv(s) && Enabled(s, Step(t, ok)) && Owning(s.threads[t])
    ensures var j, s' := s.threads[t].slot, Next(s, Step(t, ok));
            && j < |s'.buckets| && (OwnedBy(s', t, j) || s'.buckets[j].state in {Ready, Unused})
            && forall i :: 0 <= i < |s.buckets| && i != j ==> s'.buckets[i].state == s.buckets[i].state
  {
    assert OwnedState(s, s.threads[t]);
  }

  /** A thread that does not move still owns what it owned. */
  lemma OwnerStays(s: State, a: Action, t: nat, j: nat)
    requires WellFormed(s) && Enabled(s, a) && OwnedBy(s, t, j) && !(a.Step? && a.t == t)
    ensures HasOwner(Next(s, a), j)
  {
    OtherThreadsKept(s, a, t);
    assert OwnedBy(Next(s, a), t, j);
  }

  lemma OwnedSlotStep(s: State, a: Action, j: nat)
    requires WellFormed(s) && OwnedInv(s) && Enabled(s, a) && HasOwner(s, j) && j < |s.buckets|
    ensures HasOwner(Next(s, a), j) || Next(s, a).buckets[j].state in {Ready, Unused}
  {
    var t :| OwnedBy(s, t, j);
    if a.Step? && a.t == t {
      OwnerStepLetsGo(s, t, a.ok);
    } else {
      OwnerStays(s, a, t, j);
    }
  }

  /** A slot without an owner changes its state only by getting one, or by a failed TopKeys allocation. */
  lemma FreeSlotStep(s: State, a: Action, j: nat)
    requires WellFormed(s) && OwnedInv(s) && ScanInv(s) && Enabled(s, a) && !HasOwner(s, j) && j < |s.buckets|
    ensures var s' := Next(s, a);
            && |s'.buckets| == |s.buckets|
            && (s'.buckets[j].state == s.buckets[j].state || HasOwner(s', j) || FailsTopKeys(s, a, j))
            && (FailsTopKeys(s, a, j) ==> s'.buckets[j].state == Creating)
  {
    if a.Step? {
      var p, s' := s.threads[a.t], Next(s, a);
      if Owning(p) {
        assert OwnedBy(s, a.t, p.slot);
        OwnerStepLetsGo(s, a.t, a.ok);
      } else {
        assert SeenInv(s, p);
        assert s'.buckets[j].state == s.buckets[j].state || OwnedBy(s', a.t, j) || FailsTopKeys(s, a, j);
      }
    }
  }

  /** A failed TopKeys allocation is the only way to lose a slot. */
  lemma OnlyTopKeysAbandons(s: State, a: Action, j: nat)
    requires Inv(s) && Enabled(s, a) && 1 <= j < |s.buckets| && !Abandoned(s, j) && Abandoned(Next(s, a), j)
    ensures FailsTopKeys(s, a, j)
  {
    NoOwner(Next(s, a), j);
    if HasOwner(s, j) {
      OwnedSlotStep(s, a, j);
    } else {
      NoOwner(s, j);
      FreeSlotStep(s, a, j);
    }
  }

  lemma NoOwner(s: State, j: nat)
    requires 1 <= j < |s.buckets|
    ensures Abandoned(s, j) <==> s.buckets[j].state == Creating && !HasOwner(s, j)
  {
    if !HasOwner(s, j) {
      forall t | t in s.threads && Owning(s.threads[t]) ensures s.threads[t].slot != j {
        assert !OwnedBy(s, t, j);
      }
    }
  }

  /** Step `i` of the run is a create taking slot `j` whose TopKeys allocation fails. */
  ghost predicate LosesSlot(ss: seq<State>, i: nat, j: nat) {
    i + 1 < |ss| && WellFormed(ss[i]) &&
    exists t :: FailsTopKeys(ss[i], Step(t, false), j) && ss[i + 1] == Next(ss[i], Step(t, false))
  }

  ghost predicate LostBefore(ss: seq<State>, k: nat, j: nat) {
    exists i: nat :: i < k && LosesSlot(ss, i, j)
  }

  lemma {:induction false} TableSizeFixed(ss: seq<State>, i: nat, k: nat)
    requires Run(ss) && i <= k < |ss|
    ensures |ss[i].buckets| == |ss[k].buckets|
  {
    if i < k {
      TableSizeFixed(ss, i, k - 1);
      RunHasInv(ss, k - 1);
      SlotsFollowLifecycle(ss, k - 1, 0);
    }
  }

  lemma {:induction false} LostBecause(ss: seq<State>, k: nat, j: nat)
    requires Run(ss) && k < |ss| && Abandoned(ss[k], j)
    ensures LostBefore(ss, k, j)
  {
    if k > 0 {
      TableSizeFixed(ss, k - 1, k);
      if Abandoned(ss[k - 1], j) {
        LostBecause(ss, k - 1, j);
      } else {
        RunHasInv(ss, k - 1);
        var a := RunStep(ss, k - 1);
        OnlyTopKeysAbandons(ss[k - 1], a, j);
        assert a == Step(a.t, false);
        assert LosesSlot(ss, k - 1, j);
      }
    }
  }

  /** A slot is marked as being created with nobody creating it, for good, exactly after a failed TopKeys allocation. */
  lemma {:induction false} LostExactly(ss: seq<State>, k: nat, j: nat)
    requires Run(ss) && k < |ss|
    ensures Abandoned(ss[k], j) <==> LostBefore(ss, k, j)
  {
    if Abandoned(ss[k], j) {
      LostBecause(ss, k, j);
    }
    if LostBefore(ss, k, j) {
      var i: nat :| i < k && LosesSlot(ss, i, j);
      RunHasInv(ss, i);
      var t :| FailsTopKeys(ss[i], Step(t, false), j) && ss[i + 1] == Next(ss[i], Step(t, false));
      FailedTopKeysAbandons(ss[i], t);
      AbandonedForever(ss, i + 1, k, j);
    }
  }

  // ----- slots in transition -----

  /** A slot that is being initialised or destroyed has a thread at work on it. */
  ghost predicate Attended(s: State, j: nat) {
    j < |s.buckets| && (s.buckets[j].state in {Initializing, Destroying} ==> HasOwner(s, j))
  }

  lemma AttendedNext(s: State, a: Action, j: nat)
    requires Inv(s) && Enabled(s, a) && Attended(s, j)
    ensures Attended(Next(s, a), j)
  {
    NextFollowsLifecycle(s, a, j);
    if HasOwner(s, j) {
      OwnedSlotStep(s, a, j);
    } else {
      FreeSlotStep(s, a, j);
    }
  }

  /** No slot is stuck on the way up or down, except those lost by a failed TopKeys allocation. */
  lemma {:induction false} NoOtherSlotStuck(ss: seq<State>, k: nat, j: nat)
    requires Run(ss) && k < |ss| && 1 <= j < |ss[k].buckets|
    ensures Attended(ss[k], j)
    ensures ss[k].buckets[j].state == Creating ==> HasOwner(ss[k], j) || LostBefore(ss, k, j)
  {
    if k > 0 {
      TableSizeFixed(ss, k - 1, k);
      NoOtherSlotStuck(ss, k - 1, j);
      RunHasInv(ss, k - 1);
      var a := RunStep(ss, k - 1);
      AttendedNext(ss[k - 1], a, j);
    }
    NoOwner(ss[k], j);
    if Abandoned(ss[k], j) {
      LostBecause(ss, k, j);
    }
  }

  // ----- runs -----

  ghost predicate Reachable(s: State) {
    exists ss :: Run(ss) && Last(ss) == s
  }

  lemma ReachNext(s: State, a: Action)
    requires Reachable(s) && WellFormed(s) && Enabled(s, a)
    ensures Reachable(Next(s, a))
  {
    var ss :| Run(ss) && Last(ss) == s;
    var ss' := ss + [Next(s, a)];
    forall i | 0 <= i < |ss'| - 1 ensures MovesAt(ss', i) {
      if i < |ss| - 1 {
        assert MovesAt(ss, i);
      } else {
        assert Moves(ss'[i], ss'[i + 1]);
      }
    }
    assert Last(ss') == Next(s, a);
  }

  const NO_BUCKET := Bucket(Ready, "", At(0), 0)
  const FREE_SLOT := Bucket(Unused, "", Null, 0)

  /** A table of two slots, with thread 0 at `p`. */
  function Creating0(p: Pc): State {
    State([NO_BUCKET, FREE_SLOT], map[], map[0 := p], Some(0), 1, [], [], 0)
  }

  lemma ReachScan()
    ensures Reachable(Creating0(Scan("default", 0, None, false)))
  {
    var s := State([NO_BUCKET, FREE_SLOT], map[], map[], None, 1, [], [], 0);
    assert Run([s]) && Last([s]) == s;
    ReachNext(s, CreateBegin(0, "default"));
  }

  /** Thread 0 has found slot 1 free and is about to take it for "default". */
  lemma ReachReserve()
    ensures Reachable(Creating0(Reserve("default", 1)))
  {
    ReachScan();
    ReachNext(Creating0(Scan("default", 0, None, false)), Step(0, true));
    ReachNext(Creating0(Scan("default", 1, None, false)), Step(0, true));
    ReachNext(Creating0(Scan("default", 2, Some(1), false)), Step(0, true));
  }

  /** A run that loses a slot. */
  lemma RunThatLosesASlot() returns (ss: seq<State>)
    ensures Run(ss) && Abandoned(Last(ss), 1) && Last(ss).threads == map[0 := Done(Enomem)]
  {
    ReachReserve();
    var s := Creating0(Reserve("default", 1));
    ReachNext(s, Step(0, false));
    ss :| Run(ss) && Last(ss) == Next(s, Step(0, false));
  }
}
