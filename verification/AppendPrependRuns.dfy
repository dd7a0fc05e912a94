/** Runs in which append and prepend do not do what a client expects. */
module AppendPrependRuns {
  import opened Basics
  import opened AppendPrepend
  import opened AppendPrependSafety

  ghost predicate Reachable(z: Codec, s: State) {
    exists ss :: Run(z, ss) && Last(ss) == s
  }

  lemma Start(z: Codec) returns (s: State)
    ensures Init(s) && Reachable(z, s)
  {
    s := State(map[], 1, map[], 0, [], map[], []);
    assert Run(z, [s]) && Last([s]) == s;
  }

  lemma ReachableHasInv(z: Codec, s: State)
    requires Reachable(z, s)
    ensures Inv(z, s)
  {
    var ss :| Run(z, ss) && Last(ss) == s;
    RunHasInv(z, ss, |ss| - 1);
  }

  lemma Go(z: Codec, s: State, a: Action) returns (s': State)
    requires Reachable(z, s) && Enabled(s, a)
    ensures WellFormed(s) && s' == Next(z, s, a) && Reachable(z, s')
  {
    var ss :| Run(z, ss) && Last(ss) == s;
    RunHasInv(z, ss, |ss| - 1);
    InvIsWellFormed(z, s);
    s' := Next(z, s, a);
    var ss' := ss + [s'];
    forall i | 0 <= i < |ss'| - 1 ensures MovesAt(z, ss', i) {
      if i < |ss| - 1 {
        assert MovesAt(z, ss, i);
      } else {
        assert Moves(z, ss'[i], ss'[i + 1]);
      }
    }
    assert Last(ss') == s';
  }

  /** Context 7, which appends byte 65 to document "k", is running at `stage`. */
  ghost predicate Appending(s: State, stage: Stage, extras: bool) {
    && 7 in s.contexts && s.contexts[7].phase.Running? && s.contexts[7].stage == stage
    && s.contexts[7].mode == Append && s.contexts[7].key == "k" && s.contexts[7].value == [65]
    && s.contexts[7].cas == 0 && s.contexts[7].mutationExtras == extras
  }

  /** Somebody writes `d`, and context 7 fetches it. */
  lemma FetchRun(z: Codec, value: seq<byte>, compressed: bool, extras: bool) returns (s: State)
    requires compressed ==> z(value).Some?
    ensures Reachable(z, s) && Appending(s, AllocateNewItem, extras)
    ensures s.docs == map["k" := Doc(value, compressed, 1)] && s.log == [Wrote("k", value, compressed)]
    ensures var c := s.contexts[7];
            && c.oldItem.Some? && c.oldItem.value in s.items && s.items[c.oldItem.value].doc == s.docs["k"]
            && c.buffer == if compressed then z(value).value else []
  {
    s := Start(z);
    s := Go(z, s, OtherWrite("k", value, compressed));
    s := Go(z, s, Begin(7, Append, "k", [65], false, 0, extras));
    assert Appending(s, GetItem, extras);
    s := Go(z, s, Exec(7, Proceed));
  }

  /** Context 7 goes on and stores; the engine answers the lookup of the token with `answer`. */
  lemma StoreRun(z: Codec, s0: State, d: Doc, extras: bool, answer: Answer) returns (s: State)
    requires Reachable(z, s0) && Appending(s0, AllocateNewItem, extras) && s0.docs == map["k" := d]
    requires s0.contexts[7].oldItem.Some? && s0.contexts[7].oldItem.value in s0.items
    requires s0.items[s0.contexts[7].oldItem.value].doc == d && (answer == Proceed || answer == NoInfo)
    ensures Reachable(z, s) && "k" in s.docs && 7 in s.contexts
            && s.log == s0.log + [Applied(7, "k", Append, [65], d.cas)]
    ensures s.docs["k"].value == Source(s0.contexts[7], d) + [65]
    ensures answer == NoInfo && extras ==> s.contexts[7].phase == Replied(Failed)
  {
    s := Go(z, s0, Exec(7, Proceed));
    assert Appending(s, StoreItem, extras) && s.docs == s0.docs && s.log == s0.log;
    s := Go(z, s, Exec(7, answer));
  }

  /** A codec in which the byte 0 is the compressed empty value. */
  function EmptyIsZero(v: seq<byte>): Option<seq<byte>> {
    if v == [0] then Some([]) else None
  }

  /** Appending to a compressed document that inflates to nothing keeps the compressed bytes. */
  lemma UnreadableDocumentIsMisread() returns (ss: seq<State>)
    ensures Run(EmptyIsZero, ss)
    ensures Last(ss).log == [Wrote("k", [0], true), Applied(7, "k", Append, [65], 1)]
    ensures "k" in Last(ss).docs && Last(ss).docs["k"].value == [0, 65]
  {
    var s := FetchRun(EmptyIsZero, [0], true, false);
    s := StoreRun(EmptyIsZero, s, Doc([0], true, 1), false, Proceed);
    ss :| Run(EmptyIsZero, ss) && Last(ss) == s;
  }

  /** Somebody else writes after context 7 has made its new item. */
  lemma OvertakenRun(z: Codec) returns (s: State)
    ensures Reachable(z, s) && Appending(s, StoreItem, false)
    ensures "k" in s.docs && s.docs["k"].value == [8]
    ensures var c := s.contexts[7];
            c.newItem.Some? && c.newItem.value in s.items && s.items[c.newItem.value].doc.cas != s.docs["k"].cas
    ensures s.log == [Wrote("k", [9], false), Wrote("k", [8], false)]
  {
    s := FetchRun(z, [9], false, false);
    s := Go(z, s, Exec(7, Proceed));
    assert Appending(s, StoreItem, false);
    ReachableHasInv(z, s);
    assert s.docs["k"].cas < s.nextCas;
    s := Go(z, s, OtherWrite("k", [8], false));
  }

  /** Somebody else writes between fetch and store: the append gives up, and what the other one wrote stays. */
  lemma LostRace() returns (ss: seq<State>)
    ensures Run(EmptyIsZero, ss) && 7 in Last(ss).contexts
    ensures Last(ss).contexts[7].phase == Replied(KeyEexists) && Last(ss).contexts[7].stage == Reset
    ensures "k" in Last(ss).docs && Last(ss).docs["k"].value == [8]
    ensures Last(ss).log == [Wrote("k", [9], false), Wrote("k", [8], false)]
  {
    var s := OvertakenRun(EmptyIsZero);
    s := Go(EmptyIsZero, s, Exec(7, Proceed));
    ss :| Run(EmptyIsZero, ss) && Last(ss) == s;
  }

  /** An append that took effect is reported as FAILED. */
  lemma StoredAppendReportedFailed() returns (ss: seq<State>)
    ensures Run(EmptyIsZero, ss) && 7 in Last(ss).contexts && Last(ss).contexts[7].phase == Replied(Failed)
    ensures "k" in Last(ss).docs && Last(ss).docs["k"].value == [9, 65]
  {
    var s := FetchRun(EmptyIsZero, [9], false, true);
    s := StoreRun(EmptyIsZero, s, Doc([9], false, 1), true, NoInfo);
    ss :| Run(EmptyIsZero, ss) && Last(ss) == s;
  }
}
