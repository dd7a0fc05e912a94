/** A run in which two deletes wait for each other. */
module BucketsKnot {
  import opened Basics
  import opened Buckets
  import opened BucketsRuns
  import opened BucketsProgress
  import opened BucketsAlone

  /** Two buckets are made, by threads 0 and 1. */
  lemma TwoBuckets() returns (s: State)
    ensures Reachable(s) && |s.buckets| == 3 && s.conns == map[] && s.lock.None? && s.threads.Keys == {0, 1}
    ensures s.buckets == [NO_BUCKET, Bucket(Ready, "default", At(1), 0), Bucket(Ready, "beer", At(2), 0)]
  {
    s := State([NO_BUCKET, FREE_SLOT, FREE_SLOT], map[], map[], None, 1, [], [], 0);
    assert Run([s]) && Last([s]) == s;
    CreateAlone(s, 0, "default", 1);
    s := OwnerAt(s, 0, 1, Bucket(Ready, "default", At(1), 0), Done(Success), 1, []);
    CreateAlone(s, 1, "beer", 2);
    s := OwnerAt(s, 1, 2, Bucket(Ready, "beer", At(2), 0), Done(Success), 1, []);
  }

  /** Connection 5 uses "default", connection 6 uses "beer". */
  lemma TwoUsers() returns (s: State)
    ensures Reachable(s) && |s.buckets| == 3 && s.lock.None? && s.threads.Keys == {0, 1}
    ensures s.buckets == [NO_BUCKET, Bucket(Ready, "default", At(1), 1), Bucket(Ready, "beer", At(2), 1)]
    ensures s.conns == map[5 := Conn(1, At(1), true, Idle), 6 := Conn(2, At(2), true, Idle)]
  {
    s := TwoBuckets();
    ConnectAlone(s, 5, 1);
    s := Joined(s, 5, 1);
    ConnectAlone(s, 6, 1);
    s := Joined(s, 6, 1);
    SelectAlone(s, 6, 1, "beer", 2);
    var b := s.buckets[1];
    s := Joined(SetBucket(s, 1, b.(clients := b.clients - 1)), 6, 2);
  }

  /** Each of two connections deletes the bucket of the other one: neither delete ever ends. */
  lemma RunIntoAKnot() returns (ss: seq<State>)
    ensures Run(ss) && Knot(Last(ss), {2, 3})
  {
    var s := TwoUsers();
    DeleteAlone(s, 2, Some(6), "default", 1);
    s := Deleting(Condemned(s, 1), 2, Some(6), Await(1, Some(6)), None);
    DeleteAlone(s, 3, Some(5), "beer", 2);
    s := Deleting(Condemned(s, 2), 3, Some(5), Await(2, Some(5)), None);
    assert WaitsFor(s, 2, 5, 3) && WaitsFor(s, 3, 6, 2);
    assert Held(s, {2, 3}, 2) && Held(s, {2, 3}, 3);
    ss :| Run(ss) && Last(ss) == s;
  }
}
