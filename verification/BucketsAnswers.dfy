/** What creates and deletes answer, whatever else is going on: every answer is right at the moment it is given. */
module BucketsAnswers {
  import opened Basics
  import opened Buckets
  import opened BucketsSafety
  import opened BucketsRuns
  import opened BucketsAlone
  import opened BucketsDrift
  import opened BucketsProgress

  // ----- names -----

  /** Letters, digits, underscore, hyphen, full stop and percent sign. */
  lemma LegalCodes(c: char)
    ensures LegalNameChar(c) <==>
            var n := c as int;
            65 <= n <= 90 || 97 <= n <= 122 || 48 <= n <= 57 || n == 95 || n == 45 || n == 46 || n == 37
  {
    assert c in "_-.%" <==> c == '_' || c == '-' || c == '.' || c == '%';
  }

  /** validateBucketName */
  method ValidateName(name: string) returns (ok: bool)
    ensures ok <==> 1 <= |name| <= 100 && forall c | c in name :: LegalNameChar(c)
    ensures ok <==> ValidName(name)
  {
    if |name| == 0 {
      return false;
    }
    if |name| > MAX_BUCKET_NAME_LENGTH {
      return false;
    }
    var i := 0;
    while i < |name|
      invariant i <= |name| && forall j :: 0 <= j < i ==> LegalNameChar(name[j])
    {
      if !LegalNameChar(name[i]) {
        return false;
      }
      i := i + 1;
    }
    return true;
  }

  /** A create with an invalid name is refused with EINVAL, at any time, and changes nothing. */
  lemma CreateInvalid(s: State, t: nat, name: string)
    requires Reachable(s) && t !in s.threads
    requires |name| == 0 || |name| > 100 || exists c :: c in name && !LegalNameChar(c)
    ensures Reachable(s.(threads := s.threads[t := Done(Einval)]))
  {
    var s' := Go(s, CreateRefuse(t, name));
  }

  // ----- creates and deletes -----

  predicate Named(s: State, j: nat, name: string) {
    j < |s.buckets| && s.buckets[j].name == name
  }

  lemma FindDecides(s: State, t: nat, ok: bool)
    requires Inv(s) && Enabled(s, Step(t, ok)) && s.threads[t].Find?
    ensures var p, p', s' := s.threads[t], ThreadStep(s, t, ok).threads[t], ThreadStep(s, t, ok);
            && (p'.Done? ==> p'.result in {KeyEnoent, KeyEexists})
            && (p' == Done(KeyEnoent) ==> Unnamed(s, p.name))
            && (p' == Done(KeyEexists) ==> Named(s, p.next, p.name) && s.buckets[p.next].state != Ready)
            && (p'.Release? ==> && p'.conn == p.conn && Named(s, p'.slot, p.name) && s.buckets[p'.slot].state == Ready
                                && s'.buckets[p'.slot].state == Destroying)
            && (p'.Done? || p'.Release? || p' == Find(p.name, p.conn, p.next + 1))
  {
    assert SeenInv(s, s.threads[t]);
  }

  /**
   * A delete answers KEY_ENOENT only if no slot has the name, KEY_EEXISTS only
   * if one has it but is not in service, and takes over only a slot that has the
   * name and is in service.
   */
  lemma DeleteAnswers(ss: seq<State>, i: nat, t: nat)
    requires Run(ss) && i + 1 < |ss| && t in ss[i].threads && ss[i].threads[t].Find? && Moved(ss[i], ss[i + 1], t)
    ensures var name, p' := ss[i].threads[t].name, ss[i + 1].threads[t];
            && (p' == Done(KeyEnoent) ==> Unnamed(ss[i], name))
            && (p' == Done(KeyEexists) ==> exists j: nat :: Named(ss[i], j, name) && ss[i].buckets[j].state != Ready)
            && (p'.Done? ==> p'.result in {KeyEnoent, KeyEexists})
            && (p'.Release? ==> && p'.conn == ss[i].threads[t].conn && Named(ss[i], p'.slot, name)
                                && ss[i].buckets[p'.slot].state == Ready && p'.slot < |ss[i + 1].buckets|
                                && ss[i + 1].buckets[p'.slot].state == Destroying)
  {
    RunHasInv(ss, i);
    var a := RunStep(ss, i);
    if a.Step? && a.t == t {
      FindDecides(ss[i], t, a.ok);
    } else {
      OtherThreadsKept(ss[i], a, t);
    }
  }

  lemma ScanDecides(s: State, t: nat, ok: bool)
    requires Inv(s) && Enabled(s, Step(t, ok)) && s.threads[t].Scan?
    ensures var p, p' := s.threads[t], ThreadStep(s, t, ok).threads[t];
            && (p'.Done? ==> p'.result in {KeyEexists, E2big})
            && (p' == Done(KeyEexists) <==> p.found)
            && (p' == Done(E2big) ==> Unnamed(s, p.name) && p.firstFree.None?)
            && (p'.Reserve? ==> && Unnamed(s, p.name) && p'.name == p.name
                                && p'.slot < |s.buckets| && s.buckets[p'.slot].state == Unused)
            && (p'.Scan? ==> && !p.found && p.next < |s.buckets| && (p'.found <==> Named(s, p.next, p.name))
                             && (p'.firstFree.None? <==> p.firstFree.None? && s.buckets[p.next].state != Unused))
  {
    assert SeenInv(s, s.threads[t]);
  }

  /**
   * A create takes over only an unused slot, and only if no slot has the name;
   * it answers E2BIG only then, too, and KEY_EEXISTS only after it saw the name.
   */
  lemma CreateAnswers(ss: seq<State>, i: nat, t: nat)
    requires Run(ss) && i + 1 < |ss| && t in ss[i].threads && ss[i].threads[t].Scan? && Moved(ss[i], ss[i + 1], t)
    ensures var p, p' := ss[i].threads[t], ss[i + 1].threads[t];
            && (p'.Done? ==> p'.result in {KeyEexists, E2big})
            && (p' == Done(KeyEexists) <==> p.found)
            && (p' == Done(E2big) ==> Unnamed(ss[i], p.name) && p.firstFree.None?)
            && (p'.Reserve? ==> && Unnamed(ss[i], p.name) && p'.name == p.name
                                && p'.slot < |ss[i].buckets| && ss[i].buckets[p'.slot].state == Unused)
            && (p'.Scan? ==> && !p.found && p.next < |ss[i].buckets| && (p'.found <==> Named(ss[i], p.next, p.name))
                             && (p'.firstFree.None? <==> p.firstFree.None? && ss[i].buckets[p.next].state != Unused))
  {
    RunHasInv(ss, i);
    var a := RunStep(ss, i);
    if a.Step? && a.t == t {
      ScanDecides(ss[i], t, a.ok);
    } else {
      OtherThreadsKept(ss[i], a, t);
    }
  }
}
