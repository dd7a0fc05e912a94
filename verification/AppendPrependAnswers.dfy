/**
 * What a client of append and prepend is told and when, and what an update does
 * to its document when nobody interferes.
 */
module AppendPrependAnswers {
  import opened Basics
  import opened AppendPrepend
  import opened AppendPrependSafety
  import opened AppendPrependRuns

  // ----- what is reported -----

  /** The context is about to call the engine. */
  predicate Calling(c: Context) {
    c.stage == GetItem || c.stage == AllocateNewItem || c.stage == StoreItem
  }

  predicate Refused(c: Context, answer: Answer, e: Status) {
    Calling(c) && answer == Refuse(e)
  }

  /** The context is at this stage and the engine does what it is asked. */
  predicate Served(c: Context, stage: Stage, answer: Answer) {
    c.stage == stage && !answer.Block? && !answer.Refuse?
  }

  /** The document is there, with its information, in the version the client wants. */
  predicate Wanted(c: Context, doc: Option<Doc>, answer: Answer) {
    doc.Some? && !answer.NoInfo? && (c.cas == 0 || c.cas == doc.value.cas)
  }

  /** A missing document is reported as "not stored". */
  predicate IsNotStored(c: Context, doc: Option<Doc>, answer: Answer) {
    || Refused(c, answer, KeyEnoent) || Refused(c, answer, NotStored)
    || ((Served(c, GetItem, answer) || Served(c, StoreItem, answer)) && doc.None?)
  }

  /** A version that is not the wanted one, or not the current one any more, is reported as KEY_EEXISTS. */
  predicate IsKeyEexists(c: Context, doc: Option<Doc>, version: nat, answer: Answer) {
    || Refused(c, answer, KeyEexists)
    || (Served(c, GetItem, answer) && doc.Some? && !answer.NoInfo? && !Wanted(c, doc, answer))
    || (Served(c, StoreItem, answer) && doc.Some? && doc.value.cas != version)
  }

  /** A request that cannot be inflated is invalid. */
  predicate IsEinval(z: Codec, c: Context, answer: Answer) {
    Refused(c, answer, Einval) || (c.stage == InflateInputData && answer != OutOfMemory && z(c.request) == None)
  }

  /** Memory can run out while inflating request or document. */
  predicate IsEnomem(c: Context, doc: Option<Doc>, answer: Answer) {
    || Refused(c, answer, Enomem)
    || (c.stage == InflateInputData && answer == OutOfMemory)
    || (c.stage == GetItem && answer == OutOfMemory && Wanted(c, doc, answer) && doc.value.compressed)
  }

  /** Information about an item cannot be had, or the document cannot be inflated. */
  predicate IsFailed(z: Codec, c: Context, doc: Option<Doc>, version: nat, answer: Answer) {
    || Refused(c, answer, Failed)
    || (c.stage == GetItem && answer == NoInfo && doc.Some?)
    || (Served(c, GetItem, answer) && answer != OutOfMemory && Wanted(c, doc, answer)
        && doc.value.compressed && z(doc.value.value) == None)
    || (c.stage == AllocateNewItem && answer == NoInfo)
    || (c.stage == StoreItem && answer == NoInfo && doc.Some? && doc.value.cas == version && c.mutationExtras)
  }

  /** The phase after a call, from what it depends on: the current document and the version of the new one. */
  function PhaseAfter(z: Codec, c: Context, doc: Option<Doc>, version: nat, answer: Answer): Phase {
    match c.stage
    case InflateInputData => InflateStep(z, c, answer).phase
    case Reset => c.phase
    case Done => Reply(c, Success).phase
    case GetItem =>
      if answer.Block? then Blocked else if answer.Refuse? then Reply(c, answer.e).phase
      else if doc.None? then Reply(c, KeyEnoent).phase else Fetched(z, c, 0, doc.value, answer).phase
    case AllocateNewItem =>
      if answer.Block? then Blocked else if answer.Refuse? then Reply(c, answer.e).phase
      else if answer.NoInfo? then Reply(c, Failed).phase else c.phase
    case StoreItem =>
      if answer.Block? then Blocked else if answer.Refuse? then Reply(c, answer.e).phase
      else if doc.None? then Reply(c, KeyEnoent).phase
      else if doc.value.cas != version then Reply(c, KeyEexists).phase
      else if answer.NoInfo? && c.mutationExtras then Reply(c, Failed).phase else c.phase
  }

  function DocOf(s: State, c: Context): Option<Doc> {
    if c.key in s.docs then Some(s.docs[c.key]) else None
  }

  /** The version of the new document, once there is one. */
  function VersionOf(s: State, c: Context): nat {
    if c.newItem.Some? && c.newItem.value in s.items then s.items[c.newItem.value].doc.cas else 0
  }

  lemma PhaseOfFetched(z: Codec, c: Context, n: nat, d: Doc, answer: Answer)
    ensures Fetched(z, c, n, d, answer).phase == Fetched(z, c, 0, d, answer).phase
  {
  }

  lemma PhaseIs(z: Codec, s: State, id: nat, answer: Answer)
    requires WellFormed(s) && Enabled(s, Exec(id, answer))
    ensures var c := s.contexts[id];
            ExecStep(z, s, id, answer).contexts[id].phase == PhaseAfter(z, c, DocOf(s, c), VersionOf(s, c), answer)
  {
    var c := s.contexts[id];
    if c.stage == GetItem && c.key in s.docs {
      PhaseOfFetched(z, c, s.nextItem, s.docs[c.key], answer);
    }
  }

  lemma PhaseEnds(z: Codec, c: Context, doc: Option<Doc>, version: nat, answer: Answer)
    requires c.phase.Running? && (answer.Refuse? ==> answer.e != Success && answer.e != Ewouldblock)
    ensures PhaseAfter(z, c, doc, version, answer) == Replied(Success) <==> c.stage == Done
  {
  }

  lemma PhaseNotStored(z: Codec, c: Context, doc: Option<Doc>, version: nat, answer: Answer)
    requires c.phase.Running? && (answer.Refuse? ==> answer.e != Success && answer.e != Ewouldblock)
    ensures PhaseAfter(z, c, doc, version, answer) == Replied(NotStored) <==> IsNotStored(c, doc, answer)
  {
  }

  lemma PhaseKeyEexists(z: Codec, c: Context, doc: Option<Doc>, version: nat, answer: Answer)
    requires c.phase.Running? && (answer.Refuse? ==> answer.e != Success && answer.e != Ewouldblock)
    ensures PhaseAfter(z, c, doc, version, answer) == Replied(KeyEexists) <==> IsKeyEexists(c, doc, version, answer)
  {
  }

  lemma PhaseFailed(z: Codec, c: Context, doc: Option<Doc>, version: nat, answer: Answer)
    requires c.phase.Running? && (answer.Refuse? ==> answer.e != Success && answer.e != Ewouldblock)
    ensures PhaseAfter(z, c, doc, version, answer) == Replied(Failed) <==> IsFailed(z, c, doc, version, answer)
  {
  }

  lemma PhaseEinval(z: Codec, c: Context, doc: Option<Doc>, version: nat, answer: Answer)
    requires c.phase.Running? && (answer.Refuse? ==> answer.e != Success && answer.e != Ewouldblock)
    ensures PhaseAfter(z, c, doc, version, answer) == Replied(Einval) <==> IsEinval(z, c, answer)
  {
  }

  lemma PhaseEnomem(z: Codec, c: Context, doc: Option<Doc>, version: nat, answer: Answer)
    requires c.phase.Running? && (answer.Refuse? ==> answer.e != Success && answer.e != Ewouldblock)
    ensures PhaseAfter(z, c, doc, version, answer) == Replied(Enomem) <==> IsEnomem(c, doc, answer)
  {
  }

  lemma PhasePassedOn(z: Codec, c: Context, doc: Option<Doc>, version: nat, answer: Answer, e: Status)
    requires c.phase.Running? && (answer.Refuse? ==> answer.e != Success && answer.e != Ewouldblock)
    requires e == Tmpfail || e == Disconnect
    ensures PhaseAfter(z, c, doc, version, answer) == Replied(e) <==> Refused(c, answer, e)
  {
  }

  lemma PhaseWaits(z: Codec, c: Context, doc: Option<Doc>, version: nat, answer: Answer)
    requires c.phase.Running? && (answer.Refuse? ==> answer.e != Success && answer.e != Ewouldblock)
    ensures PhaseAfter(z, c, doc, version, answer) != Replied(KeyEnoent)
    ensures PhaseAfter(z, c, doc, version, answer) == Blocked <==> Calling(c) && answer == Block
  {
  }

  /** Which status a command reports, exactly when; it waits exactly if the engine would block. */
  lemma ReportedExactly(z: Codec, s: State, id: nat, answer: Answer)
    requires WellFormed(s) && Enabled(s, Exec(id, answer))
    ensures var c, phase := s.contexts[id], ExecStep(z, s, id, answer).contexts[id].phase;
            var doc, version := DocOf(s, c), VersionOf(s, c);
            && phase != Replied(KeyEnoent)
            && (phase == Replied(Success) <==> c.stage == Done)
            && (phase == Replied(NotStored) <==> IsNotStored(c, doc, answer))
            && (phase == Replied(KeyEexists) <==> IsKeyEexists(c, doc, version, answer))
            && (phase == Replied(Einval) <==> IsEinval(z, c, answer))
            && (phase == Replied(Enomem) <==> IsEnomem(c, doc, answer))
            && (phase == Replied(Failed) <==> IsFailed(z, c, doc, version, answer))
            && (phase == Replied(Tmpfail) <==> Refused(c, answer, Tmpfail))
            && (phase == Replied(Disconnect) <==> Refused(c, answer, Disconnect))
            && (phase == Blocked <==> Calling(c) && answer == Block)
  {
    var c := s.contexts[id];
    PhaseIs(z, s, id, answer);
    PhaseEnds(z, c, DocOf(s, c), VersionOf(s, c), answer);
    PhaseNotStored(z, c, DocOf(s, c), VersionOf(s, c), answer);
    PhaseKeyEexists(z, c, DocOf(s, c), VersionOf(s, c), answer);
    PhaseFailed(z, c, DocOf(s, c), VersionOf(s, c), answer);
    PhaseEinval(z, c, DocOf(s, c), VersionOf(s, c), answer);
    PhaseEnomem(z, c, DocOf(s, c), VersionOf(s, c), answer);
    PhasePassedOn(z, c, DocOf(s, c), VersionOf(s, c), answer, Tmpfail);
    PhasePassedOn(z, c, DocOf(s, c), VersionOf(s, c), answer, Disconnect);
    PhaseWaits(z, c, DocOf(s, c), VersionOf(s, c), answer);
  }

  /** A command that was waiting goes on where it stopped, or reports the error it was woken with. */
  lemma ResumedReports(z: Codec, s: State, id: nat, aiostat: Status)
    requires WellFormed(s) && Enabled(s, Resume(id, aiostat))
    ensures var c, s' := s.contexts[id], Next(z, s, Resume(id, aiostat));
            && s'.docs == s.docs && s'.log == s.log && s'.items == s.items
            && (aiostat == Success ==> s'.contexts[id] == c.(phase := Running))
            && (aiostat == KeyEnoent ==> s'.contexts[id] == c.(phase := Replied(NotStored)))
            && (aiostat != Success && aiostat != KeyEnoent ==> s'.contexts[id] == c.(phase := Replied(aiostat)))
  {
  }

  // ----- an update left alone -----

  /** The client of context `id` asks for this. */
  ghost predicate Asks(c: Context, mode: Mode, key: Key, value: seq<byte>, cas: nat) {
    c.mode == mode && c.key == key && c.value == value && c.cas == cas && c.phase.Running? && !c.stored
  }

  /** A context that has just begun, and has inflated its request if it had to. */
  lemma BeginAlone(z: Codec, s: State, id: nat, mode: Mode, key: Key, request: seq<byte>, compressed: bool, cas: nat,
                   extras: bool)
    returns (s': State)
    requires Reachable(z, s) && id !in s.contexts && (compressed ==> z(request).Some?)
    ensures Reachable(z, s') && id in s'.contexts && s'.contexts[id].stage == GetItem
    ensures Asks(s'.contexts[id], mode, key, if compressed then z(request).value else request, cas)
    ensures s'.docs == s.docs && s'.log == s.log && s'.nextCas == s.nextCas
  {
    s' := Go(z, s, Begin(id, mode, key, request, compressed, cas, extras));
    if compressed {
      s' := Go(z, s', Exec(id, Proceed));
    }
  }

  lemma FetchAlone(z: Codec, s: State, id: nat) returns (s': State)
    requires Reachable(z, s) && id in s.contexts && s.contexts[id].stage == GetItem && s.contexts[id].phase.Running?
    requires var c := s.contexts[id];
             && c.key in s.docs && (c.cas == 0 || c.cas == s.docs[c.key].cas)
             && (s.docs[c.key].compressed ==> z(s.docs[c.key].value).Some?)
    ensures Reachable(z, s') && id in s'.contexts && s'.contexts[id].stage == AllocateNewItem
    ensures var c, c' := s.contexts[id], s'.contexts[id];
            && Asks(c', c.mode, c.key, c.value, c.cas)
            && c'.oldItem.Some? && c'.oldItem.value in s'.items && s'.items[c'.oldItem.value].doc == s.docs[c.key]
    ensures s'.docs == s.docs && s'.log == s.log && s'.nextCas == s.nextCas
  {
    ReachableHasInv(z, s);
    assert ContextInv(z, s, id);
    s' := Go(z, s, Exec(id, Proceed));
  }

  lemma BuildAlone(z: Codec, s: State, id: nat) returns (s': State)
    requires Reachable(z, s) && id in s.contexts && s.contexts[id].stage == AllocateNewItem
    requires s.contexts[id].phase.Running?
    requires var c := s.contexts[id];
             && c.key in s.docs && c.oldItem.Some? && c.oldItem.value in s.items
             && s.items[c.oldItem.value].doc == s.docs[c.key]
    ensures Reachable(z, s') && Stores(s', id)
    ensures var c := s.contexts[id]; Asks(s'.contexts[id], c.mode, c.key, c.value, c.cas)
    ensures s'.docs == s.docs && s'.log == s.log && s'.nextCas == s.nextCas
  {
    ReachableHasInv(z, s);
    assert ContextInv(z, s, id);
    s' := Go(z, s, Exec(id, Proceed));
  }

  lemma StoreAlone(z: Codec, s: State, id: nat) returns (s': State)
    requires Reachable(z, s) && Stores(s, id)
    ensures Reachable(z, s') && id in s'.contexts && s'.contexts[id].phase == Replied(Success)
    ensures var c := s.contexts[id];
            && s'.docs.Keys == s.docs.Keys && s'.docs == s.docs[c.key := s'.docs[c.key]]
            && s'.log == s.log + [Applied(id, c.key, c.mode, c.value, s.docs[c.key].cas)]
            && s'.docs[c.key].cas == s.nextCas && !s'.docs[c.key].compressed
            && (Readable(z, s.docs[c.key].value, s.docs[c.key].compressed) ==>
                Content(z, s.docs[c.key]).Some? &&
                s'.docs[c.key].value == if c.mode == Append then Content(z, s.docs[c.key]).value + c.value
                                        else c.value + Content(z, s.docs[c.key]).value)
  {
    ReachableHasInv(z, s);
    StoreIsSplice(z, s, id, Proceed);
    s' := Go(z, s, Exec(id, Proceed));
    s' := Go(z, s', Exec(id, Proceed));
  }

  /** An update left alone puts its bytes behind or in front of the content, and says so. */
  lemma UpdateAlone(z: Codec, s: State, id: nat, mode: Mode, key: Key, request: seq<byte>, compressed: bool, cas: nat,
                    extras: bool)
    returns (s': State)
    requires Reachable(z, s) && id !in s.contexts && key in s.docs && (cas == 0 || cas == s.docs[key].cas)
    requires compressed ==> z(request).Some?
    requires s.docs[key].compressed ==> z(s.docs[key].value).Some? && z(s.docs[key].value) != Some([])
    ensures Reachable(z, s') && id in s'.contexts && s'.contexts[id].phase == Replied(Success)
    ensures var old', new' := if s.docs[key].compressed then z(s.docs[key].value).value else s.docs[key].value,
                              if compressed then z(request).value else request;
            && s'.docs == s.docs[key := Doc(if mode == Append then old' + new' else new' + old', false, s.nextCas)]
            && s'.log == s.log + [Applied(id, key, mode, new', s.docs[key].cas)]
  {
    var s1 := BeginAlone(z, s, id, mode, key, request, compressed, cas, extras);
    var s2 := FetchAlone(z, s1, id);
    var s3 := BuildAlone(z, s2, id);
    s' := StoreAlone(z, s3, id);
  }

  /** Blocking and being woken without an error brings a context back to where it was. */
  lemma WaitAlone(z: Codec, s: State, id: nat) returns (waiting: State)
    requires Reachable(z, s) && id in s.contexts && s.contexts[id].phase.Running? && Calling(s.contexts[id])
    ensures Reachable(z, waiting) && id in waiting.contexts && waiting.contexts[id].phase == Blocked
    ensures Enabled(waiting, Resume(id, Success)) && WellFormed(waiting) && Next(z, waiting, Resume(id, Success)) == s
  {
    waiting := Go(z, s, Exec(id, Block));
    var s' := Go(z, waiting, Resume(id, Success));
    assert s'.contexts == s.contexts;
  }

  /** A context that waits or has replied can be destroyed, and has given everything back then. */
  lemma DestroyAlone(z: Codec, s: State, id: nat) returns (s': State)
    requires Reachable(z, s) && id in s.contexts && (s.contexts[id].phase.Blocked? || s.contexts[id].phase.Replied?)
    ensures Reachable(z, s') && id in s'.contexts && s'.contexts[id].phase == Destroyed
    ensures s'.docs == s.docs && s'.log == s.log
    ensures forall n | n in s'.items && s'.items[n].owner == id :: n in s'.releases
  {
    s' := Go(z, s, Delete(id));
    var ss :| Run(z, ss) && Last(ss) == s';
    ItemsReleasedOnce(z, ss, |ss| - 1, id);
  }

  /** Prepending 8 to a document that is 9. */
  lemma PrependRun() returns (ss: seq<State>)
    ensures Run(EmptyIsZero, ss) && "k" in Last(ss).docs && Last(ss).docs["k"].value == [8, 9]
    ensures 7 in Last(ss).contexts && Last(ss).contexts[7].phase == Replied(Success)
  {
    var s := Start(EmptyIsZero);
    s := Go(EmptyIsZero, s, OtherWrite("k", [9], false));
    s := UpdateAlone(EmptyIsZero, s, 7, Prepend, "k", [8], false, 0, false);
    ss :| Run(EmptyIsZero, ss) && Last(ss) == s;
  }
}
