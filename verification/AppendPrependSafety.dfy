/** Linearizability and resource discipline of append and prepend over every run. */
module AppendPrependSafety {
  import opened Basics
  import opened AppendPrepend

  // ----- the reference: replaying the log -----

  /** A document without its version. */
  datatype View = View(value: seq<byte>, compressed: bool)

  function ViewOf(d: Doc): View {
    View(d.value, d.compressed)
  }

  ghost function Views(docs: map<Key, Doc>): map<Key, View> {
    map k | k in docs :: ViewOf(docs[k])
  }

  /** The documents that result from doing every logged update, in order, to what the documents mean. */
  ghost function Replay(z: Codec, log: seq<Event>): map<Key, View> {
    if log == [] then map[]
    else
      var m := Replay(z, log[..|log| - 1]);
      match log[|log| - 1]
      case Applied(_, key, mode, fragment, _) =>
        if key !in m then m
        else
          var content := Meaning(z, m[key]);
          if content.None? then m
          else if mode == Append then m[key := View(content.value + fragment, false)]
          else m[key := View(fragment + content.value, false)]
      case Wrote(key, value, compressed) => m[key := View(value, compressed)]
      case Removed(key) => m - {key}
  }

  function Meaning(z: Codec, v: View): Option<seq<byte>> {
    if v.compressed then z(v.value) else Some(v.value)
  }

  /** What a context takes for the old bytes: the inflated copy only if it is not empty. */
  function Taken(z: Codec, v: View): seq<byte> {
    if v.compressed && Meaning(z, v).Some? && Meaning(z, v).value != [] then Meaning(z, v).value else v.value
  }

  /** The documents that result from the same updates as the contexts do them. */
  ghost function Actual(z: Codec, log: seq<Event>): map<Key, View> {
    if log == [] then map[]
    else
      var m := Actual(z, log[..|log| - 1]);
      match log[|log| - 1]
      case Applied(_, key, mode, fragment, _) =>
        if key !in m || Meaning(z, m[key]).None? then m
        else if mode == Append then m[key := View(Taken(z, m[key]) + fragment, false)]
        else m[key := View(fragment + Taken(z, m[key]), false)]
      case Wrote(key, value, compressed) => m[key := View(value, compressed)]
      case Removed(key) => m - {key}
  }

  /** How often context `id` has updated a document. */
  ghost function Applications(log: seq<Event>, id: nat): nat {
    if log == [] then 0
    else
      Applications(log[..|log| - 1], id) + if log[|log| - 1].Applied? && log[|log| - 1].id == id then 1 else 0
  }

  /** The one kind of document the context misreads: compressed, not empty, but inflating to nothing. */
  predicate Readable(z: Codec, value: seq<byte>, compressed: bool) {
    compressed && value != [] ==> z(value) != Some([])
  }

  /** Since the document was last written or removed, no update has misread it. */
  ghost predicate ReadWell(z: Codec, log: seq<Event>, k: Key) {
    log != [] ==>
      var before := log[..|log| - 1];
      match log[|log| - 1]
      case Applied(_, key, _, _, _) =>
        && ReadWell(z, before, k)
        && (key == k && k in Actual(z, before) ==>
             Readable(z, Actual(z, before)[k].value, Actual(z, before)[k].compressed))
      case Wrote(key, _, _) => key == k || ReadWell(z, before, k)
      case Removed(key) => key == k || ReadWell(z, before, k)
  }

  /** How the two replays of document `k` compare. */
  ghost predicate Compares(z: Codec, log: seq<Event>, k: Key) {
    var r, a := Replay(z, log), Actual(z, log);
    && (k in r <==> k in a)
    && (k in r ==> if ReadWell(z, log, k) then a[k] == r[k]
                   else !a[k].compressed && !r[k].compressed && |a[k].value| > |r[k].value|)
  }

  lemma {:induction false} ReplaysCompare(z: Codec, log: seq<Event>, k: Key)
    ensures Compares(z, log, k)
  {
    if log != [] {
      ReplaysCompare(z, log[..|log| - 1], k);
    }
  }

  // ----- the invariant -----

  predicate Active(c: Context) {
    c.phase.Running? || c.phase.Blocked?
  }

  /** Which items and copies a context holds in each stage. */
  predicate ShapeInv(c: Context) {
    && (c.phase.Destroyed? ==> c.oldItem == None && c.newItem == None)
    && (Active(c) ==>
          match c.stage
          case InflateInputData => c.oldItem == None && c.newItem == None && c.buffer == [] && c.compressedRequest
          case GetItem => c.oldItem == None && c.newItem == None && c.buffer == []
          case AllocateNewItem => c.oldItem.Some? && c.newItem == None
          case StoreItem => c.oldItem.Some? && c.newItem.Some?
          case Reset => false
          case Done => c.phase.Running?)
  }

  predicate OutcomeInv(z: Codec, c: Context) {
    && (Active(c) ==> (c.stored <==> c.stage == Done))
    && (Active(c) && c.stage != InflateInputData ==> Fragment(z, c) == Some(c.value))
    && (c.phase == Replied(Success) ==> c.stored)
    && (c.phase.Replied? && c.stored ==> c.phase.status == Success || (c.phase.status == Failed && c.mutationExtras))
  }

  ghost predicate HoldsInv(s: State, id: nat, c: Context) {
    && (c.oldItem.Some? ==> Holds(s, id, c.oldItem.value))
    && (c.newItem.Some? ==> Holds(s, id, c.newItem.value))
    && (c.oldItem.Some? && c.newItem.Some? ==> c.oldItem != c.newItem)
  }

  /** Item `n` was given to context `id` and has not been released. */
  ghost predicate Holds(s: State, id: nat, n: nat) {
    n in s.items && s.items[n].owner == id && n !in s.releases
  }

  /** What a context between get and store knows about the document it fetched. */
  ghost predicate FetchedInv(z: Codec, s: State, c: Context)
    requires c.oldItem.Some? && c.oldItem.value in s.items
  {
    var d := s.items[c.oldItem.value].doc;
    && d.cas < s.nextCas && (c.cas == 0 || c.cas == d.cas)
    && (c.key in s.docs && s.docs[c.key].cas == d.cas ==> s.docs[c.key] == d)
    && Content(z, d).Some? && c.buffer == (if d.compressed then Content(z, d).value else [])
  }

  ghost predicate ContextInv(z: Codec, s: State, id: nat)
    requires id in s.contexts
  {
    var c := s.contexts[id];
    && ShapeInv(c) && OutcomeInv(z, c) && HoldsInv(s, id, c)
    && (Active(c) && (c.stage == AllocateNewItem || c.stage == StoreItem) ==> FetchedInv(z, s, c))
    && (Active(c) && c.stage == StoreItem ==>
          var d := s.items[c.oldItem.value].doc;
          s.items[c.newItem.value].doc == Doc(Splice(c.mode, Source(c, d), c.value), false, d.cas))
    && Applications(s.log, id) == if c.stored then 1 else 0
  }

  ghost predicate ItemsInv(s: State) {
    && (forall n | n in s.items :: n < s.nextItem)
    && (forall n | n in s.releases :: n in s.items)
    && NoDuplicates(s.releases)
    && (forall n | n in s.items && n !in s.releases ::
          && s.items[n].owner in s.contexts
          && Some(n) in {s.contexts[s.items[n].owner].oldItem, s.contexts[s.items[n].owner].newItem})
  }

  /** The logged update is the one the context was asked for. */
  predicate AsRequested(z: Codec, c: Context, e: Event)
    requires e.Applied?
  {
    e.key == c.key && e.mode == c.mode && Fragment(z, c) == Some(e.fragment) && (c.cas == 0 || c.cas == e.version)
  }

  predicate SameRequest(c: Context, c': Context) {
    && c.mode == c'.mode && c.key == c'.key && c.request == c'.request
    && c.compressedRequest == c'.compressedRequest && c.cas == c'.cas && c.mutationExtras == c'.mutationExtras
  }

  ghost predicate RequestsInv(z: Codec, contexts: map<nat, Context>, log: seq<Event>) {
    forall i :: 0 <= i < |log| && log[i].Applied? ==>
      log[i].id in contexts && AsRequested(z, contexts[log[i].id], log[i])
  }

  ghost predicate DocsInv(z: Codec, docs: map<Key, Doc>, nextCas: nat, log: seq<Event>) {
    && (forall k | k in docs :: docs[k].cas < nextCas)
    && Views(docs) == Actual(z, log)
  }

  ghost predicate Inv(z: Codec, s: State) {
    && (forall id | id in s.contexts :: ContextInv(z, s, id))
    && ItemsInv(s) && RequestsInv(z, s.contexts, s.log) && DocsInv(z, s.docs, s.nextCas, s.log)
  }

  // ----- preservation -----

  /** A step as every context other than `id` sees it. */
  ghost predicate AsideFrom(s: State, s': State, id: nat) {
    && (forall o | o in s.contexts && o != id :: o in s'.contexts && s'.contexts[o] == s.contexts[o])
    && (forall n | n in s.items :: n in s'.items && s'.items[n] == s.items[n])
    && (forall n | n in s'.releases && n !in s.releases :: n in s.items && s.items[n].owner == id)
    && s.nextCas <= s'.nextCas
    && (forall k | k in s'.docs :: s'.docs[k].cas >= s.nextCas || (k in s.docs && s'.docs[k] == s.docs[k]))
    && (|| s'.log == s.log
        || (|s'.log| == |s.log| + 1 && s'.log[..|s.log|] == s.log
             && (s'.log[|s.log|].Applied? ==> s'.log[|s.log|].id == id)))
  }

  lemma OthersKept(z: Codec, s: State, s': State, id: nat, o: nat)
    requires AsideFrom(s, s', id) && o in s.contexts && o != id && ContextInv(z, s, o)
    ensures o in s'.contexts && ContextInv(z, s', o)
  {
    assert Applications(s'.log, o) == Applications(s.log, o);
  }

  lemma RequestsKept(z: Codec, contexts: map<nat, Context>, log: seq<Event>, id: nat, c: Context)
    requires RequestsInv(z, contexts, log) && (id in contexts ==> SameRequest(contexts[id], c))
    ensures RequestsInv(z, contexts[id := c], log)
  {
  }

  lemma OthersAllKept(z: Codec, s: State, s': State, id: nat)
    requires (forall o | o in s.contexts :: ContextInv(z, s, o)) && AsideFrom(s, s', id)
    requires id in s'.contexts && s'.contexts.Keys == s.contexts.Keys + {id} && ContextInv(z, s', id)
    ensures forall o | o in s'.contexts :: ContextInv(z, s', o)
  {
    forall o | o in s'.contexts ensures ContextInv(z, s', o) {
      if o != id {
        OthersKept(z, s, s', id, o);
      }
    }
  }

  lemma ApplicationsAppend(log: seq<Event>, e: Event, id: nat)
    ensures Applications(log + [e], id) == Applications(log, id) + if e.Applied? && e.id == id then 1 else 0
  {
    assert (log + [e])[..|log|] == log;
  }

  /** Only the context changes: no document, item or log entry does. */
  ghost predicate ContextOnly(s: State, s': State, id: nat, c: Context) {
    && id in s.contexts && s' == s.(contexts := s.contexts[id := c])
    && SameHoldings(s.contexts[id], c)
  }

  ghost predicate GoodUpdate(z: Codec, before: Context, c: Context) {
    && ShapeInv(c) && OutcomeInv(z, c)
    && (Active(c) && c.stage in {AllocateNewItem, StoreItem} ==> Active(before) && c == before.(phase := c.phase))
  }

  lemma ContextOnlyKeepsContext(z: Codec, s: State, s': State, id: nat, c: Context)
    requires ContextOnly(s, s', id, c) && ContextInv(z, s, id) && GoodUpdate(z, s.contexts[id], c)
    ensures ContextInv(z, s', id)
  {
  }

  lemma ContextOnlyKeepsInv(z: Codec, s: State, s': State, id: nat, c: Context)
    requires Inv(z, s) && ContextOnly(s, s', id, c) && GoodUpdate(z, s.contexts[id], c)
    ensures Inv(z, s')
  {
    ContextOnlyKeepsContext(z, s, s', id, c);
    RequestsKept(z, s.contexts, s.log, id, c);
    OthersAllKept(z, s, s', id);
  }

  lemma NoApplicationsYet(log: seq<Event>, id: nat)
    requires forall i :: 0 <= i < |log| && log[i].Applied? ==> log[i].id != id
    ensures Applications(log, id) == 0
  {
  }

  lemma BeginKeepsInv(z: Codec, s: State, a: Action)
    requires Inv(z, s) && WellFormed(s) && a.Begin? && Enabled(s, a)
    ensures Inv(z, Next(z, s, a))
  {
    var s' := Next(z, s, a);
    NoApplicationsYet(s.log, a.id);
    OthersAllKept(z, s, s', a.id);
  }

  lemma DeleteKeepsItems(z: Codec, s: State, id: nat)
    requires ItemsInv(s) && WellFormed(s) && Enabled(s, Delete(id)) && ContextInv(z, s, id)
    ensures ItemsInv(Next(z, s, Delete(id)))
  {
    assert HoldsInv(s, id, s.contexts[id]);
  }

  lemma DeleteKeepsContext(z: Codec, s: State, id: nat)
    requires WellFormed(s) && Enabled(s, Delete(id)) && ContextInv(z, s, id)
    ensures ContextInv(z, Next(z, s, Delete(id)), id) && AsideFrom(s, Next(z, s, Delete(id)), id)
    ensures SameRequest(s.contexts[id], Next(z, s, Delete(id)).contexts[id])
  {
  }

  lemma DeleteKeepsInv(z: Codec, s: State, id: nat)
    requires Inv(z, s) && WellFormed(s) && Enabled(s, Delete(id))
    ensures Inv(z, Next(z, s, Delete(id)))
  {
    var s' := Next(z, s, Delete(id));
    DeleteKeepsItems(z, s, id);
    DeleteKeepsContext(z, s, id);
    RequestsKept(z, s.contexts, s.log, id, s'.contexts[id]);
    OthersAllKept(z, s, s', id);
  }

  ghost predicate Fetching(s: State, id: nat) {
    && id in s.contexts && s.contexts[id].phase.Running? && s.contexts[id].stage.GetItem?
    && s.contexts[id].oldItem == None && s.contexts[id].newItem == None && s.contexts[id].key in s.docs
  }

  lemma GetKeepsItems(z: Codec, s: State, id: nat, answer: Answer)
    requires ItemsInv(s) && Fetching(s, id)
    ensures ItemsInv(GetStep(z, s, id, s.contexts[id], answer))
  {
  }

  /** A context that has fetched `d` either goes on with all it needs to know about it, or is over. */
  lemma FetchedShape(z: Codec, c: Context, n: nat, d: Doc, answer: Answer)
    requires ShapeInv(c) && OutcomeInv(z, c) && c.phase.Running? && c.stage.GetItem?
    ensures var f := Fetched(z, c, n, d, answer);
            && ShapeInv(f) && OutcomeInv(z, f) && f.oldItem == Some(n) && f.newItem == None && f.stored == c.stored
            && SameRequest(c, f)
            && (Active(f) ==> && f.stage == AllocateNewItem && (f.cas == 0 || f.cas == d.cas) && Content(z, d).Some?
                              && f.buffer == if d.compressed then Content(z, d).value else [])
  {
  }

  lemma GetKeepsContext(z: Codec, s: State, id: nat, answer: Answer)
    requires ItemsInv(s) && Fetching(s, id) && s.docs[s.contexts[id].key].cas < s.nextCas && ContextInv(z, s, id)
    ensures ContextInv(z, GetStep(z, s, id, s.contexts[id], answer), id)
  {
    var c := s.contexts[id];
    FetchedShape(z, c, s.nextItem, s.docs[c.key], answer);
    assert s.nextItem !in s.items && s.nextItem !in s.releases;
  }

  lemma NewItemIsLocal(s: State, d: Doc, id: nat, c: Context)
    requires ItemsInv(s) && id in s.contexts
    ensures AsideFrom(s, SetContext(NewItem(s, d, id), id, c), id)
  {
  }

  lemma GetKeepsInv(z: Codec, s: State, id: nat, answer: Answer)
    requires Inv(z, s) && Fetching(s, id)
    ensures Inv(z, GetStep(z, s, id, s.contexts[id], answer))
  {
    var s' := GetStep(z, s, id, s.contexts[id], answer);
    GetKeepsItems(z, s, id, answer);
    GetKeepsContext(z, s, id, answer);
    var c := s.contexts[id];
    NewItemIsLocal(s, s.docs[c.key], id, s'.contexts[id]);
    assert ContextInv(z, s, id);
    FetchedShape(z, c, s.nextItem, s.docs[c.key], answer);
    RequestsKept(z, s.contexts, s.log, id, s'.contexts[id]);
    OthersAllKept(z, s, s', id);
  }

  ghost predicate Allocating(s: State, id: nat) {
    && id in s.contexts && s.contexts[id].phase.Running? && s.contexts[id].stage.AllocateNewItem?
    && s.contexts[id].oldItem.Some? && s.contexts[id].oldItem.value in s.items && s.contexts[id].newItem == None
  }

  lemma AllocateKeepsItems(s: State, id: nat, answer: Answer)
    requires ItemsInv(s) && Allocating(s, id)
    ensures ItemsInv(AllocateStep(s, id, s.contexts[id], answer))
  {
  }

  lemma AllocateKeepsContext(z: Codec, s: State, id: nat, answer: Answer)
    requires ItemsInv(s) && Allocating(s, id) && ContextInv(z, s, id)
    ensures ContextInv(z, AllocateStep(s, id, s.contexts[id], answer), id)
  {
  }

  lemma AllocateKeepsInv(z: Codec, s: State, id: nat, answer: Answer)
    requires Inv(z, s) && Allocating(s, id)
    ensures Inv(z, AllocateStep(s, id, s.contexts[id], answer))
  {
    AllocateKeepsItems(s, id, answer);
    AllocateKeepsContext(z, s, id, answer);
    var s' := AllocateStep(s, id, s.contexts[id], answer);
    RequestsKept(z, s.contexts, s.log, id, s'.contexts[id]);
    OthersAllKept(z, s, s', id);
  }

  /** The bytes the new document is built from are the content of the old one, exactly when it is readable. */
  lemma SourceIsContent(z: Codec, c: Context, d: Doc)
    requires Content(z, d).Some? && c.buffer == (if d.compressed then Content(z, d).value else [])
    ensures Source(c, d) == Content(z, d).value <==> Readable(z, d.value, d.compressed)
  {
  }

  /** The context's store goes through. */
  ghost predicate Stores(s: State, id: nat) {
    && id in s.contexts && s.contexts[id].phase.Running? && s.contexts[id].stage.StoreItem?
    && s.contexts[id].newItem.Some? && s.contexts[id].newItem.value in s.items
    && s.contexts[id].key in s.docs
    && s.docs[s.contexts[id].key].cas == s.items[s.contexts[id].newItem.value].doc.cas
  }

  /** A store that goes through splices the fragment onto the document of that moment. */
  lemma StoreIsSplice(z: Codec, s: State, id: nat, answer: Answer)
    requires Inv(z, s) && Stores(s, id)
    ensures var c := s.contexts[id];
            var s' := StoreStep(s, id, c, answer);
            var d := s.docs[c.key];
            && Content(z, d).Some? && Fragment(z, c) == Some(c.value) && (c.cas == 0 || c.cas == d.cas)
            && c.key in s'.docs && !s'.docs[c.key].compressed
            && s'.docs == s.docs[c.key := s'.docs[c.key]]
            && s'.log == s.log + [Applied(id, c.key, c.mode, c.value, d.cas)]
            && s'.docs[c.key].value == (if c.mode == Append then Taken(z, ViewOf(d)) + c.value
                                        else c.value + Taken(z, ViewOf(d)))
            && (Readable(z, d.value, d.compressed) <==>
                s'.docs[c.key].value == if c.mode == Append then Content(z, d).value + c.value
                                        else c.value + Content(z, d).value)
            && s'.docs[c.key].cas == s.nextCas && s'.nextCas == s.nextCas + 1
  {
    var c := s.contexts[id];
    assert ContextInv(z, s, id);
    SourceIsContent(z, c, s.docs[c.key]);
    var d := s.docs[c.key];
    if c.mode == Append {
      assert |Source(c, d) + c.value| == |Source(c, d)| + |c.value|;
      assert (Source(c, d) + c.value)[..|Source(c, d)|] == Source(c, d);
      assert (Content(z, d).value + c.value)[..|Content(z, d).value|] == Content(z, d).value;
    } else {
      assert (c.value + Source(c, d))[|c.value|..] == Source(c, d);
      assert (c.value + Content(z, d).value)[|c.value|..] == Content(z, d).value;
    }
  }

  lemma StoreKeepsDocs(z: Codec, s: State, id: nat, answer: Answer)
    requires Inv(z, s) && Stores(s, id)
    ensures var s' := StoreStep(s, id, s.contexts[id], answer); DocsInv(z, s'.docs, s'.nextCas, s'.log)
  {
    var c := s.contexts[id];
    var s' := StoreStep(s, id, c, answer);
    StoreIsSplice(z, s, id, answer);
    assert s'.log[..|s'.log| - 1] == s.log;
    assert Views(s.docs)[c.key] == ViewOf(s.docs[c.key]);
    assert Views(s'.docs) == Views(s.docs)[c.key := ViewOf(s'.docs[c.key])];
  }

  lemma StoreKeepsContext(z: Codec, s: State, id: nat, answer: Answer)
    requires Stores(s, id) && ContextInv(z, s, id)
    ensures ContextInv(z, StoreStep(s, id, s.contexts[id], answer), id)
  {
    var d := s.items[s.contexts[id].newItem.value].doc;
    ApplicationsAppend(s.log, Applied(id, s.contexts[id].key, s.contexts[id].mode, s.contexts[id].value, d.cas), id);
  }

  lemma StoreKeepsItems(s: State, id: nat, answer: Answer)
    requires ItemsInv(s) && Stores(s, id)
    ensures ItemsInv(StoreStep(s, id, s.contexts[id], answer))
  {
  }

  lemma StoreKeepsRequests(z: Codec, s: State, id: nat, answer: Answer)
    requires Inv(z, s) && Stores(s, id)
    ensures var s' := StoreStep(s, id, s.contexts[id], answer); RequestsInv(z, s'.contexts, s'.log)
  {
    var s' := StoreStep(s, id, s.contexts[id], answer);
    StoreIsSplice(z, s, id, answer);
    RequestsKept(z, s.contexts, s.log, id, s'.contexts[id]);
  }

  lemma StoreKeepsInv(z: Codec, s: State, id: nat, answer: Answer)
    requires Inv(z, s) && Stores(s, id)
    ensures Inv(z, StoreStep(s, id, s.contexts[id], answer))
  {
    StoreKeepsDocs(z, s, id, answer);
    StoreKeepsItems(s, id, answer);
    StoreKeepsContext(z, s, id, answer);
    var s' := StoreStep(s, id, s.contexts[id], answer);
    StoreKeepsRequests(z, s, id, answer);
    OthersAllKept(z, s, s', id);
  }

  lemma OtherKeepsDocs(z: Codec, s: State, a: Action)
    requires DocsInv(z, s.docs, s.nextCas, s.log) && WellFormed(s) && Enabled(s, a) && (a.OtherWrite? || a.OtherRemove?)
    ensures var s' := Next(z, s, a); DocsInv(z, s'.docs, s'.nextCas, s'.log)
  {
    var s' := Next(z, s, a);
    assert s'.log[..|s'.log| - 1] == s.log;
    assert s'.log[|s.log|] == s'.log[|s'.log| - 1];
    if a.OtherWrite? {
      assert Views(s'.docs) == Views(s.docs)[a.key := View(a.value, a.compressed)];
    } else {
      assert Views(s'.docs) == Views(s.docs) - {a.key};
    }
  }

  lemma OtherKeepsInv(z: Codec, s: State, a: Action)
    requires Inv(z, s) && WellFormed(s) && Enabled(s, a) && (a.OtherWrite? || a.OtherRemove?)
    ensures Inv(z, Next(z, s, a))
  {
    var s' := Next(z, s, a);
    OtherKeepsDocs(z, s, a);
    assert s'.log[..|s.log|] == s.log;
    forall o | o in s'.contexts ensures ContextInv(z, s', o) {
      var nobody := o + 1;
      assert AsideFrom(s, s', nobody);
      OthersKept(z, s, s', nobody, o);
    }
  }

  /** The call of context `id` neither gets, allocates nor stores. */
  ghost predicate Quiet(s: State, id: nat, answer: Answer) {
    answer.Block? || answer.Refuse? ||
    (!Fetching(s, id) && id in s.contexts && s.contexts[id].stage != AllocateNewItem && !Stores(s, id))
  }

  /** What such a call does to the context. */
  ghost function Quieted(z: Codec, docs: map<Key, Doc>, c: Context, answer: Answer): Context {
    if c.stage.InflateInputData? then InflateStep(z, c, answer)
    else if c.stage.Done? then Reply(c, Success)
    else if answer.Block? then c.(phase := Blocked)
    else if answer.Refuse? then Reply(c, answer.e)
    else if c.key !in docs then Reply(c, KeyEnoent)
    else Reply(if c.cas == 0 then c.(stage := Reset) else c, KeyEexists)
  }

  lemma QuietStep(z: Codec, s: State, id: nat, answer: Answer)
    requires WellFormed(s) && Enabled(s, Exec(id, answer)) && ShapeInv(s.contexts[id]) && Quiet(s, id, answer)
    ensures ExecStep(z, s, id, answer) == SetContext(s, id, Quieted(z, s.docs, s.contexts[id], answer))
  {
  }

  /** The same request, items and history. */
  predicate SameHoldings(c: Context, c': Context) {
    c'.oldItem == c.oldItem && c'.newItem == c.newItem && c'.stored == c.stored && SameRequest(c, c')
  }

  lemma ReplyIsGood(z: Codec, c: Context, stage: Stage, e: Status)
    requires OutcomeInv(z, c) && Active(c) && (c.stage == Done <==> e == Success)
    ensures GoodUpdate(z, c, Reply(c.(stage := stage), e)) && SameHoldings(c, Reply(c.(stage := stage), e))
  {
  }

  lemma QuietedIsGood(z: Codec, docs: map<Key, Doc>, c: Context, answer: Answer)
    requires ShapeInv(c) && OutcomeInv(z, c) && c.phase.Running? && (answer.Refuse? ==> answer.e != Success)
    ensures GoodUpdate(z, c, Quieted(z, docs, c, answer)) && SameHoldings(c, Quieted(z, docs, c, answer))
  {
    if c.stage.InflateInputData? {
      if answer.OutOfMemory? || z(c.request).None? {
        ReplyIsGood(z, c, c.stage, if answer.OutOfMemory? then Enomem else Einval);
      }
    } else if c.stage.Done? {
      ReplyIsGood(z, c, c.stage, Success);
    } else if answer.Refuse? {
      ReplyIsGood(z, c, c.stage, answer.e);
    } else if !answer.Block? {
      ReplyIsGood(z, c, c.stage, KeyEnoent);
      ReplyIsGood(z, c, if c.cas == 0 then Reset else c.stage, KeyEexists);
    }
  }

  lemma ExecKeepsInv(z: Codec, s: State, id: nat, answer: Answer)
    requires Inv(z, s) && WellFormed(s) && Enabled(s, Exec(id, answer))
    ensures Inv(z, ExecStep(z, s, id, answer))
  {
    var c := s.contexts[id];
    assert ContextInv(z, s, id);
    if Quiet(s, id, answer) {
      QuietStep(z, s, id, answer);
      QuietedIsGood(z, s.docs, c, answer);
      ContextOnlyKeepsInv(z, s, ExecStep(z, s, id, answer), id, Quieted(z, s.docs, c, answer));
    } else if c.stage.GetItem? {
      GetKeepsInv(z, s, id, answer);
    } else if c.stage.AllocateNewItem? {
      AllocateKeepsInv(z, s, id, answer);
    } else {
      StoreKeepsInv(z, s, id, answer);
    }
  }

  lemma ResumeKeepsInv(z: Codec, s: State, a: Action)
    requires Inv(z, s) && WellFormed(s) && a.Resume? && Enabled(s, a)
    ensures Inv(z, Next(z, s, a))
  {
    var c := s.contexts[a.id];
    assert ContextInv(z, s, a.id);
    if a.aiostat == Success {
      ContextOnlyKeepsInv(z, s, Next(z, s, a), a.id, c.(phase := Running));
    } else {
      ReplyIsGood(z, c, c.stage, a.aiostat);
      ContextOnlyKeepsInv(z, s, Next(z, s, a), a.id, Reply(c, a.aiostat));
    }
  }

  lemma NextKeepsInv(z: Codec, s: State, a: Action)
    requires Inv(z, s) && WellFormed(s) && Enabled(s, a)
    ensures Inv(z, Next(z, s, a))
  {
    match a
    case Begin(_, _, _, _, _, _, _) => BeginKeepsInv(z, s, a);
    case Exec(id, answer) => ExecKeepsInv(z, s, id, answer);
    case Resume(_, _) => ResumeKeepsInv(z, s, a);
    case Delete(id) => DeleteKeepsInv(z, s, id);
    case _ => OtherKeepsInv(z, s, a);
  }

  lemma InvIsWellFormed(z: Codec, s: State)
    requires Inv(z, s)
    ensures WellFormed(s)
  {
    forall id | id in s.contexts ensures ContextInv(z, s, id) {}
  }

  lemma MoveKeepsInv(z: Codec, s: State, s': State)
    requires Inv(z, s) && Moves(z, s, s')
    ensures Inv(z, s')
  {
    var a :| Enabled(s, a) && s' == Next(z, s, a);
    NextKeepsInv(z, s, a);
  }

  /** The invariant holds in every state of every run. */
  lemma {:induction false} RunHasInv(z: Codec, ss: seq<State>, i: nat)
    requires Run(z, ss) && i < |ss|
    ensures Inv(z, ss[i])
  {
    if i > 0 {
      RunHasInv(z, ss, i - 1);
      assert MovesAt(z, ss, i - 1);
      MoveKeepsInv(z, ss[i - 1], ss[i]);
    } else {
      assert Views(ss[0].docs) == map[];
    }
  }

  // ----- the theorems -----

  /**
   * No update is lost or done twice, whatever the interleaving: a document is
   * the replay of the log exactly if no update since its last write misread it.
   */
  lemma DocumentsAreReplay(z: Codec, ss: seq<State>, i: nat, k: Key)
    requires Run(z, ss) && i < |ss|
    ensures k in ss[i].docs <==> k in Replay(z, ss[i].log)
    ensures k in ss[i].docs ==> (ViewOf(ss[i].docs[k]) == Replay(z, ss[i].log)[k] <==> ReadWell(z, ss[i].log, k))
  {
    RunHasInv(z, ss, i);
    ReplaysCompare(z, ss[i].log, k);
    assert k in Views(ss[i].docs) <==> k in ss[i].docs;
  }

  /** If no compressed document that inflates to nothing is written, nothing is misread. */
  lemma {:induction false} ReadableLogReadsWell(z: Codec, log: seq<Event>, k: Key)
    requires forall i :: 0 <= i < |log| && log[i].Wrote? ==> Readable(z, log[i].value, log[i].compressed)
    ensures ReadWell(z, log, k)
    ensures k in Actual(z, log) ==> Readable(z, Actual(z, log)[k].value, Actual(z, log)[k].compressed)
  {
    if log != [] {
      ReadableLogReadsWell(z, log[..|log| - 1], k);
      assert log[|log| - 1].Wrote? ==> Readable(z, log[|log| - 1].value, log[|log| - 1].compressed);
    }
  }

  /** A reported success is exactly one logged update, and it is the requested one. */
  lemma RepliesMatchLog(z: Codec, ss: seq<State>, i: nat, id: nat)
    requires Run(z, ss) && i < |ss| && id in ss[i].contexts
    ensures Applications(ss[i].log, id) <= 1
    ensures ss[i].contexts[id].phase == Replied(Success) ==> Applications(ss[i].log, id) == 1
    ensures ss[i].contexts[id].phase.Replied? && ss[i].contexts[id].phase.status !in {Success, Failed} ==>
              Applications(ss[i].log, id) == 0
    ensures forall k :: 0 <= k < |ss[i].log| && ss[i].log[k].Applied? && ss[i].log[k].id == id ==>
              AsRequested(z, ss[i].contexts[id], ss[i].log[k])
  {
    RunHasInv(z, ss, i);
    assert ContextInv(z, ss[i], id);
  }

  /** The one way a stored update is reported as a failure: the lookup of its mutation token fails. */
  lemma StoredYetReportedFailed(z: Codec, s: State, id: nat, answer: Answer)
    requires Inv(z, s) && WellFormed(s) && Stores(s, id) && !answer.Block? && !answer.Refuse?
    ensures var c := ExecStep(z, s, id, answer).contexts[id];
            c.stored && (if answer == NoInfo && c.mutationExtras then c.phase == Replied(Failed)
                         else c.stage == Done && c.phase.Running?)
  {
    assert ContextInv(z, s, id);
  }

  /** At step `k` the store of context `id` goes through, and the lookup of its mutation token fails. */
  ghost predicate TokenLost(z: Codec, ss: seq<State>, k: nat, id: nat) {
    && k + 1 < |ss| && WellFormed(ss[k]) && Stores(ss[k], id) && ss[k].contexts[id].mutationExtras
    && Enabled(ss[k], Exec(id, NoInfo)) && ss[k + 1] == Next(z, ss[k], Exec(id, NoInfo))
  }

  ghost predicate TokenLostBefore(z: Codec, ss: seq<State>, i: nat, id: nat) {
    exists k: nat :: k < i && TokenLost(z, ss, k, id)
  }

  predicate FailedButStored(c: Context) {
    c.stored && c.phase == Replied(Failed)
  }

  predicate Concerns(a: Action, id: nat) {
    !a.OtherWrite? && !a.OtherRemove? && a.id == id
  }

  lemma OthersUntouched(z: Codec, s: State, a: Action, id: nat)
    requires WellFormed(s) && Enabled(s, a) && id in s.contexts && !Concerns(a, id)
    ensures id in Next(z, s, a).contexts && Next(z, s, a).contexts[id] == s.contexts[id]
  {
    if a.Exec? {
      ExecIsOwn(z, s, a.id, a.answer, id);
    }
  }

  lemma ExecIsOwn(z: Codec, s: State, id: nat, answer: Answer, o: nat)
    requires WellFormed(s) && Enabled(s, Exec(id, answer)) && o in s.contexts && o != id
    ensures o in ExecStep(z, s, id, answer).contexts && ExecStep(z, s, id, answer).contexts[o] == s.contexts[o]
  {
  }

  lemma ExecStores(z: Codec, s: State, id: nat, answer: Answer)
    requires Inv(z, s) && WellFormed(s) && Enabled(s, Exec(id, answer))
    ensures var c, c' := s.contexts[id], ExecStep(z, s, id, answer).contexts[id];
            FailedButStored(c') ==> answer == NoInfo && Stores(s, id) && c.mutationExtras
  {
    assert ContextInv(z, s, id);
    if Quiet(s, id, answer) {
      QuietStep(z, s, id, answer);
      QuietedIsGood(z, s.docs, s.contexts[id], answer);
    } else if Stores(s, id) {
      StoredYetReportedFailed(z, s, id, answer);
    }
  }

  lemma OwnStepStores(z: Codec, s: State, a: Action, id: nat)
    requires Inv(z, s) && WellFormed(s) && Enabled(s, a) && id in s.contexts && Concerns(a, id)
    ensures id in Next(z, s, a).contexts
    ensures FailedButStored(Next(z, s, a).contexts[id]) ==>
              a == Exec(id, NoInfo) && Stores(s, id) && s.contexts[id].mutationExtras
  {
    assert ContextInv(z, s, id);
    if a.Exec? {
      ExecStores(z, s, id, a.answer);
    }
  }

  lemma RunStep(z: Codec, ss: seq<State>, i: nat) returns (a: Action)
    requires Run(z, ss) && i + 1 < |ss|
    ensures Inv(z, ss[i]) && WellFormed(ss[i]) && Enabled(ss[i], a) && ss[i + 1] == Next(z, ss[i], a)
  {
    RunHasInv(z, ss, i);
    assert MovesAt(z, ss, i);
    a :| Enabled(ss[i], a) && ss[i + 1] == Next(z, ss[i], a);
  }

  lemma {:induction false} FailedBecause(z: Codec, ss: seq<State>, i: nat, id: nat)
    requires Run(z, ss) && i < |ss| && id in ss[i].contexts && FailedButStored(ss[i].contexts[id])
    ensures TokenLostBefore(z, ss, i, id)
  {
    if i > 0 {
      var a := RunStep(z, ss, i - 1);
      if id !in ss[i - 1].contexts {
        NotYetStored(z, ss[i - 1], a, id);
      } else if Concerns(a, id) {
        OwnStepStores(z, ss[i - 1], a, id);
        assert TokenLost(z, ss, i - 1, id);
      } else {
        OthersUntouched(z, ss[i - 1], a, id);
        FailedBecause(z, ss, i - 1, id);
      }
    }
  }

  lemma NotYetStored(z: Codec, s: State, a: Action, id: nat)
    requires WellFormed(s) && Enabled(s, a) && id !in s.contexts
    ensures id in Next(z, s, a).contexts ==> !Next(z, s, a).contexts[id].stored
  {
  }

  /** An update is in the log exactly if it was reported as done, or as FAILED because its token was lost. */
  lemma {:induction false} LoggedExactly(z: Codec, ss: seq<State>, i: nat, id: nat)
    requires Run(z, ss) && i < |ss| && id in ss[i].contexts && ss[i].contexts[id].phase.Replied?
    ensures Applications(ss[i].log, id) == 1 <==>
            ss[i].contexts[id].phase.status == Success || TokenLostBefore(z, ss, i, id)
    ensures TokenLostBefore(z, ss, i, id) ==>
              ss[i].contexts[id].phase.status == Failed && ss[i].contexts[id].mutationExtras
  {
    RunHasInv(z, ss, i);
    assert ContextInv(z, ss[i], id);
    if FailedButStored(ss[i].contexts[id]) {
      FailedBecause(z, ss, i, id);
    }
    if TokenLostBefore(z, ss, i, id) {
      var k: nat :| k < i && TokenLost(z, ss, k, id);
      RunHasInv(z, ss, k);
      StoredYetReportedFailed(z, ss[k], id, NoInfo);
      FailedStays(z, ss, k + 1, i, id);
    }
  }

  lemma {:induction false} FailedStays(z: Codec, ss: seq<State>, k: nat, i: nat, id: nat)
    requires Run(z, ss) && k <= i < |ss| && id in ss[k].contexts && FailedButStored(ss[k].contexts[id])
    requires ss[k].contexts[id].mutationExtras
    ensures id in ss[i].contexts && ss[i].contexts[id].stored && ss[i].contexts[id].mutationExtras
    ensures ss[i].contexts[id].phase.Destroyed? || FailedButStored(ss[i].contexts[id])
  {
    if k < i {
      FailedStays(z, ss, k, i - 1, id);
      var a := RunStep(z, ss, i - 1);
      if !Concerns(a, id) {
        OthersUntouched(z, ss[i - 1], a, id);
      }
    }
  }

  /** A call that does not store leaves every document and the log alone. */
  lemma RefusedLeavesDocuments(z: Codec, s: State, id: nat, answer: Answer)
    requires WellFormed(s) && Enabled(s, Exec(id, answer)) && (!Stores(s, id) || answer.Block? || answer.Refuse?)
    ensures ExecStep(z, s, id, answer).docs == s.docs && ExecStep(z, s, id, answer).log == s.log
  {
  }

  function Rank(stage: Stage): nat {
    match stage
    case Reset => 5
    case InflateInputData => 5
    case GetItem => 4
    case AllocateNewItem => 3
    case StoreItem => 2
    case Done => 1
  }

  /** step() terminates: every state function that lets it go on lowers the rank. */
  lemma StepLowersRank(z: Codec, s: State, id: nat, answer: Answer)
    requires WellFormed(s) && Enabled(s, Exec(id, answer))
    ensures var c := ExecStep(z, s, id, answer).contexts[id];
            c.phase.Running? ==> Rank(c.stage) < Rank(s.contexts[id].stage)
  {
    var c := s.contexts[id];
    if c.stage.GetItem? && c.key in s.docs {
      var f := Fetched(z, c, s.nextItem, s.docs[c.key], answer);
      assert f.stage == GetItem ==> f.phase.Replied?;
    }
  }

  /** A lost race is reported, not retried: step() never runs from the Reset stage. */
  lemma ConflictIsFinal(z: Codec, ss: seq<State>, i: nat, id: nat)
    requires Run(z, ss) && i < |ss| && id in ss[i].contexts
    ensures ss[i].contexts[id].stage == Reset ==> !Active(ss[i].contexts[id])
    ensures WellFormed(ss[i])
    ensures ss[i].contexts[id].phase.Running? && ss[i].contexts[id].stage == StoreItem && !Stores(ss[i], id)
            && ss[i].contexts[id].key in ss[i].docs ==>
              ExecStep(z, ss[i], id, Proceed).contexts[id].phase == Replied(KeyEexists)
  {
    RunHasInv(z, ss, i);
    InvIsWellFormed(z, ss[i]);
    assert ContextInv(z, ss[i], id);
  }

  /** Items are released at most once, a finished context has released all of its own, and only held items are used. */
  lemma ItemsReleasedOnce(z: Codec, ss: seq<State>, i: nat, id: nat)
    requires Run(z, ss) && i < |ss| && id in ss[i].contexts
    ensures NoDuplicates(ss[i].releases)
    ensures ss[i].contexts[id].phase.Destroyed? ==>
              forall n | n in ss[i].items && ss[i].items[n].owner == id :: n in ss[i].releases
    ensures var c := ss[i].contexts[id];
            c.phase.Running? ==>
              && (c.stage == AllocateNewItem ==> c.oldItem.Some? && Holds(ss[i], id, c.oldItem.value))
              && (c.stage == StoreItem ==> c.newItem.Some? && Holds(ss[i], id, c.newItem.value))
  {
    RunHasInv(z, ss, i);
    assert ContextInv(z, ss[i], id);
  }
}
