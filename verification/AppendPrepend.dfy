/**
 * Append and prepend by optimistic concurrency: command contexts that fetch a
 * document, build the longer one and store it with CAS, interleaved with each
 * other and with other writers of the same engine. Every action is one engine
 * call of one context, or one write by somebody else.
 */
module AppendPrepend {
  import opened Basics

  type Key = string

  /** Inflates a compressed value, or fails. */
  type Codec = seq<byte> -> Option<seq<byte>>

  datatype Mode = Append | Prepend

  datatype Doc = Doc(value: seq<byte>, compressed: bool, cas: nat)

  /** An item handed out by the engine, and the context it was handed to. */
  datatype Item = Item(doc: Doc, owner: nat)

  datatype Status =
    | Success | Ewouldblock | KeyEnoent | KeyEexists | Einval | Enomem | Failed | NotStored | Tmpfail | Disconnect

  datatype Stage = InflateInputData | GetItem | AllocateNewItem | StoreItem | Reset | Done

  /** Running: inside step(). Blocked: waiting for the engine. Replied: the command is over. */
  datatype Phase = Running | Blocked | Replied(status: Status) | Destroyed

  /**
   * `mutationExtras`: the connection wants the mutation token in replies.
   * `stored` is history: this context's CAS store went through.
   */
  datatype Context = Context(
    mode: Mode,
    key: Key,
    request: seq<byte>,
    compressedRequest: bool,
    cas: nat,
    mutationExtras: bool,
    value: seq<byte>,
    oldItem: Option<nat>,
    newItem: Option<nat>,
    buffer: seq<byte>,
    stage: Stage,
    phase: Phase,
    stored: bool)

  datatype Event =
    | Applied(id: nat, key: Key, mode: Mode, fragment: seq<byte>, version: nat)
    | Wrote(key: Key, value: seq<byte>, compressed: bool)
    | Removed(key: Key)

  datatype State = State(
    docs: map<Key, Doc>,
    nextCas: nat,
    items: map<nat, Item>,
    nextItem: nat,
    releases: seq<nat>,
    contexts: map<nat, Context>,
    log: seq<Event>)

  /** What the engine answers to the call a context makes. */
  datatype Answer =
    | Proceed
    | Block                 // EWOULDBLOCK
    | Refuse(e: Status)     // any other error, nothing done
    | NoInfo                // the call worked, get_item_info did not
    | OutOfMemory           // inflating ran out of memory

  datatype Action =
    | Begin(id: nat, mode: Mode, key: Key, request: seq<byte>, compressed: bool, cas: nat, mutationExtras: bool)
    | Exec(id: nat, answer: Answer)
    | Resume(id: nat, aiostat: Status)
    | Delete(id: nat)
    | OtherWrite(key: Key, value: seq<byte>, compressed: bool)
    | OtherRemove(key: Key)

  function Splice(mode: Mode, src: seq<byte>, fragment: seq<byte>): seq<byte> {
    if mode == Append then src + fragment else fragment + src
  }

  /** What the document means to a client. */
  function Content(z: Codec, d: Doc): Option<seq<byte>> {
    if d.compressed then z(d.value) else Some(d.value)
  }

  /** What the request asks to add. */
  function Fragment(z: Codec, c: Context): Option<seq<byte>> {
    if c.compressedRequest then z(c.request) else Some(c.request)
  }

  /** The client sees a missing key as "not stored". */
  function Reply(c: Context, e: Status): Context {
    c.(phase := Replied(if e == KeyEnoent then NotStored else e))
  }

  function SetContext(s: State, id: nat, c: Context): State {
    s.(contexts := s.contexts[id := c])
  }

  function NewItem(s: State, d: Doc, id: nat): State {
    s.(items := s.items[s.nextItem := Item(d, id)], nextItem := s.nextItem + 1)
  }

  function Held(item: Option<nat>): seq<nat> {
    if item.Some? then [item.value] else []
  }

  /** reset(): releases both items, drops the inflated copy and starts over. */
  function ResetContext(s: State, id: nat): State
    requires id in s.contexts
  {
    var c := s.contexts[id];
    SetContext(s, id, c.(oldItem := None, newItem := None, buffer := [], stage := GetItem))
    .(releases := s.releases + Held(c.oldItem) + Held(c.newItem))
  }

  function InflateStep(z: Codec, c: Context, answer: Answer): Context {
    if answer.OutOfMemory? then Reply(c, Enomem)
    else match z(c.request)
      case None => Reply(c, Einval)
      case Some(v) => c.(value := v, stage := GetItem)
  }

  /** The context after bucket_get handed it item `n` holding `d`. */
  function Fetched(z: Codec, c: Context, n: nat, d: Doc, answer: Answer): Context {
    var c1 := c.(oldItem := Some(n));
    if answer.NoInfo? then Reply(c1, Failed)
    else if c.cas != 0 && c.cas != d.cas then Reply(c1, KeyEexists)
    else if d.compressed then
      if answer.OutOfMemory? then Reply(c1, Enomem)
      else match z(d.value)
        case None => Reply(c1, Failed)
        case Some(v) => c1.(buffer := v, stage := AllocateNewItem)
    else c1.(stage := AllocateNewItem)
  }

  function GetStep(z: Codec, s: State, id: nat, c: Context, answer: Answer): State {
    if c.key !in s.docs then SetContext(s, id, Reply(c, KeyEnoent))
    else SetContext(NewItem(s, s.docs[c.key], id), id, Fetched(z, c, s.nextItem, s.docs[c.key], answer))
  }

  /** The old bytes the new document is built from: the inflated copy if it is non-empty. */
  function Source(c: Context, d: Doc): seq<byte> {
    if c.buffer != [] then c.buffer else d.value
  }

  function AllocateStep(s: State, id: nat, c: Context, answer: Answer): State
    requires c.oldItem.Some? && c.oldItem.value in s.items
  {
    var d := s.items[c.oldItem.value].doc;
    if answer.NoInfo? then
      SetContext(NewItem(s, Doc([], false, 0), id), id, Reply(c.(newItem := Some(s.nextItem)), Failed))
    else
      SetContext(NewItem(s, Doc(Splice(c.mode, Source(c, d), c.value), false, d.cas), id), id,
                 c.(newItem := Some(s.nextItem), stage := StoreItem))
  }

  function StoreStep(s: State, id: nat, c: Context, answer: Answer): State
    requires c.newItem.Some? && c.newItem.value in s.items
  {
    var d := s.items[c.newItem.value].doc;
    if c.key !in s.docs then SetContext(s, id, Reply(c, KeyEnoent))
    else if s.docs[c.key].cas != d.cas then
      SetContext(s, id, Reply(if c.cas == 0 then c.(stage := Reset) else c, KeyEexists))
    else
      var c1 := c.(stored := true);
      SetContext(s, id, if answer.NoInfo? && c.mutationExtras then Reply(c1, Failed) else c1.(stage := Done))
      .(docs := s.docs[c.key := Doc(d.value, false, s.nextCas)], nextCas := s.nextCas + 1,
      log := s.log + [Applied(id, c.key, c.mode, c.value, d.cas)])
  }

  ghost predicate WellFormed(s: State) {
    forall id | id in s.contexts ::
      && (s.contexts[id].phase.Running? && s.contexts[id].stage.AllocateNewItem? ==>
            s.contexts[id].oldItem.Some? && s.contexts[id].oldItem.value in s.items)
      && (s.contexts[id].phase.Running? && s.contexts[id].stage.StoreItem? ==>
            s.contexts[id].newItem.Some? && s.contexts[id].newItem.value in s.items)
  }

  ghost predicate Enabled(s: State, a: Action) {
    match a
    case Begin(id, _, _, _, _, _, _) => id !in s.contexts
    case Exec(id, answer) =>
      && id in s.contexts && s.contexts[id].phase.Running?
      && (answer.Refuse? ==> answer.e != Success && answer.e != Ewouldblock)
    case Resume(id, aiostat) => id in s.contexts && s.contexts[id].phase.Blocked? && aiostat != Ewouldblock
    case Delete(id) => id in s.contexts && (s.contexts[id].phase.Blocked? || s.contexts[id].phase.Replied?)
    case OtherWrite(_, _, _) => true
    case OtherRemove(key) => key in s.docs
  }

  /** One state function of step(). */
  function ExecStep(z: Codec, s: State, id: nat, answer: Answer): State
    requires WellFormed(s) && id in s.contexts && s.contexts[id].phase.Running?
  {
    var c := s.contexts[id];
    if c.stage.InflateInputData? then SetContext(s, id, InflateStep(z, c, answer))
    else if c.stage.Reset? then ResetContext(s, id)
    else if c.stage.Done? then SetContext(s, id, Reply(c, Success))
    else if answer.Block? then SetContext(s, id, c.(phase := Blocked))
    else if answer.Refuse? then SetContext(s, id, Reply(c, answer.e))
    else if c.stage.GetItem? then GetStep(z, s, id, c, answer)
    else if c.stage.AllocateNewItem? then AllocateStep(s, id, c, answer)
    else StoreStep(s, id, c, answer)
  }

  function Next(z: Codec, s: State, a: Action): State
    requires WellFormed(s) && Enabled(s, a)
  {
    match a
    case Begin(id, mode, key, request, compressed, cas, mutationExtras) =>
      SetContext(s, id, Context(mode, key, request, compressed, cas, mutationExtras, request, None, None, [],
                                if compressed then InflateInputData else GetItem, Running, false))
    case Exec(id, answer) => ExecStep(z, s, id, answer)
    case Resume(id, aiostat) =>
      var c := s.contexts[id];
      SetContext(s, id, if aiostat == Success then c.(phase := Running) else Reply(c, aiostat))
    case Delete(id) =>
      var s1 := ResetContext(s, id);
      SetContext(s1, id, s1.contexts[id].(phase := Destroyed))
    case OtherWrite(key, value, compressed) =>
      s.(docs := s.docs[key := Doc(value, compressed, s.nextCas)], nextCas := s.nextCas + 1,
      log := s.log + [Wrote(key, value, compressed)])
    case OtherRemove(key) => s.(docs := s.docs - {key}, log := s.log + [Removed(key)])
  }

  ghost predicate Init(s: State) {
    && s.docs == map[] && s.nextCas == 1 && s.items == map[] && s.nextItem == 0
    && s.releases == [] && s.contexts == map[] && s.log == []
  }

  ghost predicate Moves(z: Codec, s: State, s': State) {
    WellFormed(s) && exists a :: Enabled(s, a) && s' == Next(z, s, a)
  }

  ghost predicate MovesAt(z: Codec, ss: seq<State>, i: nat) {
    i + 1 < |ss| && Moves(z, ss[i], ss[i + 1])
  }

  ghost predicate Run(z: Codec, ss: seq<State>) {
    0 < |ss| && Init(ss[0]) && forall i :: 0 <= i < |ss| - 1 ==> MovesAt(z, ss, i)
  }
}
