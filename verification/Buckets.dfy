/**
 * The bucket lifecycle protocol: threads creating and deleting buckets and
 * worker threads moving connections between buckets, interleaved over the slot
 * table. Every action is one critical section (or one unlocked engine call) of
 * the daemon; slot 0 is the "no bucket".
 */
module Buckets {
  import opened Basics

  datatype BucketState = Unused | Creating | Initializing | Ready | Stopping | Destroying

  datatype Engine = Null | At(id: nat)

  datatype Bucket = Bucket(state: BucketState, name: string, engine: Engine, clients: int)

  /** What the thread in charge of a connection is doing with its bucket. */
  datatype Work =
    | Idle
    | Leaving(name: string)             // inside associate_bucket, about to leave the current bucket
    | Seeking(name: string, next: nat)  // left; looking at slot `next`
    | Delegated                         // parked while a delete it asked for is running

  /** `counted` records whether the connection is included in its slot's `clients`. */
  datatype Conn = Conn(index: nat, engine: Engine, counted: bool, work: Work)

  datatype Status = Success | KeyEnoent | KeyEexists | E2big | Enomem | Failed | NotStored | Einval

  /** Program counters: creators up to CreateClear, destroyers from Find on. */
  datatype Pc =
    | Scan(name: string, next: nat, firstFree: Option<nat>, found: bool)
    | Reserve(name: string, slot: nat)
    | NewEngine(slot: nat)
    | NoEngine(slot: nat)
    | SetInitializing(slot: nat)
    | Initialize(slot: nat)
    | SetReady(slot: nat)
    | SetDestroying(slot: nat)
    | CreateDestroy(slot: nat)
    | CreateClear(slot: nat)
    | Find(name: string, conn: Option<nat>, next: nat)
    | Release(slot: nat, conn: Option<nat>)
    | Await(slot: nat, conn: Option<nat>)
    | Destroy(slot: nat, conn: Option<nat>)
    | Clear(slot: nat, conn: Option<nat>)
    | Done(result: Status)

  /**
   * `lock` is the holder of buckets_lock. The last four fields are history:
   * engine ids handed out so far, engines destroyed, engines whose deletion was
   * accepted, and exits from slot 0 by connections slot 0 never counted.
   */
  datatype State = State(
    buckets: seq<Bucket>,
    conns: map<nat, Conn>,
    threads: map<nat, Pc>,
    lock: Option<nat>,
    nextEngine: nat,
    destroyed: seq<nat>,
    deletes: seq<nat>,
    uncountedExits: nat)

  datatype Action =
    | Connect(c: nat)
    | Select(c: nat, name: string)
    | Work(c: nat)
    | Close(c: nat)
    | CreateRefuse(t: nat, name: string)  // the name is not valid
    | CreateBegin(t: nat, name: string)
    | DeleteBegin(t: nat, name: string, conn: Option<nat>)
    | Step(t: nat, ok: bool)  // ok: the allocation or engine call of this step succeeds

  const MAX_BUCKET_NAME_LENGTH := 100

  predicate LegalNameChar(c: char) {
    'A' <= c <= 'Z' || 'a' <= c <= 'z' || '0' <= c <= '9' || c in "_-.%"
  }

  predicate ValidName(name: string) {
    0 < |name| <= MAX_BUCKET_NAME_LENGTH && forall i :: 0 <= i < |name| ==> LegalNameChar(name[i])
  }

  function EmptySlot(b: Bucket): Bucket {
    b.(state := Unused, name := "", engine := Null)
  }

  predicate Scanning(p: Pc) {
    p.Scan? || p.Reserve? || p.Find?
  }

  /** The thread has taken the slot over: nobody else may change its state. */
  predicate Owning(p: Pc) {
    !Scanning(p) && !p.Done?
  }

  function PcConn(p: Pc): Option<nat> {
    if p.Find? || p.Release? || p.Await? || p.Destroy? || p.Clear? then p.conn else None
  }

  // ----- the transition function -----

  ghost predicate WellFormed(s: State) {
    && 0 < |s.buckets|
    && (forall c | c in s.conns :: s.conns[c].index < |s.buckets|)
    && (forall t | t in s.threads && (Owning(s.threads[t]) || s.threads[t].Reserve?) ::
          s.threads[t].slot < |s.buckets|)
  }

  ghost predicate Enabled(s: State, a: Action) {
    match a
    case Connect(c) => c !in s.conns
    case Select(c, _) => c in s.conns && s.conns[c].work.Idle?
    case Work(c) => c in s.conns && (s.conns[c].work.Leaving? || s.conns[c].work.Seeking?)
    case Close(c) => c in s.conns && s.conns[c].work.Idle?
    case CreateRefuse(t, name) => t !in s.threads && !ValidName(name)
    case CreateBegin(t, name) => t !in s.threads && s.lock.None? && ValidName(name)
    case DeleteBegin(t, name, conn) =>
      && t !in s.threads && s.lock.None? && name != ""
      && (conn.Some? ==> conn.value in s.conns && s.conns[conn.value].work.Idle?)
    case Step(t, _) =>
      && t in s.threads && !s.threads[t].Done?
      && (s.threads[t].Await? && s.threads[t].slot < |s.buckets| ==> s.buckets[s.threads[t].slot].clients <= 0)
  }

  function SetBucket(s: State, i: nat, b: Bucket): State
    requires i < |s.buckets|
  {
    s.(buckets := s.buckets[i := b])
  }

  function Disassociate(s: State, c: nat): State
    requires c in s.conns && s.conns[c].index < |s.buckets|
  {
    var k := s.conns[c];
    var b := s.buckets[k.index];
    s.(buckets := s.buckets[k.index := b.(clients := b.clients - 1)],
    conns := s.conns[c := k.(index := 0, engine := Null, counted := false)],
    uncountedExits := s.uncountedExits + if k.index == 0 && !k.counted then 1 else 0)
  }

  /** One critical section of associate_bucket. */
  function WorkStep(s: State, c: nat): State
    requires WellFormed(s) && c in s.conns
    requires s.conns[c].work.Leaving? || s.conns[c].work.Seeking?
  {
    var k := s.conns[c];
    match k.work
    case Leaving(name) =>
      var s1 := Disassociate(s, c);
      s1.(conns := s1.conns[c := s1.conns[c].(work := Seeking(name, 1))])
    case Seeking(name, next) =>
      if next < |s.buckets| then
        var b := s.buckets[next];
        if b.state == Ready && b.name == name then
          SetBucket(s, next, b.(clients := b.clients + 1)).(conns := s.conns[c := Conn(next, b.engine, true, Idle)])
        else
          s.(conns := s.conns[c := k.(work := Seeking(name, next + 1))])
      else
        var b := s.buckets[0];
        SetBucket(s, 0, b.(clients := b.clients + 1)).(conns := s.conns[c := Conn(0, b.engine, true, Idle)])
  }

  /** The requesting connection is notified and goes back to its worker. */
  function Resume(conns: map<nat, Conn>, conn: Option<nat>): map<nat, Conn> {
    if conn.Some? && conn.value in conns then conns[conn.value := conns[conn.value].(work := Idle)] else conns
  }

  function Finish(s: State, t: nat, conn: Option<nat>, result: Status): State {
    s.(threads := s.threads[t := Done(result)], conns := Resume(s.conns, conn))
  }

  function Goto(s: State, t: nat, p: Pc): State {
    s.(threads := s.threads[t := p])
  }

  /** Looking at one slot under buckets_lock, and leaving the scan. */
  function ScanStep(s: State, t: nat, p: Pc): State
    requires p.Scan?
  {
    if !p.found && p.next < |s.buckets| then
      var b := s.buckets[p.next];
      var firstFree := if p.firstFree.None? && b.state == Unused then Some(p.next) else p.firstFree;
      Goto(s, t, Scan(p.name, p.next + 1, firstFree, b.name == p.name))
    else if p.found then
      Finish(s, t, None, KeyEexists).(lock := None)
    else if p.firstFree.None? then
      Finish(s, t, None, E2big).(lock := None)
    else
      Goto(s, t, Reserve(p.name, p.firstFree.value))
  }

  function FindStep(s: State, t: nat, p: Pc): State
    requires p.Find?
  {
    if p.next < |s.buckets| then
      var b := s.buckets[p.next];
      if b.name != p.name then
        Goto(s, t, Find(p.name, p.conn, p.next + 1))
      else if b.state == Ready then
        Goto(SetBucket(s, p.next, b.(state := Destroying)), t, Release(p.next, p.conn))
        .(lock := None, deletes := s.deletes + if b.engine.At? then [b.engine.id] else [])
      else
        Finish(s, t, p.conn, KeyEexists).(lock := None)
    else
      Finish(s, t, p.conn, KeyEnoent).(lock := None)
  }

  /** Taking the free slot; a failed TopKeys allocation leaves it marked. */
  function ReserveStep(s: State, t: nat, p: Pc, ok: bool): State
    requires p.Reserve? && p.slot < |s.buckets|
  {
    Goto(SetBucket(s, p.slot, s.buckets[p.slot].(state := Creating, name := p.name)), t,
         if ok then NewEngine(p.slot) else Done(Enomem))
    .(lock := None)
  }

  /** What an owning thread does to its slot `b`, where it goes next, and the engine calls it makes. */
  datatype Effect = Effect(bucket: Bucket, pc: Pc, creates: bool, destroys: bool)

  function OwnerEffect(p: Pc, b: Bucket, ok: bool, nextEngine: nat): Effect
    requires Owning(p)
  {
    match p
    case NewEngine(i) =>
      if ok then Effect(b.(engine := At(nextEngine)), SetInitializing(i), true, false)
      else Effect(b, NoEngine(i), false, false)
    case NoEngine(i) => Effect(EmptySlot(b), Done(Failed), false, false)
    case SetInitializing(i) => Effect(b.(state := Initializing), Initialize(i), false, false)
    case Initialize(i) => Effect(b, if ok then SetReady(i) else SetDestroying(i), false, false)
    case SetReady(i) => Effect(b.(state := Ready), Done(Success), false, false)
    case SetDestroying(i) => Effect(b.(state := Destroying), CreateDestroy(i), false, false)
    case CreateDestroy(i) => Effect(b, CreateClear(i), false, true)
    case CreateClear(i) => Effect(EmptySlot(b), Done(NotStored), false, false)
    case Release(i, conn) => Effect(b, Await(i, conn), false, false)
    case Await(i, conn) => Effect(b, Destroy(i, conn), false, false)
    case Destroy(i, conn) => Effect(b, Clear(i, conn), false, true)
    case Clear(i, conn) => Effect(EmptySlot(b), Done(Success), false, false)
  }

  function OwnerStep(s: State, t: nat, p: Pc, ok: bool): State
    requires Owning(p) && p.slot < |s.buckets|
  {
    var b := s.buckets[p.slot];
    var e := OwnerEffect(p, b, ok, s.nextEngine);
    State(s.buckets[p.slot := e.bucket],
          if e.pc.Done? then Resume(s.conns, PcConn(p)) else s.conns,
          s.threads[t := e.pc],
          s.lock,
          s.nextEngine + (if e.creates then 1 else 0),
          s.destroyed + (if e.destroys && b.engine.At? then [b.engine.id] else []),
          s.deletes,
          s.uncountedExits)
  }

  /** A delete first takes the connection that asked for it out of the bucket. */
  function LeaveOwn(s: State, p: Pc): State
    requires WellFormed(s)
  {
    if p.Release? && p.conn.Some? && p.conn.value in s.conns && s.conns[p.conn.value].index == p.slot
    then Disassociate(s, p.conn.value) else s
  }

  /** The next step of thread `t`; `ok` is the environment's answer where there is one. */
  function ThreadStep(s: State, t: nat, ok: bool): State
    requires WellFormed(s) && t in s.threads && !s.threads[t].Done?
  {
    var p := s.threads[t];
    if p.Scan? then ScanStep(s, t, p)
    else if p.Find? then FindStep(s, t, p)
    else if p.Reserve? then ReserveStep(s, t, p, ok)
    else OwnerStep(LeaveOwn(s, p), t, p, ok)
  }

  function Next(s: State, a: Action): State
    requires WellFormed(s) && Enabled(s, a)
  {
    match a
    case Connect(c) =>
      var b := s.buckets[0];
      SetBucket(s, 0, b.(clients := b.clients + 1))
      .(conns := s.conns[c := Conn(0, b.engine, true, Leaving("default"))])
    case Select(c, name) => s.(conns := s.conns[c := s.conns[c].(work := Leaving(name))])
    case Work(c) => WorkStep(s, c)
    case Close(c) =>
      var s1 := Disassociate(s, c);
      s1.(conns := s1.conns - {c})
    case CreateRefuse(t, name) => s.(threads := s.threads[t := Done(Einval)])
    case CreateBegin(t, name) => s.(threads := s.threads[t := Scan(name, 0, None, false)], lock := Some(t))
    case DeleteBegin(t, name, conn) =>
      s.(threads := s.threads[t := Find(name, conn, 0)], lock := Some(t),
      conns := if conn.Some? then s.conns[conn.value := s.conns[conn.value].(work := Delegated)] else s.conns)
    case Step(t, ok) => ThreadStep(s, t, ok)
  }

  /** initialize_buckets: every slot unused, slot 0 Ready and serving the no-bucket engine. */
  ghost predicate Init(s: State) {
    && 0 < |s.buckets|
    && s.buckets[0] == Bucket(Ready, "", At(0), 0)
    && (forall i :: 1 <= i < |s.buckets| ==> s.buckets[i] == Bucket(Unused, "", Null, 0))
    && s.conns == map[] && s.threads == map[] && s.lock == None
    && s.nextEngine == 1 && s.destroyed == [] && s.deletes == [] && s.uncountedExits == 0
  }

  ghost predicate Moves(s: State, s': State) {
    WellFormed(s) && exists a :: Enabled(s, a) && s' == Next(s, a)
  }

  ghost predicate MovesAt(ss: seq<State>, i: nat) {
    i + 1 < |ss| && Moves(ss[i], ss[i + 1])
  }

  ghost predicate Run(ss: seq<State>) {
    0 < |ss| && Init(ss[0]) && forall i :: 0 <= i < |ss| - 1 ==> MovesAt(ss, i)
  }
}
