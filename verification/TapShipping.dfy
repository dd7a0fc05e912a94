/**
 * Shipping the TAP log: like the DCP producers, but nothing checks that the
 * write buffer has room for headers and engine data. The exact condition under
 * which a shipment stays inside the buffer is stated here.
 */
module TapShipping {
  import opened Basics
  import opened Wire
  import opened Tap
  import Producers

  /** At most this many events are taken from the iterator at a time. */
  const MAX_EVENTS: nat := 10

  /** An event whose item is in memory, and what the engine answers about the item. */
  datatype Shipment = Shipment(ev: Event, key: Producers.Piece, values: seq<Producers.Piece>, contents: seq<seq<byte>>,
                               infoOk: bool, reserved: bool)

  function Fixed(ev: Event): (bs: seq<byte>)
    ensures |bs| == HEADER_SIZE + TAP_SIZE + ItemSize(ev.kind)
  {
    Sizes(ev.kind, ev.tapFlags);
    Pack(TAP_HEADER, Header(ev)) + Pack(TAP, TapPart(ev)) + Pack(Item(ev.kind, ev.tapFlags), ItemPart(ev))
  }

  lemma EncodeParts(ev: Event)
    ensures Encode(ev) == Fixed(ev) + ev.engine + ev.key + SentValue(ev)
  {
    var a, b := Pack(TAP_HEADER, Header(ev)) + Pack(TAP, TapPart(ev)), Pack(Item(ev.kind, ev.tapFlags), ItemPart(ev));
    PartsInOrder(a, b, ev.engine, ev.key, SentValue(ev));
  }

  lemma PartsInOrder<T>(a: seq<T>, b: seq<T>, c: seq<T>, d: seq<T>, e: seq<T>)
    ensures a + (b + (c + d + e)) == a + b + c + d + e
  {
  }

  /** What an event takes of the write buffer. */
  function Cost(ev: Event): nat {
    HEADER_SIZE + TAP_SIZE + ItemSize(ev.kind) + |ev.engine|
  }

  function Usage(evs: seq<Event>): nat {
    if evs == [] then 0 else Usage(evs[..|evs| - 1]) + Cost(evs[|evs| - 1])
  }

  /** The events that go out: those whose items can be had. */
  function Sent(shs: seq<Shipment>): seq<Event> {
    if shs == [] then []
    else Sent(shs[..|shs| - 1]) + if shs[|shs| - 1].infoOk && shs[|shs| - 1].reserved then [shs[|shs| - 1].ev] else []
  }

  /** The iterator is asked for ten events at most. */
  function Taken(shs: seq<Shipment>): seq<Shipment> {
    if |shs| <= MAX_EVENTS then shs else shs[..MAX_EVENTS]
  }

  // ----- room -----

  /** Every copy into the write buffer ends inside it. */
  ghost predicate StaysInside(evs: seq<Event>, size: nat) {
    forall i :: 0 <= i < |evs| ==> CopyEnd(evs, i) <= size
  }

  function CopyEnd(evs: seq<Event>, i: nat): nat
    requires i < |evs|
  {
    Usage(evs[..i]) + Cost(evs[i])
  }

  lemma {:induction false} UsageGrows(evs: seq<Event>, i: nat)
    requires i < |evs|
    ensures CopyEnd(evs, i) <= Usage(evs)
    decreases |evs| - i
  {
    assert evs[..i + 1][..i] == evs[..i];
    if i + 1 < |evs| {
      UsageGrows(evs, i + 1);
    } else {
      assert evs[..i + 1] == evs;
    }
  }

  /** A shipment stays inside the write buffer exactly if headers and engine data together fit. */
  lemma {:induction false} InsideExactly(evs: seq<Event>, size: nat)
    ensures StaysInside(evs, size) <==> Usage(evs) <= size
  {
    if Usage(evs) <= size {
      forall i | 0 <= i < |evs| ensures CopyEnd(evs, i) <= size {
        UsageGrows(evs, i);
      }
    }
    if evs != [] {
      assert CopyEnd(evs, |evs| - 1) == Usage(evs);
    }
  }

  lemma {:induction false} UsageBound(evs: seq<Event>, engine: nat)
    requires forall i :: 0 <= i < |evs| ==> |evs[i].engine| <= engine
    ensures Usage(evs) <= |evs| * (40 + engine)
  {
    if evs != [] {
      UsageBound(evs[..|evs| - 1], engine);
      assert Cost(evs[|evs| - 1]) <= 40 + engine;
    }
  }

  /** With a fresh write buffer, 164 bytes of engine data for each event always fit. */
  lemma {:induction false} ModestEngineDataFits(evs: seq<Event>)
    requires |evs| <= MAX_EVENTS && forall i :: 0 <= i < |evs| ==> |evs[i].engine| <= 164
    ensures StaysInside(evs, DATA_BUFFER_SIZE)
  {
    UsageBound(evs, 164);
    InsideExactly(evs, DATA_BUFFER_SIZE);
  }

  lemma {:induction false} UsageOfSame(ev: Event, n: nat)
    ensures Usage(seq(n, i => ev)) == n * Cost(ev)
  {
    if n > 0 {
      UsageOfSame(ev, n - 1);
      assert seq(n, i => ev)[..n - 1] == seq(n - 1, i => ev);
    }
  }

  /** One byte more for each of ten mutations does not. */
  lemma {:induction false} LargerEngineDataDoesNot(ev: Event)
    requires ev.kind == TapMutation && |ev.engine| == 165
    ensures !StaysInside(seq(MAX_EVENTS, i => ev), DATA_BUFFER_SIZE)
  {
    UsageOfSame(ev, MAX_EVENTS);
    InsideExactly(seq(MAX_EVENTS, i => ev), DATA_BUFFER_SIZE);
  }

  // ----- shipping -----

  /** In recorded memory the item holds the key and the value of the event. */
  ghost predicate Describes(mem: map<array<byte>, seq<byte>>, sh: Shipment) {
    && Producers.PieceIs(mem, sh.key, sh.ev.key) && |sh.values| == |sh.contents| && sh.ev.value == Join(sh.contents)
    && forall i :: 0 <= i < |sh.values| ==> Producers.PieceIs(mem, sh.values[i], sh.contents[i])
  }

  lemma ItemHolds(mem: map<array<byte>, seq<byte>>, sh: Shipment, w: array<byte>)
    requires Producers.Intact(mem, w) && Describes(mem, sh)
    ensures sh.key.buf != w && Producers.Holds(sh.key, sh.ev.key) && Producers.AllHold(sh.values, sh.contents, w)
  {
    Producers.PieceHolds(mem, sh.key, sh.ev.key, w);
    forall i | 0 <= i < |sh.values| ensures sh.values[i].buf != w && Producers.Holds(sh.values[i], sh.contents[i]) {
      Producers.PieceHolds(mem, sh.values[i], sh.contents[i], w);
    }
  }

  method CopyKeeping(step: Producers.Step, s: seq<byte>, ghost mem: map<array<byte>, seq<byte>>)
    requires step.Ready() && step.bytes + |s| <= step.write.Length && Producers.Intact(mem, step.write)
    modifies step`bytes, step.write, step.conn, step.conn.iov
    ensures (step.conn.iov == old(step.conn.iov) || fresh(step.conn.iov)) && step.Ready()
            && Producers.Intact(mem, step.write)
    ensures step.bytes == old(step.bytes) + |s| && step.Queued() == old(step.Queued()) + s
  {
    assert forall b | b in mem ::
        b as object != step.conn.iov && b as object != step.conn && b as object != step && b != step.write;
    step.QueueCopied(s);
  }

  /** The part that goes through the write buffer. */
  method ShipCopied(step: Producers.Step, ev: Event, ghost mem: map<array<byte>, seq<byte>>)
    requires step.Ready() && step.bytes + Cost(ev) <= step.write.Length && Producers.Intact(mem, step.write)
    modifies step`bytes, step.write, step.conn, step.conn.iov
    ensures (step.conn.iov == old(step.conn.iov) || fresh(step.conn.iov)) && step.Ready()
            && Producers.Intact(mem, step.write)
    ensures step.bytes == old(step.bytes) + Cost(ev) && step.Queued() == old(step.Queued()) + Fixed(ev) + ev.engine
  {
    ghost var was := step.Queued();
    CopyKeeping(step, Fixed(ev), mem);
    if |ev.engine| > 0 {
      CopyKeeping(step, ev.engine, mem);
    } else {
      assert ev.engine == [] && was + Fixed(ev) + [] == was + Fixed(ev);
    }
  }

  /** The part that is queued in the item. */
  method ShipItem(step: Producers.Step, sh: Shipment, ghost mem: map<array<byte>, seq<byte>>)
    requires step.Ready() && Producers.Intact(mem, step.write) && Describes(mem, sh)
    modifies step.conn, step.conn.iov
    ensures (step.conn.iov == old(step.conn.iov) || fresh(step.conn.iov)) && step.Ready()
            && step.bytes == old(step.bytes)
    ensures Producers.Intact(mem, step.write)
    ensures step.Queued() == old(step.Queued()) + sh.ev.key + SentValue(sh.ev)
  {
    ghost var was := step.Queued();
    ItemHolds(mem, sh, step.write);
    assert forall b | b in mem :: b as object != step.conn.iov && b as object != step.conn;
    step.QueueItem(sh.key, sh.ev.key);
    if !NoValue(sh.ev.tapFlags) {
      ItemHolds(mem, sh, step.write);
      assert forall b | b in mem :: b as object != step.conn.iov;
      step.QueueItems(sh.values, sh.contents);
    } else {
      assert was + sh.ev.key + [] == was + sh.ev.key;
    }
  }

  method ShipEvent(step: Producers.Step, sh: Shipment, ghost mem: map<array<byte>, seq<byte>>)
    requires step.Ready() && step.bytes + Cost(sh.ev) <= step.write.Length
    requires Producers.Intact(mem, step.write) && Describes(mem, sh)
    modifies step`bytes, step.write, step.conn, step.conn.iov
    ensures (step.conn.iov == old(step.conn.iov) || fresh(step.conn.iov)) && step.Ready()
    ensures Producers.Intact(mem, step.write)
    ensures step.bytes == old(step.bytes) + Cost(sh.ev) && step.Queued() == old(step.Queued()) + Encode(sh.ev)
  {
    ghost var was := step.Queued();
    ShipCopied(step, sh.ev, mem);
    ShipItem(step, sh, mem);
    EncodeParts(sh.ev);
    ShippedInOrder(was, Fixed(sh.ev), sh.ev.engine, sh.ev.key, SentValue(sh.ev));
  }

  lemma ShippedInOrder<T>(w: seq<T>, a: seq<T>, b: seq<T>, c: seq<T>, d: seq<T>)
    ensures w + a + b + c + d == w + (a + b + c + d)
  {
  }

  /** Every shipment of at most ten events that fits is queued as the stream of its events. */
  method ShipLog(step: Producers.Step, shs: seq<Shipment>, ghost mem: map<array<byte>, seq<byte>>)
    requires step.Ready() && step.Queued() == [] && step.bytes == 0 && Producers.Intact(mem, step.write)
    requires forall i :: 0 <= i < |shs| ==> Describes(mem, shs[i])
    requires StaysInside(Sent(Taken(shs)), step.write.Length)
    modifies step`bytes, step.write, step.conn, step.conn.iov
    ensures step.Ready() && step.bytes == Usage(Sent(Taken(shs))) && step.Queued() == Stream(Sent(Taken(shs)))
  {
    var all := Taken(shs);
    InsideExactly(Sent(all), step.write.Length);
    var i := 0;
    while i < |all|
      invariant i <= |all| && (step.conn.iov == old(step.conn.iov) || fresh(step.conn.iov)) && step.Ready()
      invariant Producers.Intact(mem, step.write)
      invariant step.bytes == Usage(Sent(all[..i])) && step.Queued() == Stream(Sent(all[..i]))
    {
      ShipNext(step, all, i, mem);
      i := i + 1;
    }
    assert all[..i] == all;
  }

  method ShipNext(step: Producers.Step, all: seq<Shipment>, i: nat, ghost mem: map<array<byte>, seq<byte>>)
    requires step.Ready() && i < |all| && Producers.Intact(mem, step.write) && Describes(mem, all[i])
    requires Usage(Sent(all)) <= step.write.Length
    requires step.bytes == Usage(Sent(all[..i])) && step.Queued() == Stream(Sent(all[..i]))
    modifies step`bytes, step.write, step.conn, step.conn.iov
    ensures (step.conn.iov == old(step.conn.iov) || fresh(step.conn.iov)) && step.Ready()
            && Producers.Intact(mem, step.write)
    ensures step.bytes == Usage(Sent(all[..i + 1])) && step.Queued() == Stream(Sent(all[..i + 1]))
  {
    SentNext(all, i);
    if all[i].infoOk && all[i].reserved {
      UsagePrefix(all, i + 1);
      ShipEvent(step, all[i], mem);
    }
  }

  lemma {:induction false} SentNext(shs: seq<Shipment>, i: nat)
    requires i < |shs|
    ensures var before, after, sh := Sent(shs[..i]), Sent(shs[..i + 1]), shs[i];
            if sh.infoOk && sh.reserved
            then Usage(after) == Usage(before) + Cost(sh.ev) && Stream(after) == Stream(before) + Encode(sh.ev)
            else after == before
  {
    var before, sh := Sent(shs[..i]), shs[i];
    assert shs[..i + 1][..i] == shs[..i];
    if sh.infoOk && sh.reserved {
      JoinMapAppend(Encode, before, sh.ev);
      assert (before + [sh.ev])[..|before|] == before;
    } else {
      assert before + [] == before;
    }
  }

  lemma {:induction false} UsagePrefix(shs: seq<Shipment>, i: nat)
    requires i <= |shs|
    ensures Usage(Sent(shs[..i])) <= Usage(Sent(shs))
    decreases |shs| - i
  {
    if i < |shs| {
      SentNext(shs, i);
      UsagePrefix(shs, i + 1);
    } else {
      assert shs[..i] == shs;
    }
  }
}
