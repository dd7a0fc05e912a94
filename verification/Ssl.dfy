/**
 * The staging buffers between a socket and the TLS library: bytes go from a
 * source through a fixed buffer to a sink, and every call on either side may be
 * partial.
 */
module Ssl {
  import opened Basics

  /** What a call on the socket or the BIO returns: some progress, or 0, or -1 that blocks or fails. */
  datatype Answer = Moved(n: nat) | Zero | Blocks | Fails

  predicate Refuses(a: Answer) {
    !a.Moved? || a.n == 0
  }

  datatype Direction = FromSocket | ToSocket

  /** What a stage holds: `at` is where the staged bytes begin in its buffer. */
  datatype Flow = Flow(sink: seq<byte>, at: nat, staged: seq<byte>, source: seq<byte>, error: bool)

  datatype Round = Round(flow: Flow, more: bool)

  /** How a drain ends: what is held then, and the number of the last round. */
  datatype Drain = Drain(flow: Flow, last: nat)

  /** A drained buffer is used from its start again. */
  predicate Fits(f: Flow, size: nat) {
    0 < size && f.at + |f.staged| <= size && (f.staged == [] ==> f.at == 0)
  }

  /** Everything that goes through a stage, in order. */
  function Whole(f: Flow): seq<byte> {
    f.sink + f.staged + f.source
  }

  /** What is left to move: every byte still in the source is moved twice, every staged one once. */
  function Left(f: Flow): nat {
    2 * |f.source| + |f.staged|
  }

  /** How many of `limit` bytes a call moves. */
  function Took(a: Answer, limit: nat): (n: nat)
    ensures n <= limit && (n == 0 <==> limit == 0 || Refuses(a))
  {
    if !a.Moved? then 0 else if a.n < limit then a.n else limit
  }

  function Flushed(f: Flow, n: nat): Flow
    requires n <= |f.staged|
  {
    f.(sink := f.sink + f.staged[..n], at := if n == |f.staged| then 0 else f.at + n, staged := f.staged[n..])
  }

  function Fetched(f: Flow, n: nat): Flow
    requires n <= |f.source|
  {
    f.(staged := f.staged + f.source[..n], source := f.source[n..])
  }

  /** The error that a call which stops the drain leaves behind. */
  function Stopped(f: Flow, bad: bool): Flow {
    f.(error := f.error || bad)
  }

  /** The second half of a round. */
  function FetchInto(dir: Direction, f: Flow, fetch: Answer, size: nat): Round
    requires Fits(f, size)
  {
    var room := size - f.at - |f.staged|;
    if dir == FromSocket && room == 0 then Round(f, true)
    else if dir == ToSocket && f.staged != [] then Round(f, true)
    else
      var n := Took(fetch, if room < |f.source| then room else |f.source|);
      if n > 0 then Round(Fetched(f, n), true)
      else Round(Stopped(f, dir == FromSocket && (fetch == Zero || fetch == Fails)), false)
  }

  /** One round of a drain, in which the sink answers `flush` and the source `fetch`. */
  function OneRound(dir: Direction, f: Flow, flush: Answer, fetch: Answer, size: nat): Round
    requires Fits(f, size)
  {
    if f.staged == [] then FetchInto(dir, f, fetch, size)
    else if Refuses(flush) then Round(Stopped(f, dir == ToSocket && flush == Fails), false)
    else FetchInto(dir, Flushed(f, Took(flush, |f.staged|)), fetch, size)
  }

  /** The drain from round `i` on: call `i` on either side belongs to round `i`. */
  function Drained(dir: Direction, f: Flow, flushes: nat -> Answer, fetches: nat -> Answer, size: nat,
                   i: nat): (d: Drain)
    requires Fits(f, size)
    ensures Fits(d.flow, size)
    decreases Left(f)
  {
    RoundMoves(dir, f, flushes(i), fetches(i), size);
    var r := OneRound(dir, f, flushes(i), fetches(i), size);
    if r.more then Drained(dir, r.flow, flushes, fetches, size, i + 1) else Drain(r.flow, i)
  }

  // ----- what a drain does -----

  lemma FlushConserves<T>(sink: seq<T>, staged: seq<T>, source: seq<T>, n: nat)
    requires n <= |staged|
    ensures sink + staged[..n] + staged[n..] + source == sink + staged + source
  {
    assert staged[..n] + staged[n..] == staged;
    assert sink + staged[..n] + staged[n..] == sink + staged;
  }

  lemma FetchConserves<T>(sink: seq<T>, staged: seq<T>, source: seq<T>, n: nat)
    requires n <= |source|
    ensures sink + (staged + source[..n]) + source[n..] == sink + staged + source
  {
    assert source[..n] + source[n..] == source;
  }

  /** From `f` to `g` bytes have only moved on. */
  ghost predicate Onward(f: Flow, g: Flow) {
    Whole(g) == Whole(f) && f.sink <= g.sink && |g.source| <= |f.source| && Left(g) <= Left(f)
  }

  lemma FlushMovesOn(f: Flow, n: nat)
    requires n <= |f.staged|
    ensures Onward(f, Flushed(f, n)) && Left(Flushed(f, n)) == Left(f) - n
  {
    FlushConserves(f.sink, f.staged, f.source, n);
  }

  lemma FetchMovesOn(f: Flow, n: nat)
    requires n <= |f.source|
    ensures Onward(f, Fetched(f, n)) && Left(Fetched(f, n)) == Left(f) - n
  {
    FetchConserves(f.sink, f.staged, f.source, n);
  }

  /** Why a round is the last one, and whether that is an error. */
  ghost predicate Ends(dir: Direction, g: Flow, flush: Answer, fetch: Answer, error0: bool) {
    match dir
    case FromSocket =>
      || (g.staged != [] && Refuses(flush) && g.error == error0)
      || ((Refuses(fetch) || g.source == []) && g.error == (error0 || fetch == Zero || fetch == Fails))
    case ToSocket =>
      && (if g.staged == [] then Refuses(fetch) || g.source == [] else Refuses(flush))
      && g.error == (error0 || (g.staged != [] && flush == Fails))
  }

  lemma FetchRoundMoves(dir: Direction, f: Flow, fetch: Answer, size: nat)
    requires Fits(f, size)
    ensures var r := FetchInto(dir, f, fetch, size);
            && Fits(r.flow, size) && Onward(f, r.flow) && r.flow.sink == f.sink
            && (r.more ==> r.flow.error == f.error && (f.staged == [] ==> Left(r.flow) < Left(f)))
            && (!r.more ==> (Refuses(fetch) || r.flow.source == []) && r.flow.staged == f.staged)
            && (!r.more ==> r.flow.error == (f.error || (dir == FromSocket && (fetch == Zero || fetch == Fails))))
            && (!r.more && dir == ToSocket ==> f.staged == [])
            && (f.staged == [] && f.source != [] && !Refuses(fetch) ==> |r.flow.source| < |f.source|)
  {
    var room := size - f.at - |f.staged|;
    var n := Took(fetch, if room < |f.source| then room else |f.source|);
    if n > 0 {
      FetchMovesOn(f, n);
    }
  }

  /** A round moves bytes on, something at least unless it is the last one. */
  lemma RoundMoves(dir: Direction, f: Flow, flush: Answer, fetch: Answer, size: nat)
    requires Fits(f, size)
    ensures var r := OneRound(dir, f, flush, fetch, size);
            && Fits(r.flow, size) && Onward(f, r.flow)
            && (r.more ==> Left(r.flow) < Left(f) && r.flow.error == f.error)
            && (!r.more ==> Ends(dir, r.flow, flush, fetch, f.error))
            && (f.staged != [] && !Refuses(flush) ==> |r.flow.sink| > |f.sink|)
            && (f.staged == [] && f.source != [] && !Refuses(fetch) ==> |r.flow.source| < |f.source|)
  {
    if f.staged == [] {
      FetchRoundMoves(dir, f, fetch, size);
    } else if !Refuses(flush) {
      var n := Took(flush, |f.staged|);
      FlushMovesOn(f, n);
      FetchRoundMoves(dir, Flushed(f, n), fetch, size);
    }
  }

  /**
   * A whole drain moves bytes on, in each round before the last one at least a
   * byte, and the last round ends for the reason found in its own calls.
   */
  lemma {:induction false} DrainMoves(dir: Direction, f: Flow, flushes: nat -> Answer, fetches: nat -> Answer,
                                      size: nat, i: nat)
    requires Fits(f, size)
    ensures var d := Drained(dir, f, flushes, fetches, size, i);
            && Onward(f, d.flow) && i <= d.last && Left(d.flow) + (d.last - i) <= Left(f)
            && Ends(dir, d.flow, flushes(d.last), fetches(d.last), f.error)
            && (f.staged != [] && !Refuses(flushes(i)) ==> |d.flow.sink| > |f.sink|)
            && (f.staged == [] && f.source != [] && !Refuses(fetches(i)) ==> |d.flow.source| < |f.source|)
    decreases Left(f)
  {
    RoundMoves(dir, f, flushes(i), fetches(i), size);
    var r := OneRound(dir, f, flushes(i), fetches(i), size);
    if r.more {
      DrainMoves(dir, r.flow, flushes, fetches, size, i + 1);
    }
  }

  class Stage {
    const buffer: array<byte>
    var current: nat
    var total: nat
    var error: bool
    /** What the source will still deliver, and what the sink has accepted. */
    var source: seq<byte>
    var sink: seq<byte>

    ghost predicate Valid()
      reads this
    {
      0 < buffer.Length && total <= buffer.Length && (current < total || current == total == 0)
    }

    ghost function Staged(): seq<byte>
      requires Valid()
      reads this, buffer
    {
      buffer[current..total]
    }

    ghost function View(): (f: Flow)
      requires Valid()
      reads this, buffer
      ensures Fits(f, buffer.Length)
    {
      Flow(sink, current, Staged(), source, error)
    }

    constructor (size: nat, source: seq<byte>)
      requires 0 < size
      ensures Valid() && View() == Flow([], 0, [], source, false) && buffer.Length == size
    {
      buffer := new byte[size](_ => 0);
      current, total, error, this.source, sink := 0, 0, false, source, [];
    }

    /** morePendingOutput, on the output side */
    method MorePending() returns (more: bool)
      requires Valid()
      ensures more == (Staged() != [])
    {
      more := total > 0;
    }

    /** Offers the staged bytes to the sink. */
    method Flush(answer: Answer) returns (progress: bool)
      requires Valid() && current < total
      modifies this`current, this`total, this`sink
      ensures Valid() && progress == !Refuses(answer)
      ensures View() == if progress then Flushed(old(View()), Took(answer, old(|Staged()|))) else old(View())
    {
      if Refuses(answer) {
        return false;
      }
      Accept(if answer.n < total - current then answer.n else total - current);
      return true;
    }

    /** The sink takes `n` staged bytes. */
    method Accept(n: nat)
      requires Valid() && 0 < n <= total - current
      modifies this`current, this`total, this`sink
      ensures Valid() && View() == Flushed(old(View()), n)
    {
      ghost var all := buffer[..];
      SplitSlice(all, current, current + n, total);
      sink := sink + buffer[current..current + n];
      current := current + n;
      if current == total {
        current, total := 0, 0;
      }
    }

    /** Reads from the source behind the staged bytes. */
    method Fetch(answer: Answer) returns (res: Answer)
      requires Valid() && total < buffer.Length
      modifies this`total, this`source, buffer
      ensures Valid()
      ensures var room := buffer.Length - old(total);
              var n := Took(answer, if room < old(|source|) then room else old(|source|));
              && View() == (if n > 0 then Fetched(old(View()), n) else old(View())) && res.Moved? == (n > 0)
              && (!res.Moved? ==> res == if answer.Moved? then Blocks else answer)
    {
      if !answer.Moved? {
        return answer;
      }
      var room := buffer.Length - total;
      var n := if answer.n < room then answer.n else room;
      n := if n < |source| then n else |source|;
      if n == 0 {
        return Blocks;
      }
      Store(n);
      return Moved(n);
    }

    /** The source delivers `n` bytes. */
    method Store(n: nat)
      requires Valid() && 0 < n <= buffer.Length - total && n <= |source|
      modifies this`total, this`source, buffer
      ensures Valid() && View() == Fetched(old(View()), n)
    {
      ghost var staged, from := Staged(), source[..n];
      forall i | 0 <= i < n {
        buffer[total + i] := source[i];
      }
      assert buffer[current..total] == staged && buffer[total..total + n] == from;
      total, source := total + n, source[n..];
      assert buffer[current..total] == buffer[current..total - n] + buffer[total - n..total];
    }

    /** drainBioRecvPipe: from the socket to the TLS library. */
    method DrainRecv(flushes: nat -> Answer, fetches: nat -> Answer) returns (ghost last: nat)
      requires Valid()
      modifies this`current, this`total, this`error, this`source, this`sink, buffer
      ensures Valid() && Drain(View(), last) == Drained(FromSocket, old(View()), flushes, fetches, buffer.Length, 0)
      ensures Whole(View()) == old(Whole(View())) && old(sink) <= sink && Left(View()) + last <= old(Left(View()))
      ensures Ends(FromSocket, View(), flushes(last), fetches(last), old(error))
      ensures old(Staged() != []) && !Refuses(flushes(0)) ==> |sink| > old(|sink|)
      ensures old(Staged() == [] && source != []) && !Refuses(fetches(0)) ==> |source| < old(|source|)
    {
      ghost var start := View();
      DrainMoves(FromSocket, start, flushes, fetches, buffer.Length, 0);
      last := 0;
      var more, i := true, 0;
      while more
        invariant Valid()
        invariant if more then Drained(FromSocket, start, flushes, fetches, buffer.Length, 0)
                               == Drained(FromSocket, View(), flushes, fetches, buffer.Length, i)
                  else Drained(FromSocket, start, flushes, fetches, buffer.Length, 0) == Drain(View(), last)
        decreases more, Left(View())
      {
        RoundMoves(FromSocket, View(), flushes(i), fetches(i), buffer.Length);
        more := RecvRound(flushes(i), fetches(i));
        last := i;
        i := i + 1;
      }
    }

    /** One round of drainBioRecvPipe; false if it is the last one. */
    method RecvRound(flush: Answer, fetch: Answer) returns (more: bool)
      requires Valid()
      modifies this`current, this`total, this`error, this`source, this`sink, buffer
      ensures Valid() && Round(View(), more) == OneRound(FromSocket, old(View()), flush, fetch, buffer.Length)
    {
      if current < total {
        var progress := Flush(flush);
        if !progress {
          return false;
        }
      }
      more := RecvFetch(fetch);
    }

    method RecvFetch(fetch: Answer) returns (more: bool)
      requires Valid()
      modifies this`total, this`error, this`source, buffer
      ensures Valid() && Round(View(), more) == FetchInto(FromSocket, old(View()), fetch, buffer.Length)
    {
      more := true;
      if total < buffer.Length {
        var res := Fetch(fetch);
        if !res.Moved? {
          more := false;
          if res != Blocks {
            error := true;
          }
        }
      }
    }

    /** drainBioSendPipe: from the TLS library to the socket. */
    method DrainSend(flushes: nat -> Answer, fetches: nat -> Answer) returns (ghost last: nat)
      requires Valid()
      modifies this`current, this`total, this`error, this`source, this`sink, buffer
      ensures Valid() && Drain(View(), last) == Drained(ToSocket, old(View()), flushes, fetches, buffer.Length, 0)
      ensures Whole(View()) == old(Whole(View())) && old(sink) <= sink && Left(View()) + last <= old(Left(View()))
      ensures if Staged() == [] then Refuses(fetches(last)) || source == [] else Refuses(flushes(last))
      ensures error <==> old(error) || (Staged() != [] && flushes(last) == Fails)
      ensures old(Staged() != []) && !Refuses(flushes(0)) ==> |sink| > old(|sink|)
      ensures old(Staged() == [] && source != []) && !Refuses(fetches(0)) ==> |source| < old(|source|)
    {
      ghost var start := View();
      DrainMoves(ToSocket, start, flushes, fetches, buffer.Length, 0);
      last := 0;
      var more, i := true, 0;
      while more
        invariant Valid()
        invariant if more then Drained(ToSocket, start, flushes, fetches, buffer.Length, 0)
                               == Drained(ToSocket, View(), flushes, fetches, buffer.Length, i)
                  else Drained(ToSocket, start, flushes, fetches, buffer.Length, 0) == Drain(View(), last)
        decreases more, Left(View())
      {
        RoundMoves(ToSocket, View(), flushes(i), fetches(i), buffer.Length);
        more := SendRound(flushes(i), fetches(i));
        last := i;
        i := i + 1;
      }
    }

    /** One round of drainBioSendPipe; false if it is the last one. */
    method SendRound(flush: Answer, fetch: Answer) returns (more: bool)
      requires Valid()
      modifies this`current, this`total, this`error, this`source, this`sink, buffer
      ensures Valid() && Round(View(), more) == OneRound(ToSocket, old(View()), flush, fetch, buffer.Length)
    {
      if current < total {
        var progress := Flush(flush);
        if !progress {
          if flush == Fails {
            error := true;
          }
          return false;
        }
      }
      more := true;
      if total == 0 {
        var res := Fetch(fetch);
        more := res.Moved?;
      }
    }
  }
}
