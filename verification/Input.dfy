/**
 * The input side of a connection: one read buffer, filled from the socket,
 * compacted, grown and shrunk, in which packets are completed and handed out.
 */
module Input {
  import opened Basics
  import opened Wire

  const READ_BUFFER_HIGHWAT: nat := 8192
  const MAX_ALLOCS: nat := 4

  /** What recv finds: at least this much data, end of stream, nothing yet, or an error. */
  datatype Answer = Data(n: nat) | Closed | Blocks | Fails {
    predicate Delivers() {
      Data? && n > 0
    }
  }

  datatype ReadResult = DataReceived | NoDataReceived | SocketError | MemoryError

  /** Doubled until it is at least `needed`. */
  function RoundUp(n: nat, needed: nat): (r: nat)
    requires 0 < n
    ensures needed <= r && n <= r
    decreases needed - n
  {
    if needed <= n then n else RoundUp(2 * n, needed)
  }

  /** What makes a connection move on: the socket is read, a header is parsed, a body is read, a command is done. */
  datatype Event =
    | Read(answers: nat -> Answer, allocates: nat -> bool, pipe: bool)
    | Command(accepted: bool, room: bool)
    | Body(answer: Answer)
    | Reset(room: bool)

  /** Every recv finds data (or nothing yet) and every allocation succeeds. */
  ghost predicate Cooperates(answers: nat -> Answer, allocates: nat -> bool) {
    (forall i :: answers(i).Delivers()) && forall i :: allocates(i)
  }

  /** Nothing the kernel, the allocator or the dispatcher does gets in the way. */
  ghost predicate Helps(e: Event) {
    match e
    case Read(answers, allocates, _) => Cooperates(answers, allocates)
    case Command(accepted, room) => accepted && room
    case Body(answer) => answer.Delivers()
    case Reset(_) => true
  }

  function Kind(e: Event): nat {
    match e
    case Read(_, _, _) => 0
    case Command(_, _) => 1
    case Body(_) => 2
    case Reset(_) => 3
  }

  /** Event `i` helps, and it is its kind's turn. */
  ghost predicate InTurn(e: Event, i: nat) {
    Helps(e) && if i % 3 == 0 then e.Read? else if i % 3 == 1 then e.Command? else e.Body?
  }

  ghost predicate AllInTurn(events: seq<Event>) {
    forall i :: 0 <= i < |events| ==> InTurn(events[i], i)
  }

  function Wait(due: nat, turn: nat): nat
    requires due < 3 && turn < 3
  {
    if due >= turn then due - turn else due + 3 - turn
  }

  /** Less work, or the same with the due event one turn nearer. */
  lemma RankFalls(work: nat, due: nat, work': nat, due': nat, i: nat)
    requires due < 3 && due' < 3 && (work' < work || (work' == work && due' == due && due != i % 3))
    ensures 3 * work' + Wait(due', (i + 1) % 3) < 3 * work + Wait(due, i % 3)
  {
  }

  ghost predicate AllFramed(packets: seq<seq<byte>>) {
    forall i :: 0 <= i < |packets| ==> Framed(packets[i])
  }

  lemma FramedNext(packets: seq<seq<byte>>, p: seq<byte>)
    requires Framed(p)
    ensures AllFramed(packets) ==> AllFramed(packets + [p])
  {
  }

  /** The bytes are whole packets. */
  ghost predicate Whole(p: seq<byte>) {
    Frames(p).Some?
  }

  lemma WholeStart(p: seq<byte>)
    requires Whole(p) && p != []
    ensures HEADER_SIZE <= |p| && HEADER_SIZE + HeaderOf(p)[6] <= |p|
  {
  }

  lemma {:induction false} WholeRest(p: seq<byte>, rest: seq<byte>)
    requires Framed(p) && Whole(p + rest)
    ensures Whole(rest)
  {
    HeaderSize();
    UnpackPrefix(HEADER, p, rest);
    SplitOfConcat(p, rest);
  }

  /** The size after that many doublings. */
  function Twice(n: nat, times: nat): nat
    requires times <= MAX_ALLOCS
  {
    if times == 0 then n else if times == 1 then 2 * n else if times == 2 then 4 * n
    else if times == 3 then 8 * n else 16 * n
  }

  /** How many bytes recv delivers into `room` when `left` are to come. */
  function Took(answer: Answer, room: nat, left: nat): (n: nat)
    ensures n <= room && n <= left && (n == 0 <==> !answer.Delivers() || room == 0 || left == 0)
  {
    if !answer.Data? then 0
    else
      var n := if answer.n < room then answer.n else room;
      if n < left then n else left
  }

  /** How reading ends: bytes in the buffer, bytes still to come, the size of the buffer, and the result. */
  datatype Outcome = Outcome(have: nat, left: nat, size: nat, result: ReadResult)

  /** One round of reading: where it leads, whether there is another one, and the reallocations so far. */
  datatype Round = Round(o: Outcome, more: bool, allocs: nat)

  /** A full buffer is doubled, at most four times; then recv is called, and again if it fills the buffer up. */
  function OneRound(have: nat, left: nat, size: nat, answer: Answer, grows: bool, pipe: bool, numAllocs: nat,
                    got: ReadResult): (r: Round)
    requires 0 < size && have <= size && numAllocs <= MAX_ALLOCS
    ensures r.more ==> && 0 < r.o.have == r.o.size && r.allocs <= MAX_ALLOCS
                       && (r.allocs == numAllocs + 1 || (r.allocs == numAllocs && have < size == r.o.size))
  {
    if have == size && numAllocs == MAX_ALLOCS then Round(Outcome(have, left, size, got), false, numAllocs)
    else if have == size && !grows then Round(Outcome(0, left, size, MemoryError), false, numAllocs + 1)
    else
      var size', allocs' := if have == size then 2 * size else size, if have == size then numAllocs + 1 else numAllocs;
      var n := Took(answer, size' - have, left);
      if n > 0 then Round(Outcome(have + n, left - n, size', DataReceived), n == size' - have, allocs')
      else if answer.Fails? || (answer.Closed? && !pipe) then
        Round(Outcome(have, left, size', SocketError), false, allocs')
      else Round(Outcome(have, left, size', if answer.Closed? then NoDataReceived else got), false, allocs')
  }

  /** All rounds from the one with call `i` of recv on. */
  function Filled(have: nat, left: nat, size: nat, answers: nat -> Answer, allocates: nat -> bool, pipe: bool,
                  numAllocs: nat, i: nat, got: ReadResult): (o: Outcome)
    requires 0 < size && have <= size && numAllocs <= MAX_ALLOCS
    decreases MAX_ALLOCS - numAllocs, size - have
  {
    var r := OneRound(have, left, size, answers(i), allocates(numAllocs + 1), pipe, numAllocs, got);
    if r.more then Filled(r.o.have, r.o.left, r.o.size, answers, allocates, pipe, r.allocs, i + 1, r.o.result) else r.o
  }

  lemma FilledNext(goal: Outcome, have: nat, left: nat, size: nat, answers: nat -> Answer, allocates: nat -> bool,
                   pipe: bool, numAllocs: nat, i: nat, got: ReadResult)
    requires 0 < size && have <= size && numAllocs <= MAX_ALLOCS
    requires goal == Filled(have, left, size, answers, allocates, pipe, numAllocs, i, got)
    ensures var r := OneRound(have, left, size, answers(i), allocates(numAllocs + 1), pipe, numAllocs, got);
            goal == if !r.more then r.o
                    else Filled(r.o.have, r.o.left, r.o.size, answers, allocates, pipe, r.allocs, i + 1, r.o.result)
  {
  }

  /** What comes of it. */
  lemma {:induction false} FilledFacts(have: nat, left: nat, size: nat, answers: nat -> Answer, allocates: nat -> bool,
                                       pipe: bool, numAllocs: nat, i: nat, got: ReadResult)
    requires 0 < size && have <= size && numAllocs <= MAX_ALLOCS && (got == DataReceived || got == NoDataReceived)
    ensures var o := Filled(have, left, size, answers, allocates, pipe, numAllocs, i, got);
            && (if o.result == MemoryError then o.have == 0 else have <= o.have && o.have + o.left == have + left)
            && (o.result == DataReceived ==> have < o.have || got == DataReceived)
            && (o.result == NoDataReceived && !pipe ==> have == o.have && got == NoDataReceived)
            && (left > 0 && answers(i).Delivers()
                && (have < size || (numAllocs < MAX_ALLOCS && allocates(numAllocs + 1))) ==>
                  o.result == MemoryError || have < o.have)
            && (Cooperates(answers, allocates) ==> o.result == DataReceived || o.result == NoDataReceived)
    decreases MAX_ALLOCS - numAllocs, size - have
  {
    var r := OneRound(have, left, size, answers(i), allocates(numAllocs + 1), pipe, numAllocs, got);
    if r.more {
      FilledFacts(r.o.have, r.o.left, r.o.size, answers, allocates, pipe, r.allocs, i + 1, r.o.result);
    }
  }

  lemma {:induction false} FilledSize(have: nat, left: nat, size: nat, answers: nat -> Answer, allocates: nat -> bool,
                                      pipe: bool, numAllocs: nat, i: nat, got: ReadResult)
    requires 0 < size && have <= size && numAllocs <= MAX_ALLOCS
    ensures var o := Filled(have, left, size, answers, allocates, pipe, numAllocs, i, got);
            size <= o.size <= Twice(size, MAX_ALLOCS - numAllocs)
    decreases MAX_ALLOCS - numAllocs, size - have
  {
    var r := OneRound(have, left, size, answers(i), allocates(numAllocs + 1), pipe, numAllocs, got);
    if r.more {
      FilledSize(r.o.have, r.o.left, r.o.size, answers, allocates, pipe, r.allocs, i + 1, r.o.result);
    }
  }

  /** A longer front part of the same bytes begins with the shorter one. */
  lemma FrontGrows<T>(a: seq<T>, b: seq<T>, c: seq<T>, d: seq<T>)
    requires a + b == c + d && |c| <= |a|
    ensures c <= a
  {
    assert forall i :: 0 <= i < |c| ==> (a + b)[i] == a[i] && (c + d)[i] == c[i];
  }

  class Reader {
    /** read.buf, whose length is read.size; read.curr is a position in it. */
    var buf: array<byte>
    var curr: nat
    var bytes: nat
    /** The header of the current packet, as received. */
    var header: seq<byte>
    /** While a body is read: its length, how much of it is missing, and where it continues. */
    var nread: bool
    var bodylen: nat
    var rlbytes: nat
    var ritem: nat
    var closing: bool
    /** What the peer sends and recv has not delivered yet. */
    var incoming: seq<byte>

    ghost predicate Valid()
      reads this, buf
    {
      0 < buf.Length && curr + bytes <= buf.Length
    }

    ghost function Unparsed(): seq<byte>
      requires Valid()
      reads this, buf
    {
      buf[..][curr..curr + bytes]
    }

    /** recv into buf[at..at + room]. */
    method Recv(at: nat, room: nat, answer: Answer) returns (res: Answer)
      requires at + room <= buf.Length && 0 < room
      modifies buf, this`incoming
      ensures buf[..at] == old(buf[..at])
      ensures res.Data? ==> 0 < res.n <= room && res.n <= |old(incoming)| &&
                            buf[at..at + res.n] == old(incoming)[..res.n] && incoming == old(incoming)[res.n..]
      ensures !res.Data? ==> incoming == old(incoming) && buf[..] == old(buf[..])
      ensures res.Data? <==> answer.Delivers() && old(incoming) != []
      ensures !answer.Data? ==> res == answer
      ensures answer.Data? ==> res.Data? || res == Blocks
      ensures res.Data? ==> res.n == Took(answer, room, |old(incoming)|)
    {
      if !answer.Data? {
        return answer;
      }
      var n := if answer.n < room then answer.n else room;
      n := if n < |incoming| then n else |incoming|;
      if n == 0 {
        return Blocks;
      }
      forall i | 0 <= i < n {
        buf[at + i] := incoming[i];
      }
      incoming := incoming[n..];
      return Data(n);
    }

    /** Moves the unparsed bytes to the front. */
    method Compact()
      requires Valid()
      modifies this`curr, buf
      ensures Valid() && curr == 0 && Unparsed() == old(Unparsed())
    {
      if curr != 0 {
        forall i | 0 <= i < bytes {
          buf[i] := buf[curr + i];
        }
        curr := 0;
      }
    }

    /** realloc: the bytes that fit are kept; the position in the buffer does not change. */
    method Reallocate(size: nat)
      requires Valid() && 0 < size && curr + bytes <= size
      modifies this`buf
      ensures Valid() && fresh(buf) && buf.Length == size && Unparsed() == old(Unparsed())
    {
      var moved := new byte[size](_ => 0);
      forall i | 0 <= i < size && i < buf.Length {
        moved[i] := buf[i];
      }
      buf := moved;
    }

    /** One round of tryReadNetwork's loop on a compacted buffer with room in it. */
    method ReadOnce(answer: Answer) returns (res: Answer, full: bool)
      requires Valid() && curr == 0 && bytes < buf.Length
      modifies buf, this`bytes, this`incoming
      ensures Valid() && Unparsed() + incoming == old(Unparsed() + incoming)
      ensures res.Data? ==> old(bytes) < bytes
      ensures !res.Data? ==> bytes == old(bytes)
      ensures full == (res.Data? && bytes == buf.Length)
      ensures answer.Delivers() && old(incoming) != [] ==> res.Data?
      ensures answer.Data? ==> res.Data? || res == Blocks
      ensures !answer.Data? ==> res == answer
      ensures var n := Took(answer, buf.Length - old(bytes), |old(incoming)|);
              bytes == old(bytes) + n && |incoming| == |old(incoming)| - n && res.Data? == (n > 0)
    {
      var avail := buf.Length - bytes;
      ghost var was, stream := Unparsed(), incoming;
      res := Recv(bytes, avail, answer);
      full := false;
      if res.Data? {
        bytes := bytes + res.n;
        full := res.n == avail;
        assert Unparsed() == buf[..bytes] == was + stream[..res.n];
      }
    }

    /** tryReadNetwork. `answers` and `allocates` say what recv and realloc do on each call. */
    method TryRead(answers: nat -> Answer, allocates: nat -> bool, pipe: bool) returns (r: ReadResult)
      requires Valid()
      modifies buf, this`buf, this`curr, this`bytes, this`incoming, this`closing
      ensures Valid() && (buf == old(buf) || fresh(buf)) && curr == 0
      ensures old(buf.Length) <= buf.Length <= 16 * old(buf.Length)
      ensures r != MemoryError ==> Unparsed() + incoming == old(Unparsed() + incoming) && old(Unparsed()) <= Unparsed()
      ensures r == MemoryError ==> bytes == 0 && closing
      ensures r != MemoryError ==> closing == old(closing)
      ensures r == DataReceived ==> old(bytes) < bytes
      ensures r == NoDataReceived && !pipe ==> bytes == old(bytes)
      ensures old(incoming != [] && (bytes < buf.Length || allocates(1))) && answers(0).Delivers() ==>
                r == MemoryError || old(bytes) < bytes
      ensures Cooperates(answers, allocates) ==> r == DataReceived || r == NoDataReceived
      ensures Outcome(bytes, |incoming|, buf.Length, r) ==
              Filled(old(bytes), |old(incoming)|, old(buf.Length), answers, allocates, pipe, 0, 0, NoDataReceived)
    {
      Compact();
      ghost var was, stream := Unparsed(), incoming;
      r := FillBuffer(answers, allocates, pipe);
      if r != MemoryError {
        FrontGrows(Unparsed(), incoming, was, stream);
      }
    }

    /** Doubles the buffer; if that fails, what was read is ignored and the connection closes. */
    method Double(allocates: bool) returns (ok: bool)
      requires Valid() && curr == 0
      modifies this`buf, this`bytes, this`closing
      ensures Valid() && ok == allocates
      ensures ok ==> fresh(buf) && buf.Length == 2 * old(buf.Length) && Unparsed() == old(Unparsed())
      ensures ok ==> closing == old(closing) && bytes == old(bytes)
      ensures !ok ==> buf == old(buf) && bytes == 0 && closing
    {
      ok := allocates;
      if !ok {
        bytes, closing := 0, true;
        return;
      }
      Reallocate(buf.Length * 2);
    }

    /** tryReadNetwork on a compacted buffer. */
    method FillBuffer(answers: nat -> Answer, allocates: nat -> bool, pipe: bool) returns (r: ReadResult)
      requires Valid() && curr == 0
      modifies buf, this`buf, this`bytes, this`incoming, this`closing
      ensures Valid() && (buf == old(buf) || fresh(buf))
      ensures old(buf.Length) <= buf.Length <= 16 * old(buf.Length)
      ensures r != MemoryError ==> Unparsed() + incoming == old(Unparsed() + incoming) && old(bytes) <= bytes
      ensures if r == MemoryError then bytes == 0 && closing else closing == old(closing)
      ensures r == DataReceived ==> old(bytes) < bytes
      ensures r == NoDataReceived && !pipe ==> bytes == old(bytes)
      ensures old(incoming != [] && (bytes < buf.Length || allocates(1))) && answers(0).Delivers() ==>
                r == MemoryError || old(bytes) < bytes
      ensures Cooperates(answers, allocates) ==> r == DataReceived || r == NoDataReceived
      ensures Outcome(bytes, |incoming|, buf.Length, r) ==
              Filled(old(bytes), |old(incoming)|, old(buf.Length), answers, allocates, pipe, 0, 0, NoDataReceived)
    {
      ghost var have, left, size := bytes, |incoming|, buf.Length;
      r := FillLoop(answers, allocates, pipe);
      FilledFacts(have, left, size, answers, allocates, pipe, 0, 0, NoDataReceived);
      FilledSize(have, left, size, answers, allocates, pipe, 0, 0, NoDataReceived);
    }

    /** The loop of tryReadNetwork, call by call. */
    method FillLoop(answers: nat -> Answer, allocates: nat -> bool, pipe: bool) returns (r: ReadResult)
      requires Valid() && curr == 0
      modifies buf, this`buf, this`bytes, this`incoming, this`closing
      ensures Valid() && (buf == old(buf) || fresh(buf))
      ensures Outcome(bytes, |incoming|, buf.Length, r) ==
              Filled(old(bytes), |old(incoming)|, old(buf.Length), answers, allocates, pipe, 0, 0, NoDataReceived)
      ensures if r == MemoryError then closing else closing == old(closing) && Conserved(old(Unparsed() + incoming))
    {
      ghost var all, wasClosing := Unparsed() + incoming, closing;
      ghost var goal := Filled(bytes, |incoming|, buf.Length, answers, allocates, pipe, 0, 0, NoDataReceived);
      r := NoDataReceived;
      var more, numAllocs, i := true, 0, 0;
      while more
        invariant buf == old(buf) || fresh(buf)
        invariant OnCourse(goal, all, wasClosing, answers, allocates, pipe, more, numAllocs, i, r)
        decreases more, MAX_ALLOCS + 1 - numAllocs, buf.Length - bytes
      {
        r, more, numAllocs := FillNext(goal, all, wasClosing, answers, allocates, pipe, numAllocs, i, r);
        i := i + 1;
      }
    }

    /** Reading leads to `goal` from here. */
    ghost predicate OnCourse(goal: Outcome, all: seq<byte>, wasClosing: bool, answers: nat -> Answer,
                             allocates: nat -> bool, pipe: bool, more: bool, numAllocs: nat, i: nat, r: ReadResult)
      reads this, buf
    {
      && Valid() && curr == 0 && numAllocs <= MAX_ALLOCS + 1
      && (more ==> numAllocs <= MAX_ALLOCS && r != MemoryError)
      && (if r == MemoryError then closing else closing == wasClosing && Conserved(all))
      && goal == if more then Filled(bytes, |incoming|, buf.Length, answers, allocates, pipe, numAllocs, i, r)
                 else Outcome(bytes, |incoming|, buf.Length, r)
    }

    method FillNext(ghost goal: Outcome, ghost all: seq<byte>, ghost wasClosing: bool, answers: nat -> Answer,
                    allocates: nat -> bool, pipe: bool, numAllocs: nat, i: nat, got: ReadResult)
      returns (r: ReadResult, more: bool, numAllocs': nat)
      requires OnCourse(goal, all, wasClosing, answers, allocates, pipe, true, numAllocs, i, got)
      modifies buf, this`buf, this`bytes, this`incoming, this`closing
      ensures buf == old(buf) || fresh(buf)
      ensures OnCourse(goal, all, wasClosing, answers, allocates, pipe, more, numAllocs', i + 1, r)
      ensures more ==>
                || numAllocs' > numAllocs
                || (numAllocs' == numAllocs && buf.Length - bytes < old(buf.Length - bytes))
    {
      FilledNext(goal, bytes, |incoming|, buf.Length, answers, allocates, pipe, numAllocs, i, got);
      r, more, numAllocs' := FillRound(answers(i), allocates(numAllocs + 1), pipe, numAllocs, got);
    }

    /** One round of the loop. */
    method FillRound(answer: Answer, grows: bool, pipe: bool, numAllocs: nat, got: ReadResult)
      returns (r: ReadResult, more: bool, numAllocs': nat)
      requires Valid() && curr == 0 && numAllocs <= MAX_ALLOCS && got != MemoryError
      modifies buf, this`buf, this`bytes, this`incoming, this`closing
      ensures Valid() && (buf == old(buf) || fresh(buf))
      ensures Round(Outcome(bytes, |incoming|, buf.Length, r), more, numAllocs') ==
              OneRound(old(bytes), |old(incoming)|, old(buf.Length), answer, grows, pipe, numAllocs, got)
      ensures if r == MemoryError then closing else closing == old(closing) && Conserved(old(Unparsed() + incoming))
    {
      r, more, numAllocs' := got, false, numAllocs;
      if bytes >= buf.Length {
        if numAllocs == MAX_ALLOCS {
          return;
        }
        numAllocs' := numAllocs + 1;
        if !grows {
          var ok := Double(false);
          return MemoryError, false, numAllocs';
        }
        GrowBuffer();
      }
      r, more := ReadAndJudge(answer, pipe, got);
    }

    /** The reallocation works. */
    method GrowBuffer()
      requires Valid() && curr == 0
      modifies this`buf, this`bytes, this`closing
      ensures Valid() && fresh(buf) && buf.Length == 2 * old(buf.Length)
      ensures Conserved(old(Unparsed() + incoming)) && closing == old(closing) && bytes == old(bytes)
    {
      var ok := Double(true);
    }

    /** One call of recv, and what it means. */
    method ReadAndJudge(answer: Answer, pipe: bool, got: ReadResult) returns (r: ReadResult, more: bool)
      requires Valid() && curr == 0 && bytes < buf.Length && got != MemoryError
      modifies buf, this`bytes, this`incoming
      ensures Valid() && Conserved(old(Unparsed() + incoming)) && r != MemoryError
      ensures var n := Took(answer, buf.Length - old(bytes), |old(incoming)|);
              && bytes == old(bytes) + n && |incoming| == |old(incoming)| - n
              && more == (n > 0 && bytes == buf.Length)
              && r == if n > 0 then DataReceived
                      else if answer.Fails? || (answer.Closed? && !pipe) then SocketError
                      else if answer.Closed? then NoDataReceived else got
    {
      r, more := got, false;
      var res, full := ReadOnce(answer);
      match res
      case Data(_) =>
        r, more := DataReceived, full;
      case Closed =>
        r := if pipe then NoDataReceived else SocketError;
      case Blocks =>
      case Fails =>
        r := SocketError;
    }

    ghost predicate Conserved(all: seq<byte>)
      requires Valid()
      reads this, buf
    {
      Unparsed() + incoming == all
    }

    /** The read part of shrinkBuffers; `allocates` is what realloc answers. */
    method Shrink(allocates: bool)
      requires Valid()
      modifies buf, this`buf, this`curr
      ensures Valid() && (buf == old(buf) || fresh(buf)) && Unparsed() == old(Unparsed())
      ensures buf.Length == if allocates && old(buf.Length) > 8192 && bytes < 2048 then 2048 else old(buf.Length)
      ensures if old(buf.Length) > 8192 && bytes < 2048 then curr == 0 else buf == old(buf) && curr == old(curr)
    {
      if buf.Length > READ_BUFFER_HIGHWAT && bytes < DATA_BUFFER_SIZE {
        Compact();
        if allocates {
          Reallocate(DATA_BUFFER_SIZE);
        }
      }
    }

    static method DoubleUntil(size: nat, needed: nat) returns (nsize: nat)
      requires 0 < size
      ensures nsize == RoundUp(size, needed)
    {
      nsize := size;
      while needed > nsize
        invariant 0 < nsize && RoundUp(size, needed) == RoundUp(nsize, needed)
      {
        nsize := nsize * 2;
      }
    }

    /** Room for `needed` bytes from the front of the buffer. */
    method GrowAndPack(needed: nat, allocates: bool) returns (ok: bool)
      requires Valid()
      modifies buf, this`buf, this`curr
      ensures Valid() && (buf == old(buf) || fresh(buf)) && Unparsed() == old(Unparsed())
      ensures ok <==> allocates || needed <= old(buf.Length)
      ensures if ok then curr == 0 && buf.Length == RoundUp(old(buf.Length), needed)
              else buf.Length == old(buf.Length) && curr == old(curr)
    {
      var nsize := DoubleUntil(buf.Length, needed);
      if nsize != buf.Length {
        if !allocates {
          return false;
        }
        Reallocate(nsize);
      }
      Compact();
      return true;
    }

    /** bin_read_chunk: room for the header at read.curr and a body of `chunk` bytes behind it. */
    method ReadChunk(chunk: nat, allocates: bool) returns (ok: bool)
      requires Valid() && !nread
      modifies buf, this`buf, this`curr, this`rlbytes, this`ritem, this`nread, this`closing
      ensures Valid() && (buf == old(buf) || fresh(buf)) && Unparsed() == old(Unparsed()) && rlbytes == chunk
      ensures (if ok then nread && closing == old(closing) else closing && !nread) && (allocates ==> ok)
      ensures ok ==> ritem == curr + HEADER_SIZE && ritem + chunk <= buf.Length
      ensures buf.Length == if ok && old(curr) + HEADER_SIZE + chunk > old(buf.Length)
                            then RoundUp(old(buf.Length), chunk + HEADER_SIZE) else old(buf.Length)
      ensures old(curr) + HEADER_SIZE + chunk <= old(buf.Length) ==> ok && buf == old(buf) && curr == old(curr)
      ensures old(curr) + HEADER_SIZE + chunk > old(buf.Length) ==>
                && (ok <==> allocates || chunk + HEADER_SIZE <= old(buf.Length))
                && curr == if ok then 0 else old(curr)
    {
      rlbytes := chunk;
      var offset := curr + HEADER_SIZE;
      if chunk > buf.Length - offset {
        ok := GrowAndPack(chunk + HEADER_SIZE, allocates);
        if !ok {
          closing := true;
          return;
        }
        assert chunk + HEADER_SIZE <= buf.Length;
      }
      ritem, nread := curr + HEADER_SIZE, true;
      return true;
    }

    // ----- reading packets -----

    /** The bytes of the current packet that are in place, from its header up to read.curr. */
    ghost function Begun(): seq<byte>
      requires nread ==> InBody()
      reads this, buf
    {
      if nread then buf[..][curr - (HEADER_SIZE + bodylen - rlbytes)..curr] else []
    }

    /** A body is read where it belongs: right behind the part that is there. */
    ghost predicate InBody()
      reads this, buf
    {
      && ritem == curr && rlbytes <= bodylen
      && HEADER_SIZE + bodylen - rlbytes <= curr && curr + rlbytes <= buf.Length
    }

    ghost predicate Ready()
      reads this, buf
    {
      Valid() && (nread ==> InBody() && |header| == HEADER_SIZE && header <= Begun())
    }

    /** The body length is the one in the header. */
    ghost predicate Announced()
      reads this
    {
      nread ==> Announces(header, bodylen)
    }

    /** Everything that has not been handed out yet: begun packet, unparsed bytes, bytes still to arrive. */
    ghost function Ahead(): seq<byte>
      requires Ready()
      reads this, buf
    {
      Begun() + (Unparsed() + incoming)
    }

    /** How far the bytes ahead have to go: from the socket to the buffer, into a packet, and out. */
    ghost function Work(): nat
      requires Ready()
      reads this, buf
    {
      |Ahead()| + bytes + 2 * |incoming|
    }

    /** The event has something to do. */
    ghost predicate Due(e: Event)
      reads this
    {
      match e
      case Read(_, _, _) => !nread && incoming != []
      case Command(_, _) => !nread && HEADER_SIZE <= bytes
      case Body(_) => nread && (rlbytes == 0 || 0 < bytes || incoming != [])
      case Reset(_) => false
    }

    /** try_read_mcbp_command: takes the header and makes room for the body; `accepted` if dispatch admits it. */
    method Parse(accepted: bool, allocates: bool)
      requires Ready() && !nread && HEADER_SIZE <= bytes
      modifies buf, this`buf, this`curr, this`bytes, this`header, this`bodylen, this`rlbytes, this`ritem, this`nread,
               this`closing
      ensures Ready() && Announced() && (buf == old(buf) || fresh(buf))
      ensures !closing ==> nread && Ahead() == old(Ahead())
      ensures closing == (old(closing) || !nread) && (accepted && allocates ==> nread) && (nread ==> accepted)
      ensures bytes == old(bytes) - HEADER_SIZE
    {
      ghost var was := Unparsed() + incoming;
      assert [] + was == was;
      TakeHeader();
      if accepted {
        Begin(allocates);
      } else {
        closing := true;
        Consume();
      }
    }

    method TakeHeader()
      requires Valid() && HEADER_SIZE <= bytes
      modifies this`header, this`bodylen
      ensures header == buf[..][curr..curr + HEADER_SIZE] && Announces(header, bodylen)
    {
      header := buf[..][curr..curr + HEADER_SIZE];
      bodylen := HeaderOf(header)[6];
    }

    /** dispatch_bin_command admits the packet; then the header is taken. */
    method Begin(allocates: bool)
      requires Valid() && !nread && HEADER_SIZE <= bytes && header == buf[..][curr..curr + HEADER_SIZE]
      modifies buf, this`buf, this`curr, this`bytes, this`rlbytes, this`ritem, this`nread, this`closing
      ensures Ready() && (buf == old(buf) || fresh(buf))
      ensures !closing ==> nread && Ahead() == old(Unparsed() + incoming)
      ensures closing == (old(closing) || !nread) && (allocates ==> nread)
      ensures bytes == old(bytes) - HEADER_SIZE
    {
      ghost var before := Unparsed();
      assert header == before[..HEADER_SIZE] by {
        SplitSlice(buf[..], curr, curr + HEADER_SIZE, curr + bytes);
      }
      var ok := PlaceBody(allocates);
      Consume();
      if ok {
        assert HEADER_SIZE + bodylen - rlbytes == HEADER_SIZE;
        assert Begun() == before[..HEADER_SIZE];
        InParts(before, HEADER_SIZE, incoming);
      }
    }

    /** Room for the body behind the header, wherever that is. */
    method PlaceBody(allocates: bool) returns (ok: bool)
      requires Valid() && !nread
      modifies buf, this`buf, this`curr, this`rlbytes, this`ritem, this`nread, this`closing
      ensures Valid() && (buf == old(buf) || fresh(buf)) && Unparsed() == old(Unparsed()) && rlbytes == bodylen
      ensures (if ok then nread && closing == old(closing) else closing && !nread) && (allocates ==> ok)
      ensures ok ==> ritem == curr + HEADER_SIZE && ritem + bodylen <= buf.Length
    {
      ok := ReadChunk(bodylen, allocates);
    }

    /** The header is taken off the unparsed bytes. */
    method Consume()
      requires Valid() && HEADER_SIZE <= bytes
      modifies this`bytes, this`curr
      ensures Valid() && bytes == old(bytes) - HEADER_SIZE && curr == old(curr) + HEADER_SIZE
      ensures Unparsed() == old(Unparsed())[HEADER_SIZE..]
      ensures buf[..][curr - HEADER_SIZE..curr] == old(Unparsed())[..HEADER_SIZE]
    {
      SplitSlice(buf[..], curr, curr + HEADER_SIZE, curr + bytes);
      bytes, curr := bytes - HEADER_SIZE, curr + HEADER_SIZE;
    }

    /** `n` more bytes of the body are in place. */
    method Extend(n: nat)
      requires Ready() && nread && n <= rlbytes
      modifies this`curr, this`rlbytes, this`ritem
      ensures curr == old(curr) + n && rlbytes == old(rlbytes) - n && InBody()
      ensures Begun() == old(Begun() + buf[..][curr..curr + n]) && header <= Begun()
    {
      SlicesMeet(buf[..], curr - |Begun()|, curr, curr + n);
      ritem, rlbytes, curr := ritem + n, rlbytes - n, curr + n;
    }

    /** conn_nread, first part: what is left in the buffer belongs to the body. */
    method TakeLeftover()
      requires Ready() && nread
      modifies this`curr, this`bytes, this`rlbytes, this`ritem
      ensures Ready() && Ahead() == old(Ahead()) && (rlbytes == 0 || bytes == 0) && incoming == old(incoming)
      ensures bytes + old(rlbytes) == old(bytes) + rlbytes
    {
      var n := if bytes > rlbytes then rlbytes else bytes;
      Regroup(Begun(), Unparsed(), incoming, n);
      Absorb(n);
    }

    /** `n` unparsed bytes become part of the body. */
    method Absorb(n: nat)
      requires Ready() && nread && n <= rlbytes && n <= bytes
      modifies this`curr, this`bytes, this`rlbytes, this`ritem
      ensures Valid() && InBody() && bytes == old(bytes) - n && rlbytes == old(rlbytes) - n
      ensures Begun() == old(Begun() + Unparsed()[..n]) && Unparsed() == old(Unparsed())[n..] && header <= Begun()
    {
      SplitSlice(buf[..], curr, curr + n, curr + bytes);
      Extend(n);
      bytes := bytes - n;
    }

    /** conn_nread, second part: the rest of the body is received where it belongs. */
    method ReceiveBody(answer: Answer)
      requires Ready() && nread && 0 < rlbytes && bytes == 0
      modifies buf, this`curr, this`rlbytes, this`ritem, this`incoming, this`closing
      ensures Ready() && (!closing ==> Ahead() == old(Ahead()))
      ensures closing == (old(closing) || answer.Closed? || answer.Fails?) && rlbytes <= old(rlbytes)
      ensures answer.Delivers() && old(incoming) != [] ==> rlbytes < old(rlbytes)
      ensures |incoming| + old(rlbytes) == old(|incoming|) + rlbytes
    {
      ghost var begun, stream := Begun(), incoming;
      var res := RecvBehind(answer);
      if res.Data? {
        Extend(res.n);
        assert Unparsed() == [] && Begun() == begun + stream[..res.n] && incoming == stream[res.n..];
        RegroupStream(begun, stream, res.n);
      } else if !res.Blocks? {
        closing := true;
      }
    }

    /** The whole packet is in place: it is handed to its executor. */
    method HandOut() returns (packet: seq<byte>)
      requires Ready() && Announced() && nread && rlbytes == 0
      modifies this`nread
      ensures Ready() && !nread && Framed(packet) && packet + Ahead() == old(Ahead())
    {
      ghost var begun, rest := Begun(), Unparsed() + incoming;
      packet := buf[..][curr - (HEADER_SIZE + bodylen)..curr];
      assert packet == begun;
      FramedByHeader(header, packet);
      nread := false;
      assert Begun() == [] && [] + rest == rest;
    }

    /** What the connection does when it is scheduled; events that do not apply change nothing. */
    method Step(e: Event) returns (packet: Option<seq<byte>>)
      requires Ready() && Announced()
      modifies this, buf
      ensures Ready() && Announced() && (buf == old(buf) || fresh(buf))
      ensures packet.Some? ==> Framed(packet.value) && closing == old(closing)
      ensures !closing ==> (if packet.Some? then packet.value else []) + Ahead() == old(Ahead())
      ensures packet.Some? <==> e.Body? && old(nread && rlbytes == 0)
      ensures e.Command? && e.accepted && e.room && old(!nread && HEADER_SIZE <= bytes) ==> nread
      ensures e.Command? && old(!nread && HEADER_SIZE <= bytes) ==>
                (nread ==> e.accepted) && closing == (old(closing) || !nread)
      ensures e.Read? && old(!nread) ==>
                var o := Filled(old(bytes), |old(incoming)|, old(buf.Length), e.answers, e.allocates, e.pipe, 0, 0,
                                NoDataReceived);
                && bytes == o.have && |incoming| == o.left
                && closing == (old(closing) || o.result == SocketError || o.result == MemoryError)
      ensures Helps(e) ==> closing == old(closing)
      ensures Helps(e) && !closing ==>
                || Work() < old(Work())
                || (!old(Due(e)) && Work() == old(Work()) && nread == old(nread) && bytes == old(bytes))
    {
      packet := None;
      assert [] + Ahead() == Ahead();
      if e.Body? && nread {
        if rlbytes == 0 {
          var p := HandOut();
          packet := Some(p);
        } else {
          Continue(e.answer);
        }
      } else if !nread {
        match e
        case Read(answers, allocates, pipe) =>
          Fill(answers, allocates, pipe);
        case Command(accepted, room) =>
          if HEADER_SIZE <= bytes {
            Parse(accepted, room);
          }
        case Reset(room) =>
          Rest(room);
        case Body(_) =>
      }
    }

    /** Which kind of event has something to do next. */
    ghost function DueKind(): nat
      reads this
    {
      if nread then 2 else if HEADER_SIZE <= bytes then 1 else 0
    }

    /** While whole packets are ahead, the event of the due kind has something to do. */
    lemma SomethingIsDue(e: Event)
      requires Ready() && Announced() && Whole(Ahead()) && Ahead() != [] && Kind(e) == DueKind()
      ensures Due(e)
    {
      var ahead := Ahead();
      WholeStart(ahead);
      if nread {
        assert header <= ahead;
        HeaderSize();
        UnpackPrefix(HEADER, header, ahead[HEADER_SIZE..]);
        assert header + ahead[HEADER_SIZE..] == ahead;
      }
    }

    /** Work left, and events to wait until the due one has its turn, if event `i` is next. */
    ghost function Rank(i: nat): nat
      requires Ready()
      reads this, buf
    {
      3 * Work() + Wait(DueKind(), i % 3)
    }

    /** Step `i` of a run in which reading, parsing and completing take turns. */
    method StepInTurn(e: Event, ghost i: nat) returns (packet: Option<seq<byte>>)
      requires Ready() && Announced()
      modifies this, buf
      ensures Ready() && Announced() && (buf == old(buf) || fresh(buf))
      ensures packet.Some? ==> Framed(packet.value)
      ensures !closing ==> (if packet.Some? then packet.value else []) + Ahead() == old(Ahead())
      ensures InTurn(e, i) ==> closing == old(closing)
      ensures InTurn(e, i) && !closing && old(Whole(Ahead())) ==>
                Whole(Ahead()) && (Ahead() == [] || (old(Ahead()) != [] && Rank(i + 1) < old(Rank(i))))
    {
      ghost var before, work, due := Ahead(), Work(), DueKind();
      if Whole(before) && before != [] && Kind(e) == due {
        SomethingIsDue(e);
      }
      packet := Step(e);
      if InTurn(e, i) && !closing && Whole(before) {
        assert Whole(Ahead()) && (before == [] ==> Ahead() == []) by {
          if packet.Some? {
            WholeRest(packet.value, Ahead());
          } else {
            assert [] + Ahead() == Ahead();
          }
        }
        if before != [] {
          RankFalls(work, due, Work(), DueKind(), i);
        }
      }
    }

    /**
     * Any life of a connection: the packets handed out, followed by what is
     * begun, unparsed or still to arrive, are the bytes the peer sends. If the
     * peer sends whole packets and nothing gets in the way, all of them are
     * handed out.
     */
    method Run(events: seq<Event>) returns (packets: seq<seq<byte>>)
      requires Ready() && Announced()
      modifies this, buf
      ensures Ready() && Announced() && AllFramed(packets)
      ensures !closing ==> Join(packets) + Ahead() == old(Ahead())
      ensures AllInTurn(events) && old(!closing && Whole(Ahead())) && |events| > old(Rank(0)) ==>
                !closing && Ahead() == []
    {
      ghost var start, bound, helped := Ahead(), Rank(0), AllInTurn(events) && !closing && Whole(Ahead());
      packets := [];
      var i := 0;
      assert Join(packets) + Ahead() == start;
      while i < |events| && !closing
        invariant 0 <= i <= |events| && (buf == old(buf) || fresh(buf)) && Lives(packets, start, helped, i, bound)
      {
        packets := StepAndCollect(events[i], i, bound, helped, start, packets);
        i := i + 1;
      }
    }

    /** Whole packets are ahead, and few enough events are needed to hand them out. */
    ghost predicate OnTrack(i: nat, bound: nat)
      requires Ready()
      reads this, buf
    {
      !closing && Whole(Ahead()) && (Ahead() == [] || Rank(i) + i <= bound)
    }

    /** What holds when `i` events have happened and `packets` have been handed out. */
    ghost predicate Lives(packets: seq<seq<byte>>, start: seq<byte>, helped: bool, i: nat, bound: nat)
      reads this, buf
    {
      && Ready() && Announced() && AllFramed(packets)
      && (!closing ==> Join(packets) + Ahead() == start)
      && (helped ==> OnTrack(i, bound))
    }

    method StepAndCollect(e: Event, ghost i: nat, ghost bound: nat, ghost helped: bool, ghost start: seq<byte>,
                          packets: seq<seq<byte>>)
      returns (packets': seq<seq<byte>>)
      requires Lives(packets, start, helped, i, bound) && !closing && (helped ==> InTurn(e, i))
      modifies this, buf
      ensures (buf == old(buf) || fresh(buf)) && Lives(packets', start, helped, i + 1, bound)
    {
      packets' := packets;
      var packet := StepInTurn(e, i);
      if packet.Some? {
        JoinAppend(packets, packet.value);
        ConcatAssociates(Join(packets), packet.value, Ahead());
        FramedNext(packets, packet.value);
        packets' := packets + [packet.value];
      } else {
        assert [] + Ahead() == Ahead();
      }
    }

    /** conn_read */
    method Fill(answers: nat -> Answer, allocates: nat -> bool, pipe: bool)
      requires Ready() && !nread
      modifies buf, this`buf, this`curr, this`bytes, this`incoming, this`closing
      ensures Ready() && (buf == old(buf) || fresh(buf)) && (!closing ==> Ahead() == old(Ahead()))
      ensures !closing ==> bytes + |incoming| == old(bytes + |incoming|) && old(bytes) <= bytes
      ensures Cooperates(answers, allocates) ==>
                closing == old(closing) && (old(incoming) != [] && !closing ==> old(bytes) < bytes)
      ensures var o := Filled(old(bytes), |old(incoming)|, old(buf.Length), answers, allocates, pipe, 0, 0,
                              NoDataReceived);
              && bytes == o.have && |incoming| == o.left
              && closing == (old(closing) || o.result == SocketError || o.result == MemoryError)
    {
      ghost var unparsed, stream := Unparsed(), incoming;
      var r := TryRead(answers, allocates, pipe);
      assert r != MemoryError ==> |Unparsed() + incoming| == |unparsed + stream|;
      if r == SocketError {
        closing := true;
      }
    }

    /** reset_cmd_handler: an empty buffer is used from the front again, a large one is given back. */
    method Rest(allocates: bool)
      requires Ready() && !nread
      modifies buf, this`buf, this`curr
      ensures Ready() && (buf == old(buf) || fresh(buf)) && Ahead() == old(Ahead())
      ensures bytes == 0 ==> curr == 0
    {
      if bytes == 0 {
        curr := 0;
      }
      Shrink(allocates);
    }

    /** conn_nread while part of the body is missing. */
    method Continue(answer: Answer)
      requires Ready() && nread
      modifies buf, this`curr, this`bytes, this`rlbytes, this`ritem, this`incoming, this`closing
      ensures Ready() && (!closing ==> Ahead() == old(Ahead()))
      ensures answer.Delivers() ==> closing == old(closing)
      ensures bytes + |incoming| + old(rlbytes) == old(bytes + |incoming|) + rlbytes
      ensures bytes <= old(bytes) && |incoming| <= old(|incoming|) && rlbytes <= old(rlbytes)
      ensures old(0 < rlbytes && (0 < bytes || (incoming != [] && answer.Delivers()))) ==> rlbytes < old(rlbytes)
    {
      TakeLeftover();
      if rlbytes > 0 {
        ReceiveBody(answer);
      }
    }

    method RecvBehind(answer: Answer) returns (res: Answer)
      requires Ready() && nread && 0 < rlbytes
      modifies buf, this`incoming
      ensures InBody() && Begun() == old(Begun())
      ensures res.Data? ==> 0 < res.n <= rlbytes && res.n <= |old(incoming)| &&
                            buf[curr..curr + res.n] == old(incoming)[..res.n] && incoming == old(incoming)[res.n..]
      ensures !res.Data? ==> incoming == old(incoming)
      ensures res.Data? <==> answer.Delivers() && old(incoming) != []
      ensures if answer.Data? then res.Data? || res == Blocks else res == answer
    {
      ghost var front := buf[..curr];
      assert Begun() == front[curr - |Begun()|..];
      res := Recv(ritem, rlbytes, answer);
      assert front == buf[..curr];
    }
  }

  ghost predicate Announces(header: seq<byte>, bodylen: nat) {
    |header| == HEADER_SIZE && HeaderOf(header)[6] == bodylen
  }

  lemma FramedByHeader(header: seq<byte>, packet: seq<byte>)
    requires |header| == HEADER_SIZE && header <= packet && |packet| == HEADER_SIZE + HeaderOf(header)[6]
    ensures Framed(packet)
  {
    HeaderSize();
    UnpackPrefix(HEADER, header, packet[HEADER_SIZE..]);
    assert header + packet[HEADER_SIZE..] == packet;
  }

  /** If the peer sends whole packets, those handed out are the first of them. */
  lemma {:induction false} HandedOutInOrder(packets: seq<seq<byte>>, ahead: seq<byte>, sent: seq<seq<byte>>)
    requires AllFramed(packets) && AllFramed(sent)
    requires Join(packets) + ahead == Join(sent)
    ensures packets <= sent && (ahead == [] ==> packets == sent)
  {
    if packets == [] {
      assert Join(sent) == ahead;
      assert sent != [] ==> |Join(sent)| >= |sent[0]| > 0;
    } else {
      var p, rest := packets[0], Join(packets[1..]) + ahead;
      ConcatAssociates(p, Join(packets[1..]), ahead);
      assert sent != [];
      SameFirst(p, rest, sent[0], Join(sent[1..]));
      HandedOutInOrder(packets[1..], ahead, sent[1..]);
    }
  }

  /** Two packets at the front of the same bytes are the same. */
  lemma {:induction false} SameFirst(p: seq<byte>, rest: seq<byte>, q: seq<byte>, others: seq<byte>)
    requires Framed(p) && Framed(q) && p + rest == q + others
    ensures p == q && rest == others
  {
    HeaderSize();
    UnpackPrefix(HEADER, p, rest);
    UnpackPrefix(HEADER, q, others);
    SplitOfConcat(p, rest);
    SplitOfConcat(q, others);
  }

  lemma SlicesMeet<T>(s: seq<T>, a: nat, b: nat, c: nat)
    requires a <= b <= c <= |s|
    ensures s[a..c] == s[a..b] + s[b..c]
  {
  }

  lemma InParts<T>(s: seq<T>, n: nat, rest: seq<T>)
    requires n <= |s|
    ensures s[..n] + (s[n..] + rest) == s + rest
  {
  }

  lemma Regroup<T>(a: seq<T>, b: seq<T>, c: seq<T>, n: nat)
    requires n <= |b|
    ensures a + b[..n] + (b[n..] + c) == a + (b + c) && a <= a + b[..n]
  {
    assert b[..n] + b[n..] == b;
  }

  lemma RegroupStream<T>(a: seq<T>, b: seq<T>, n: nat)
    requires n <= |b|
    ensures a + b[..n] + ([] + b[n..]) == a + ([] + b)
  {
    Regroup(a, b, [], n);
    assert b[n..] + [] == [] + b[n..] && b + [] == [] + b;
  }
}
