/**
 * The DCP producers: callbacks through which the engine queues messages during
 * one dcp.step. Fixed parts are copied into the connection's write buffer, keys
 * and values of items are queued where they are.
 */
module Producers {
  import opened Basics
  import opened Output
  import opened Dcp

  datatype Status = Success | TooBig | Failed

  /** A range of item memory. */
  datatype Piece = Piece(buf: array<byte>, off: nat, len: nat)

  ghost predicate Holds(p: Piece, content: seq<byte>)
    reads p.buf
  {
    p.off + p.len <= p.buf.Length && p.buf[p.off..p.off + p.len] == content
  }

  /** The pieces lie outside `w` and hold these contents. */
  ghost predicate AllHold(ps: seq<Piece>, contents: seq<seq<byte>>, w: array<byte>)
    reads set i | 0 <= i < |ps| :: ps[i].buf
  {
    |ps| == |contents| && forall i :: 0 <= i < |ps| ==> ps[i].buf != w && Holds(ps[i], contents[i])
  }

  lemma {:induction false} JoinNext(contents: seq<seq<byte>>, i: nat)
    requires i < |contents|
    ensures Join(contents[..i + 1]) == Join(contents[..i]) + contents[i]
  {
    JoinAppend(contents[..i], contents[i]);
    assert contents[..i] + [contents[i]] == contents[..i + 1];
  }

  /** Entries over `w` lie below `n`, so that writing at `n` or above does not touch them. */
  ghost predicate Below(vs: seq<IoVec>, w: array<byte>, n: nat) {
    forall i :: 0 <= i < |vs| && vs[i].buf == w ==> vs[i].off + vs[i].len <= n
  }

  lemma {:induction false} CoversIsBelow(vs: seq<IoVec>, buf: array<byte>, lo: nat, hi: nat)
    requires Covers(vs, buf, lo, hi)
    ensures lo <= hi && Below(vs, buf, hi) && forall i :: 0 <= i < |vs| ==> vs[i].buf == buf
  {
    if vs != [] {
      var v := vs[|vs| - 1];
      CoversIsBelow(vs[..|vs| - 1], buf, lo, v.off);
      assert vs == vs[..|vs| - 1] + [v];
    }
  }

  lemma {:induction false} FlattenAppended(us: seq<IoVec>, vs: seq<IoVec>, buf: array<byte>, lo: nat, hi: nat)
    requires AllDenote(us) && Covers(vs, buf, lo, hi) && hi <= buf.Length
    ensures lo <= hi && AllDenote(us + vs) && Flatten(us + vs) == Flatten(us) + buf[lo..hi]
  {
    FlattenCovers(vs, buf, lo, hi);
    FlattenConcat(us, vs);
  }

  lemma BelowConcat(us: seq<IoVec>, vs: seq<IoVec>, w: array<byte>, m: nat, n: nat)
    requires Below(us, w, m) && Below(vs, w, n) && m <= n
    ensures Below(us + vs, w, n)
  {
  }

  /** Entries below `n` denote the same bytes when memory differs only in `w`, at `n` and above. */
  lemma {:induction false} RenderUnchanged(vs: seq<IoVec>, w: array<byte>, n: nat,
                                           mem: map<array?<byte>, seq<byte>>, mem': map<array?<byte>, seq<byte>>)
    requires AllDenote(vs) && Below(vs, w, n)
    requires forall v | v in vs :: v.buf in mem && v.off + v.len <= |mem[v.buf]|
    requires forall v | v in vs :: v.buf in mem' && v.off + v.len <= |mem'[v.buf]|
    requires forall v | v in vs && v.buf != w :: mem[v.buf] == mem'[v.buf]
    requires w in mem && w in mem' ==> n <= |mem[w]| && n <= |mem'[w]| && mem[w][..n] == mem'[w][..n]
    ensures Render(vs, mem) == Render(vs, mem')
  {
    if vs != [] {
      var v := vs[|vs| - 1];
      RenderUnchanged(vs[..|vs| - 1], w, n, mem, mem');
      if v.buf == w {
        SameBelow(mem[w], mem'[w], n, v.off, v.off + v.len);
      }
    }
  }

  /** What the engine asks for: a message on its own, or a mutation of an item in memory. */
  datatype Request =
    | Plain(m: Message)
    | Item(m: Message, key: Piece, values: seq<Piece>, contents: seq<seq<byte>>, infoOk: bool, reserved: bool)

  /** The item memory a request refers to. */
  ghost function Footprint(q: Request): set<array<byte>> {
    if q.Item? then {q.key.buf} + set i | 0 <= i < |q.values| :: q.values[i].buf else {}
  }

  ghost predicate WellFormed(q: Request, w: array<byte>)
    reads Footprint(q)
  {
    match q
    case Plain(m) => !m.Mutation?
    case Item(m, key, values, contents, _, _) =>
      && m.Mutation? && key.buf != w && Holds(key, m.key)
      && AllHold(values, contents, w) && m.value == Join(contents)
  }

  /** Memory outside the write buffer is as recorded. */
  ghost predicate Intact(mem: map<array<byte>, seq<byte>>, w: array<byte>)
    reads mem.Keys
  {
    forall b | b in mem :: b != w && b.Length == |mem[b]| && forall i :: 0 <= i < b.Length ==> b[i] == mem[b][i]
  }

  ghost predicate PieceIs(mem: map<array<byte>, seq<byte>>, p: Piece, content: seq<byte>) {
    p.buf in mem && p.off + p.len <= |mem[p.buf]| && mem[p.buf][p.off..p.off + p.len] == content
  }

  /** In recorded memory a mutation's item holds the key and the value of its message. */
  ghost predicate Describes(mem: map<array<byte>, seq<byte>>, q: Request) {
    match q
    case Plain(m) => !m.Mutation?
    case Item(m, key, values, contents, _, _) =>
      && m.Mutation? && PieceIs(mem, key, m.key) && |values| == |contents| && m.value == Join(contents)
      && forall i :: 0 <= i < |values| ==> PieceIs(mem, values[i], contents[i])
  }

  lemma DescribedIsWellFormed(mem: map<array<byte>, seq<byte>>, q: Request, w: array<byte>)
    requires Intact(mem, w) && Describes(mem, q)
    ensures WellFormed(q, w)
  {
    if q.Item? {
      PieceHolds(mem, q.key, q.m.key, w);
      forall i | 0 <= i < |q.values| ensures q.values[i].buf != w && Holds(q.values[i], q.contents[i]) {
        PieceHolds(mem, q.values[i], q.contents[i], w);
      }
    }
  }

  lemma PieceHolds(mem: map<array<byte>, seq<byte>>, p: Piece, content: seq<byte>, w: array<byte>)
    requires Intact(mem, w) && PieceIs(mem, p, content)
    ensures p.buf != w && Holds(p, content)
  {
    assert p.buf[p.off..p.off + p.len] == mem[p.buf][p.off..p.off + p.len];
  }

  function Accepted(requests: seq<Request>, results: seq<Status>): seq<Message>
    requires |requests| == |results|
  {
    if requests == [] then []
    else
      var n := |requests| - 1;
      Accepted(requests[..n], results[..n]) + if results[n] == Success then [requests[n].m] else []
  }

  lemma {:induction false} AcceptedNext(requests: seq<Request>, results: seq<Status>, i: nat, r: Status)
    requires |results| == i < |requests|
    ensures Stream(Accepted(requests[..i + 1], results + [r])) ==
            Stream(Accepted(requests[..i], results)) + if r == Success then Encode(requests[i].m) else []
  {
    var before, m := Accepted(requests[..i], results), requests[i].m;
    assert requests[..i + 1][..i] == requests[..i] && (results + [r])[..i] == results;
    if r == Success {
      JoinMapAppend(Encode, before, m);
    } else {
      assert before + [] == before;
    }
  }

  /** The part of the write buffer a request takes: all of the packet but an item's key and value. */
  function Cost(q: Request): nat {
    match q
    case Plain(m) => |Encode(m)|
    case Item(m, _, _, _, _, _) => |Fixed(m)| + if m.Mutation? then |m.meta| else 0
  }

  /** The answer to a request when `used` bytes of a write buffer of this size are taken. */
  function Verdict(q: Request, used: nat, size: nat): Status {
    if used + Cost(q) >= size then TooBig
    else if q.Item? && !(q.infoOk && q.reserved) then Failed
    else Success
  }

  /** What is taken after the first requests, and the answers to all of them. */
  function Taken(requests: seq<Request>, size: nat): nat {
    if requests == [] then 0
    else
      var n := |requests| - 1;
      var used := Taken(requests[..n], size);
      used + if Verdict(requests[n], used, size) == Success then Cost(requests[n]) else 0
  }

  ghost predicate Judged(requests: seq<Request>, size: nat, results: seq<Status>) {
    && |results| <= |requests|
    && forall i :: 0 <= i < |results| ==> results[i] == Verdict(requests[i], Taken(requests[..i], size), size)
  }

  /** write.bytes stays below write.size. */
  lemma {:induction false} TakenBelow(requests: seq<Request>, size: nat)
    requires 0 < size
    ensures Taken(requests, size) < size
  {
    if requests != [] {
      TakenBelow(requests[..|requests| - 1], size);
    }
  }

  lemma {:induction false} JudgedNext(requests: seq<Request>, size: nat, results: seq<Status>, used: nat)
    requires Judged(requests, size, results) && |results| < |requests| && used == Taken(requests[..|results|], size)
    ensures var q := requests[|results|]; var r := Verdict(q, used, size);
            && Judged(requests, size, results + [r])
            && Taken(requests[..|results| + 1], size) == used + if r == Success then Cost(q) else 0
  {
    var n := |results|;
    assert requests[..n + 1][..n] == requests[..n];
  }

  lemma {:induction false} AcceptedRequested(requests: seq<Request>, results: seq<Status>, m: Message)
    requires |requests| == |results| && m in Accepted(requests, results)
    ensures exists q :: q in requests && q.m == m
  {
    var n := |requests| - 1;
    if m in Accepted(requests[..n], results[..n]) {
      AcceptedRequested(requests[..n], results[..n], m);
    } else {
      assert requests[n].m == m;
    }
  }

  /** The peer's decoders recover exactly the accepted messages, in call order, from what was queued. */
  lemma {:induction false} AcceptedAreReceived(requests: seq<Request>, results: seq<Status>)
    requires |requests| == |results| && forall q | q in requests :: Encodable(q.m)
    ensures Receive(Stream(Accepted(requests, results))) == Some(Accepted(requests, results))
  {
    var ms := Accepted(requests, results);
    forall i | 0 <= i < |ms| ensures Encodable(ms[i]) {
      AcceptedRequested(requests, results, ms[i]);
    }
    StreamRoundTrip(ms);
  }

  class Step {
    const conn: Connection
    /** The write buffer of the connection; write.curr is always at `bytes`. */
    const write: array<byte>
    var bytes: nat

    ghost predicate Ready()
      reads this, conn, conn.iov
    {
      && conn.Built() && bytes <= write.Length
      && AllDenote(conn.Used()) && Below(conn.Used(), write, bytes)
    }

    ghost function Queued(): seq<byte>
      requires Ready()
      reads this, conn, conn.iov, Buffers(conn.Used())
    {
      Flatten(conn.Used())
    }

    /** The start of ship_mcbp_dcp_log: nothing queued, and the write buffer empty. */
    constructor (conn: Connection, write: array<byte>)
      requires 0 < conn.iov.Length
      modifies conn
      ensures this.conn == conn && this.write == write && conn.iov == old(conn.iov)
      ensures Ready() && Queued() == [] && bytes == 0
    {
      this.conn, this.write, bytes := conn, write, 0;
      new;
      conn.AddMsgHdr(true);
      assert conn.Used() == [];
    }

    /** memcpy to write.curr; what is queued keeps its bytes. */
    method Copy(s: seq<byte>, ghost queued: seq<IoVec>)
      requires bytes + |s| <= write.Length && AllDenote(queued) && Below(queued, write, bytes)
      modifies write
      ensures write[..bytes] == old(write[..bytes]) && write[bytes..bytes + |s|] == s
      ensures Flatten(queued) == old(Flatten(queued))
    {
      ghost var mem := Memory(queued);
      FlattenRenders(queued, mem);
      forall i | 0 <= i < |s| {
        write[bytes + i] := s[i];
      }
      ghost var mem' := Memory(queued);
      FlattenRenders(queued, mem');
      RenderUnchanged(queued, write, bytes, mem, mem');
    }

    /** addIov on the next `n` bytes of the write buffer. */
    method QueueNext(n: nat) returns (ghost added: seq<IoVec>)
      requires conn.Built() && Below(conn.Used(), write, bytes) && bytes + n <= write.Length
      modifies conn, conn.iov
      ensures (conn.iov == old(conn.iov) || fresh(conn.iov)) && conn.Built()
      ensures conn.Used() == old(conn.Used()) + added && Covers(added, write, bytes, bytes + n)
      ensures Below(conn.Used(), write, bytes + n) && Flatten(old(conn.Used())) == old(Flatten(conn.Used()))
      ensures Flatten(conn.Used()) == old(Flatten(conn.Used()) + write[bytes..bytes + n])
    {
      ghost var before := conn.Used();
      added := conn.AddIov(write, bytes, n);
      CoversIsBelow(added, write, bytes, bytes + n);
      BelowConcat(before, added, write, bytes, bytes + n);
    }

    method CopyAndQueue(s: seq<byte>)
      requires Ready() && bytes + |s| <= write.Length
      modifies write, conn, conn.iov
      ensures (conn.iov == old(conn.iov) || fresh(conn.iov)) && conn.Built()
      ensures Below(conn.Used(), write, bytes + |s|) && Flatten(conn.Used()) == old(Queued()) + s
    {
      ghost var was := Queued();
      Copy(s, conn.Used());
      assert write as object != conn.iov && conn.Used() == old(conn.Used()) && Flatten(conn.Used()) == was;
      ghost var added := QueueNext(|s|);
    }

    /** Copies to write.curr, queues the copy and moves write.curr behind it. */
    method QueueCopied(s: seq<byte>)
      requires Ready() && bytes + |s| <= write.Length
      modifies this`bytes, write, conn, conn.iov
      ensures (conn.iov == old(conn.iov) || fresh(conn.iov)) && Ready()
      ensures bytes == old(bytes) + |s| && Queued() == old(Queued()) + s
    {
      CopyAndQueue(s);
      Advance(|s|);
    }

    /** write.curr += n; write.bytes += n. */
    method Advance(n: nat)
      requires conn.Built() && Below(conn.Used(), write, bytes + n) && bytes + n <= write.Length
      modifies this`bytes
      ensures bytes == old(bytes) + n && Ready() && Queued() == old(Flatten(conn.Used()))
    {
      assert forall b | b in Buffers(conn.Used()) :: b as object? != this;
      bytes := bytes + n;
    }

    /** Queues item memory where it is. */
    method QueueItem(p: Piece, ghost content: seq<byte>)
      requires Ready() && p.buf != write && Holds(p, content)
      modifies conn, conn.iov
      ensures (conn.iov == old(conn.iov) || fresh(conn.iov)) && Ready()
      ensures Queued() == old(Queued()) + content
    {
      ghost var before := conn.Used();
      assert p.buf as object != conn.iov;
      ghost var added := conn.AddIov(p.buf, p.off, p.len);
      CoversIsBelow(added, p.buf, p.off, p.off + p.len);
      FlattenCovers(added, p.buf, p.off, p.off + p.len);
      BelowConcat(before, added, write, bytes, bytes);
    }

    method QueueItemAt(ps: seq<Piece>, ghost contents: seq<seq<byte>>, i: nat)
      requires Ready() && AllHold(ps, contents, write) && i < |ps|
      modifies conn, conn.iov
      ensures (conn.iov == old(conn.iov) || fresh(conn.iov)) && Ready() && AllHold(ps, contents, write)
      ensures Queued() == old(Queued()) + contents[i]
    {
      assert forall k :: 0 <= k < |ps| ==> ps[k].buf as object != conn.iov;
      QueueItem(ps[i], contents[i]);
    }

    method QueueItems(ps: seq<Piece>, ghost contents: seq<seq<byte>>)
      requires Ready() && AllHold(ps, contents, write)
      modifies conn, conn.iov
      ensures (conn.iov == old(conn.iov) || fresh(conn.iov)) && Ready()
      ensures Queued() == old(Queued()) + Join(contents)
    {
      ghost var was := Queued();
      var i := 0;
      while i < |ps|
        invariant i <= |ps| && (conn.iov == old(conn.iov) || fresh(conn.iov)) && Ready()
        invariant AllHold(ps, contents, write) && Queued() == was + Join(contents[..i])
      {
        QueueItemAt(ps, contents, i);
        JoinNext(contents, i);
        ConcatAssociates(was, Join(contents[..i]), contents[i]);
        i := i + 1;
      }
      assert contents[..i] == contents;
    }

    /** Copies to write.curr and moves it on. */
    method CopyNext(s: seq<byte>, ghost queued: seq<IoVec>)
      requires bytes + |s| <= write.Length && AllDenote(queued) && Below(queued, write, bytes)
      modifies this`bytes, write
      ensures bytes == old(bytes) + |s| && write[..bytes] == old(write[..bytes]) + s
      ensures Below(queued, write, bytes) && Flatten(queued) == old(Flatten(queued))
    {
      Copy(s, queued);
      assert forall b | b in Buffers(queued) :: b as object? != this;
      bytes := bytes + |s|;
      assert write[..bytes] == write[..old(bytes)] + write[old(bytes)..bytes];
    }

    // ----- the producers -----

    /** dcp_message_stream_req and dcp_message_marker: a message of fixed size, copied and queued. */
    method SendFixed(m: Message) returns (r: Status)
      requires Ready() && (m.StreamReq? || m.Marker?)
      modifies this`bytes, write, conn, conn.iov
      ensures (conn.iov == old(conn.iov) || fresh(conn.iov)) && Ready()
      ensures r == if old(bytes) + |Encode(m)| >= write.Length then TooBig else Success
      ensures r == TooBig ==> bytes == old(bytes) && conn.Used() == old(conn.Used()) && Queued() == old(Queued())
      ensures r == Success ==> bytes == old(bytes) + |Encode(m)| && Queued() == old(Queued()) + Encode(m)
    {
      var packet := Fixed(m);
      assert Encode(m) == packet;
      if bytes + |packet| >= write.Length {
        return TooBig;
      }
      QueueCopied(packet);
      return Success;
    }

    /**
     * dcp_message_deletion, dcp_message_expiration and dcp_message_control: the
     * range is queued first, and filled piece by piece afterwards.
     */
    method SendInline(m: Message) returns (r: Status)
      requires Ready() && (m.Deletion? || m.Expiration? || m.Control?)
      modifies this`bytes, write, conn, conn.iov
      ensures (conn.iov == old(conn.iov) || fresh(conn.iov)) && Ready()
      ensures r == if old(bytes) + |Encode(m)| >= write.Length then TooBig else Success
      ensures r == TooBig ==> bytes == old(bytes) && conn.Used() == old(conn.Used()) && Queued() == old(Queued())
      ensures r == Success ==> bytes == old(bytes) + |Encode(m)| && Queued() == old(Queued()) + Encode(m)
    {
      var packet, second := Fixed(m), if m.Control? then m.value else m.meta;
      InlineParts(m);
      if bytes + |packet| + |m.key| + |second| >= write.Length {
        return TooBig;
      }
      QueueThenFill(packet, m.key, second);
      return Success;
    }

    lemma InlineParts(m: Message)
      requires m.Deletion? || m.Expiration? || m.Control?
      ensures Encode(m) == Fixed(m) + m.key + if m.Control? then m.value else m.meta
    {
    }

    method QueueThenFill(packet: seq<byte>, key: seq<byte>, second: seq<byte>)
      requires Ready() && bytes + |packet| + |key| + |second| <= write.Length
      modifies this`bytes, write, conn, conn.iov
      ensures (conn.iov == old(conn.iov) || fresh(conn.iov)) && Ready()
      ensures bytes == old(bytes) + |packet + key + second| && Queued() == old(Queued()) + (packet + key + second)
    {
      ghost var before, was, start := conn.Used(), Queued(), bytes;
      ghost var added := QueueNext(|packet| + |key| + |second|);
      assert Flatten(before) == was && write as object != conn.iov;
      Fill(packet, key, second, before);
      assert conn.Used() == before + added;
      FlattenAppended(before, added, write, start, bytes);
    }

    method Fill(packet: seq<byte>, key: seq<byte>, second: seq<byte>, ghost queued: seq<IoVec>)
      requires bytes + |packet| + |key| + |second| <= write.Length && AllDenote(queued) && Below(queued, write, bytes)
      modifies this`bytes, write
      ensures bytes == old(bytes) + |packet + key + second| && write[old(bytes)..bytes] == packet + key + second
      ensures Flatten(queued) == old(Flatten(queued))
    {
      CopyNext(packet, queued);
      CopyNext(key, queued);
      CopyNext(second, queued);
      ghost var all, start := write[..bytes], old(write[..bytes]);
      assert all == start + (packet + key + second);
      SplitOfConcat(start, packet + key + second);
      assert write[old(bytes)..bytes] == all[old(bytes)..];
    }

    /**
     * dcp_message_mutation: fixed part and meta go through the write buffer, key
     * and value are queued in the item. `infoOk` and `reserved` are the engine's
     * answers; the item's memory holds the key and the value of the message.
     */
    method SendMutation(m: Message, key: Piece, values: seq<Piece>, ghost contents: seq<seq<byte>>,
                        infoOk: bool, reserved: bool) returns (r: Status)
      requires Ready() && m.Mutation? && key.buf != write && Holds(key, m.key)
      requires AllHold(values, contents, write) && m.value == Join(contents)
      modifies this`bytes, write, conn, conn.iov
      ensures (conn.iov == old(conn.iov) || fresh(conn.iov)) && Ready()
      ensures r == if old(bytes) + |Fixed(m)| + |m.meta| >= write.Length then TooBig
                   else if infoOk && reserved then Success else Failed
      ensures r != Success ==> bytes == old(bytes) && conn.Used() == old(conn.Used()) && Queued() == old(Queued())
      ensures r == Success ==> bytes == old(bytes) + |Fixed(m)| + |m.meta| && Queued() == old(Queued()) + Encode(m)
    {
      var packet := Fixed(m);
      if bytes + |packet| + |m.meta| >= write.Length {
        return TooBig;
      }
      if !infoOk || !reserved {
        return Failed;
      }
      ghost var was := Queued();
      QueueFront(packet, key, m.key, values, contents);
      QueueCopied(m.meta);
      ConcatInOrder(was, packet, m.key, m.value, m.meta);
      return Success;
    }

    method QueueFront(packet: seq<byte>, key: Piece, ghost k: seq<byte>, values: seq<Piece>,
                      ghost contents: seq<seq<byte>>)
      requires Ready() && bytes + |packet| <= write.Length && key.buf != write && Holds(key, k)
      requires AllHold(values, contents, write)
      modifies this`bytes, write, conn, conn.iov
      ensures (conn.iov == old(conn.iov) || fresh(conn.iov)) && Ready()
      ensures bytes == old(bytes) + |packet| && Queued() == old(Queued()) + packet + k + Join(contents)
    {
      QueueCopied(packet);
      QueueItem(key, k);
      QueueItems(values, contents);
    }

    /** One call of a producer by the engine. */
    method Send(q: Request) returns (r: Status)
      requires Ready() && WellFormed(q, write)
      modifies this`bytes, write, conn, conn.iov
      ensures (conn.iov == old(conn.iov) || fresh(conn.iov)) && Ready()
      ensures Queued() == old(Queued()) + if r == Success then Encode(q.m) else []
      ensures r != Success ==> bytes == old(bytes) && conn.Used() == old(conn.Used())
      ensures r == Verdict(q, old(bytes), write.Length) && bytes == old(bytes) + if r == Success then Cost(q) else 0
    {
      assert Queued() + [] == Queued();
      if q.Item? {
        r := SendMutation(q.m, q.key, q.values, q.contents, q.infoOk, q.reserved);
      } else if q.m.StreamReq? || q.m.Marker? {
        r := SendFixed(q.m);
      } else {
        r := SendInline(q.m);
      }
    }

    /** A producer call; item memory is not the producers' to change. */
    method SendKeeping(q: Request, ghost mem: map<array<byte>, seq<byte>>) returns (r: Status)
      requires Ready() && Intact(mem, write) && Describes(mem, q)
      modifies this`bytes, write, conn, conn.iov
      ensures (conn.iov == old(conn.iov) || fresh(conn.iov)) && Ready() && Intact(mem, write)
      ensures Queued() == old(Queued()) + if r == Success then Encode(q.m) else []
      ensures r == Verdict(q, old(bytes), write.Length) && bytes == old(bytes) + if r == Success then Cost(q) else 0
    {
      DescribedIsWellFormed(mem, q, write);
      assert forall b | b in mem :: b as object != conn.iov && b as object != conn && b as object != this && b != write;
      r := Send(q);
    }

    /** The messages queued by one dcp.step in which the engine calls the producers in this order. */
    method Ship(requests: seq<Request>, ghost mem: map<array<byte>, seq<byte>>) returns (results: seq<Status>)
      requires Ready() && Queued() == [] && bytes == 0 && Intact(mem, write)
      requires forall i :: 0 <= i < |requests| ==> Describes(mem, requests[i])
      modifies this`bytes, write, conn, conn.iov
      ensures (conn.iov == old(conn.iov) || fresh(conn.iov)) && Ready()
      ensures |results| == |requests| && Judged(requests, write.Length, results)
              && bytes == Taken(requests, write.Length)
      ensures 0 < write.Length ==> bytes < write.Length
      ensures Queued() == Stream(Accepted(requests, results))
    {
      results := [];
      while |results| < |requests|
        invariant |results| <= |requests| && (conn.iov == old(conn.iov) || fresh(conn.iov)) && Ready()
                  && Intact(mem, write)
        invariant Queued() == Stream(Accepted(requests[..|results|], results))
        invariant Judged(requests, write.Length, results) && bytes == Taken(requests[..|results|], write.Length)
        decreases |requests| - |results|
      {
        results := ShipOne(requests, mem, results);
      }
      assert requests[..|results|] == requests;
      if 0 < write.Length {
        TakenBelow(requests, write.Length);
      }
    }

    method ShipOne(requests: seq<Request>, ghost mem: map<array<byte>, seq<byte>>, results: seq<Status>)
      returns (results': seq<Status>)
      requires Ready() && |results| < |requests| && Intact(mem, write) && Describes(mem, requests[|results|])
      requires Queued() == Stream(Accepted(requests[..|results|], results))
      requires Judged(requests, write.Length, results) && bytes == Taken(requests[..|results|], write.Length)
      modifies this`bytes, write, conn, conn.iov
      ensures (conn.iov == old(conn.iov) || fresh(conn.iov)) && Ready() && Intact(mem, write)
      ensures |results'| == |results| + 1
      ensures Queued() == Stream(Accepted(requests[..|results'|], results'))
      ensures Judged(requests, write.Length, results') && bytes == Taken(requests[..|results'|], write.Length)
    {
      ghost var used, n := bytes, |results|;
      var q := requests[|results|];
      var r := SendKeeping(q, mem);
      results' := results + [r];
      assert Queued() == Stream(Accepted(requests[..n + 1], results')) by {
        AcceptedNext(requests, results, n, r);
      }
      assert Judged(requests, write.Length, results') && bytes == Taken(requests[..n + 1], write.Length) by {
        JudgedNext(requests, write.Length, results, used);
      }
    }

    /** One dcp.step, followed by transmits: the wire carries a prefix of the accepted messages, the rest is pending. */
    method ShipAndTransmit(requests: seq<Request>, ghost mem: map<array<byte>, seq<byte>>,
                           answers: seq<SocketAnswer>)
      returns (results: seq<Status>, r: TransmitResult, sent: nat)
      requires Ready() && Queued() == [] && bytes == 0 && Intact(mem, write)
      requires forall i :: 0 <= i < |requests| ==> Describes(mem, requests[i])
      modifies this`bytes, write, conn, conn.iov
      ensures Judged(requests, write.Length, results)
      ensures |results| == |requests| && conn.Sendable() && sent <= |Stream(Accepted(requests, results))|
      ensures Flatten(conn.Pending()) == Stream(Accepted(requests, results))[sent..]
      ensures r == Complete ==> sent == |Stream(Accepted(requests, results))|
      ensures r == HardError ==> !AllHarmless(answers)
      ensures AllHarmless(answers) && Positive(answers) > |Stream(Accepted(requests, results))| ==> r == Complete
    {
      results := Ship(requests, mem);
      r, sent := Transmit(answers, Queued());
    }

    method Transmit(answers: seq<SocketAnswer>, ghost payload: seq<byte>) returns (r: TransmitResult, sent: nat)
      requires Ready() && Queued() == payload
      modifies conn, conn.iov
      ensures conn.Sendable() && sent <= |payload| && Flatten(conn.Pending()) == payload[sent..]
      ensures r == Complete ==> sent == |payload|
      ensures r == HardError ==> !AllHarmless(answers)
      ensures AllHarmless(answers) && Positive(answers) > |payload| ==> r == Complete
    {
      conn.BuiltIsSendable();
      r, sent := conn.SendPayload(answers, payload);
    }
  }
}
