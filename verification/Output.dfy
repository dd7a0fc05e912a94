/**
 * Scatter/gather output of a connection: messages that are windows of a shared
 * array of buffer references, filled by addIov and drained by transmit.
 */
module Output {
  import opened Basics

  const IOV_MAX: nat := 1024
  const UDP_MAX_PAYLOAD_SIZE: nat := 1400
  const IOV_LIST_INITIAL: nat := 10

  /** A reference to `len` bytes of `buf` starting at `off`. */
  datatype IoVec = IoVec(buf: array?<byte>, off: nat, len: nat)

  /** A message: `iovlen` entries of the array `base` starting at `first`. */
  datatype MsgHdr = MsgHdr(base: array<IoVec>, first: nat, iovlen: nat)

  datatype TransmitResult = Complete | Incomplete | SoftError | HardError

  /**
   * What a call of sendmsg meets: the result, whether a -1 means EWOULDBLOCK,
   * whether updateEvent works, and the length found behind the end of the array.
   */
  type SocketAnswer = (int, bool, bool, nat)

  // ----- what the entries stand for -----

  /** The entry denotes a non-empty range of an existing buffer. */
  ghost predicate Denotes(v: IoVec) {
    v.buf != null && 0 < v.len && v.off + v.len <= v.buf.Length
  }

  ghost predicate AllDenote(vs: seq<IoVec>) {
    forall i :: 0 <= i < |vs| ==> Denotes(vs[i])
  }

  ghost function Buffers(vs: seq<IoVec>): set<array?<byte>> {
    set i | 0 <= i < |vs| :: vs[i].buf
  }

  /** The bytes a scatter/gather write of these entries sends. */
  ghost function Flatten(vs: seq<IoVec>): (bytes: seq<byte>)
    requires AllDenote(vs)
    reads Buffers(vs)
  {
    if vs == [] then []
    else Flatten(vs[..|vs| - 1]) + vs[|vs| - 1].buf[vs[|vs| - 1].off..vs[|vs| - 1].off + vs[|vs| - 1].len]
  }

  function Total(vs: seq<IoVec>): nat {
    if vs == [] then 0 else Total(vs[..|vs| - 1]) + vs[|vs| - 1].len
  }

  lemma {:induction false} FlattenLength(vs: seq<IoVec>)
    requires AllDenote(vs)
    ensures |Flatten(vs)| == Total(vs)
  {
    if vs != [] {
      FlattenLength(vs[..|vs| - 1]);
    }
  }

  lemma {:induction false} FlattenConcat(us: seq<IoVec>, vs: seq<IoVec>)
    requires AllDenote(us) && AllDenote(vs)
    ensures AllDenote(us + vs) && Flatten(us + vs) == Flatten(us) + Flatten(vs)
  {
    if vs == [] {
      assert us + vs == us;
    } else {
      var vs' := vs[..|vs| - 1];
      FlattenConcat(us, vs');
      assert (us + vs)[..|us + vs| - 1] == us + vs';
    }
  }

  lemma {:induction false} FlattenOne(v: IoVec)
    requires Denotes(v)
    ensures Flatten([v]) == v.buf[v.off..v.off + v.len]
  {
    assert [v][..0] == [];
  }

  /** The bytes of the entries when memory is as `mem` says. */
  ghost function Render(vs: seq<IoVec>, mem: map<array?<byte>, seq<byte>>): seq<byte>
    requires AllDenote(vs) && forall v | v in vs :: v.buf in mem && v.off + v.len <= |mem[v.buf]|
  {
    if vs == [] then []
    else
      var v := vs[|vs| - 1];
      Render(vs[..|vs| - 1], mem) + mem[v.buf][v.off..v.off + v.len]
  }

  ghost function Memory(vs: seq<IoVec>): (mem: map<array?<byte>, seq<byte>>)
    reads Buffers(vs)
  {
    map b | b in Buffers(vs) && b != null :: b[..]
  }

  lemma {:induction false} FlattenRenders(vs: seq<IoVec>, mem: map<array?<byte>, seq<byte>>)
    requires AllDenote(vs) && forall v | v in vs :: v.buf in mem && v.buf != null && mem[v.buf] == v.buf[..]
    ensures (forall v | v in vs :: v.off + v.len <= |mem[v.buf]|) && Flatten(vs) == Render(vs, mem)
  {
    forall v | v in vs ensures v.off + v.len <= |mem[v.buf]| {
      var i :| 0 <= i < |vs| && vs[i] == v;
      assert Denotes(vs[i]);
    }
    if vs != [] {
      FlattenRenders(vs[..|vs| - 1], mem);
    }
  }

  // ----- messages as windows -----

  /** The index of the first entry of message `k` when messages are laid out one after the other. */
  function Offset(msgs: seq<MsgHdr>, k: nat): nat
    requires k <= |msgs|
  {
    if k == 0 then 0 else Offset(msgs, k - 1) + msgs[k - 1].iovlen
  }

  /** The entries the messages describe, in order. */
  ghost function Windows(msgs: seq<MsgHdr>, iovs: seq<IoVec>): seq<IoVec>
    requires forall i :: 0 <= i < |msgs| ==> msgs[i].first + msgs[i].iovlen <= |iovs|
  {
    if msgs == [] then []
    else iovs[msgs[0].first..msgs[0].first + msgs[0].iovlen] + Windows(msgs[1..], iovs)
  }

  lemma {:induction false} OffsetDependsOnLengths(ms: seq<MsgHdr>, ms': seq<MsgHdr>, k: nat)
    requires k <= |ms| && k <= |ms'| && forall i :: 0 <= i < k ==> ms[i].iovlen == ms'[i].iovlen
    ensures Offset(ms, k) == Offset(ms', k)
  {
    if k > 0 {
      OffsetDependsOnLengths(ms, ms', k - 1);
    }
  }

  lemma {:induction false} OffsetMonotone(ms: seq<MsgHdr>, j: nat, k: nat)
    requires j <= k <= |ms|
    ensures Offset(ms, j) <= Offset(ms, k)
  {
    if j < k {
      OffsetMonotone(ms, j, k - 1);
    }
  }

  /** Every message points into `base`, and the messages partition its first `used` entries. */
  ghost predicate Partition(msgs: seq<MsgHdr>, base: array<IoVec>, used: nat) {
    0 < |msgs| && Offset(msgs, |msgs|) == used && forall k :: 0 <= k < |msgs| ==> PlacedAt(msgs, base, k)
  }

  ghost predicate RepointedAt(msgs: seq<MsgHdr>, before: seq<MsgHdr>, base: array<IoVec>, k: nat) {
    k < |msgs| && k < |before| && msgs[k].base == base && msgs[k].first == Offset(before, k)
  }

  ghost predicate PlacedAt(msgs: seq<MsgHdr>, base: array<IoVec>, k: nat) {
    && k < |msgs| && msgs[k].base == base && msgs[k].iovlen <= IOV_MAX
    && msgs[k].first == Offset(msgs, k)
  }

  /** `msgbytes` is the size of the last message; the first one fits a datagram. */
  ghost predicate Packed(msgs: seq<MsgHdr>, vs: seq<IoVec>, msgbytes: nat) {
    && 0 < |msgs| && Offset(msgs, |msgs| - 1) <= |vs| && msgs[0].iovlen <= |vs| && AllDenote(vs)
    && msgbytes == Total(vs[Offset(msgs, |msgs| - 1)..])
    && Total(vs[..msgs[0].iovlen]) <= UDP_MAX_PAYLOAD_SIZE
  }

  lemma {:induction false} PartitionNewMessage(msgs: seq<MsgHdr>, base: array<IoVec>, used: nat)
    requires (msgs == [] && used == 0) || Partition(msgs, base, used)
    ensures Partition(msgs + [MsgHdr(base, used, 0)], base, used)
    ensures Offset(msgs + [MsgHdr(base, used, 0)], |msgs|) == used
  {
    var msgs' := msgs + [MsgHdr(base, used, 0)];
    OffsetDependsOnLengths(msgs', msgs, |msgs|);
    forall k | 0 <= k < |msgs'| ensures PlacedAt(msgs', base, k) {
      OffsetDependsOnLengths(msgs', msgs, k);
      assert k < |msgs| ==> PlacedAt(msgs, base, k);
    }
  }

  /** One more entry at the end of the last message. */
  function GrowLast(msgs: seq<MsgHdr>): seq<MsgHdr>
    requires 0 < |msgs|
  {
    msgs[|msgs| - 1 := msgs[|msgs| - 1].(iovlen := msgs[|msgs| - 1].iovlen + 1)]
  }

  lemma {:induction false} PartitionNewEntry(msgs: seq<MsgHdr>, base: array<IoVec>, used: nat)
    requires Partition(msgs, base, used) && msgs[|msgs| - 1].iovlen < IOV_MAX
    ensures Partition(GrowLast(msgs), base, used + 1)
    ensures Offset(GrowLast(msgs), |msgs| - 1) == Offset(msgs, |msgs| - 1)
    ensures msgs[|msgs| - 1].first + msgs[|msgs| - 1].iovlen == used
  {
    var msgs', last := GrowLast(msgs), |msgs| - 1;
    OffsetDependsOnLengths(msgs', msgs, last);
    assert PlacedAt(msgs, base, last);
    forall k | 0 <= k < |msgs| ensures PlacedAt(msgs', base, k) {
      OffsetDependsOnLengths(msgs', msgs, k);
      assert PlacedAt(msgs, base, k);
    }
  }

  lemma {:induction false} PackedNewEntry(msgs: seq<MsgHdr>, vs: seq<IoVec>, msgbytes: nat, v: IoVec)
    requires Packed(msgs, vs, msgbytes) && Denotes(v) && Offset(msgs, |msgs|) == |vs|
    requires |msgs| == 1 ==> msgbytes + v.len <= UDP_MAX_PAYLOAD_SIZE
    ensures Packed(GrowLast(msgs), vs + [v], msgbytes + v.len)
  {
    OffsetDependsOnLengths(GrowLast(msgs), msgs, |msgs| - 1);
    TailTotal(vs, v, Offset(msgs, |msgs| - 1));
    if |msgs| == 1 {
      TailTotal(vs, v, 0);
      assert (vs + [v])[..|vs| + 1] == (vs + [v])[0..] && vs[0..] == vs;
    } else {
      assert (vs + [v])[..msgs[0].iovlen] == vs[..msgs[0].iovlen];
    }
  }

  lemma TailTotal(vs: seq<IoVec>, v: IoVec, start: nat)
    requires start <= |vs|
    ensures Total((vs + [v])[start..]) == Total(vs[start..]) + v.len
  {
    var tail := (vs + [v])[start..];
    assert tail[..|tail| - 1] == vs[start..];
  }

  // ----- sending -----

  /** The messages are disjoint windows, in order, of entries that denote ranges; those before `curr` are used up. */
  ghost predicate Sending(msgs: seq<MsgHdr>, iovs: seq<IoVec>, curr: nat) {
    && curr <= |msgs|
    && (forall k :: 0 <= k < |msgs| ==> msgs[k].first + msgs[k].iovlen <= |iovs|)
    && (forall j, k :: 0 <= j < k < |msgs| ==> msgs[j].first + msgs[j].iovlen <= msgs[k].first)
    && (forall k :: 0 <= k < |msgs| ==> AllDenote(iovs[msgs[k].first..msgs[k].first + msgs[k].iovlen]))
    && forall k :: 0 <= k < curr ==> msgs[k].iovlen == 0
  }

  lemma {:induction false} WindowsDenote(msgs: seq<MsgHdr>, iovs: seq<IoVec>)
    requires Sending(msgs, iovs, 0)
    ensures AllDenote(Windows(msgs, iovs))
  {
    if msgs != [] {
      WindowsDenote(msgs[1..], iovs);
    }
  }

  lemma {:induction false} SendingSuffix(msgs: seq<MsgHdr>, iovs: seq<IoVec>, curr: nat)
    requires Sending(msgs, iovs, curr)
    ensures Sending(msgs[curr..], iovs, 0)
  {
  }

  /** Entries from `lo` on are all that windows starting at `lo` or later can see. */
  lemma {:induction false} WindowsFrame(msgs: seq<MsgHdr>, iovs: seq<IoVec>, iovs': seq<IoVec>, lo: nat)
    requires |iovs| == |iovs'| && lo <= |iovs| && iovs[lo..] == iovs'[lo..]
    requires forall k :: 0 <= k < |msgs| ==> lo <= msgs[k].first && msgs[k].first + msgs[k].iovlen <= |iovs|
    ensures Windows(msgs, iovs') == Windows(msgs, iovs)
  {
    if msgs != [] {
      WindowsFrame(msgs[1..], iovs, iovs', lo);
      var a, b := msgs[0].first, msgs[0].first + msgs[0].iovlen;
      SliceOfDrop(iovs, lo, a, b);
      SliceOfDrop(iovs', lo, a, b);
    }
  }

  /** Messages that partition the used entries describe exactly those, in order. */
  lemma {:induction false} WindowsOfPartition(msgs: seq<MsgHdr>, base: array<IoVec>, iovs: seq<IoVec>, k: nat)
    requires Partition(msgs, base, |iovs|) && k <= |msgs|
    ensures forall i :: 0 <= i < |msgs| ==> msgs[i].first + msgs[i].iovlen <= |iovs|
    ensures Offset(msgs, k) <= |iovs| && Windows(msgs[k..], iovs) == iovs[Offset(msgs, k)..]
    decreases |msgs| - k
  {
    forall i | 0 <= i < |msgs| ensures msgs[i].first + msgs[i].iovlen <= |iovs| {
      assert PlacedAt(msgs, base, i);
      OffsetMonotone(msgs, i + 1, |msgs|);
    }
    OffsetMonotone(msgs, k, |msgs|);
    if k < |msgs| {
      assert PlacedAt(msgs, base, k);
      WindowsOfPartition(msgs, base, iovs, k + 1);
      assert msgs[k..][1..] == msgs[k + 1..];
      assert msgs[k..][0] == msgs[k];
    }
  }

  lemma {:induction false} WindowsPrefix(msgs: seq<MsgHdr>, iovs: seq<IoVec>, n: nat)
    requires n <= |iovs| && forall k :: 0 <= k < |msgs| ==> msgs[k].first + msgs[k].iovlen <= n
    ensures Windows(msgs, iovs[..n]) == Windows(msgs, iovs)
  {
    if msgs != [] {
      WindowsPrefix(msgs[1..], iovs, n);
    }
  }

  /** A freshly built output is ready to be sent, from the beginning. */
  lemma {:induction false} PartitionIsSending(msgs: seq<MsgHdr>, base: array<IoVec>, iovs: seq<IoVec>, used: nat)
    requires Partition(msgs, base, used) && used <= |iovs| && AllDenote(iovs[..used])
    ensures Sending(msgs, iovs, 0) && Windows(msgs, iovs) == iovs[..used]
    ensures forall k :: 0 <= k < |msgs| ==> msgs[k].base == base
  {
    WindowsOfPartition(msgs, base, iovs[..used], 0);
    WindowsPrefix(msgs, iovs, used);
    assert msgs[0..] == msgs;
    forall k | 0 <= k < |msgs| ensures msgs[k].base == base {
      assert PlacedAt(msgs, base, k);
    }
    forall j, k | 0 <= j < k < |msgs| ensures msgs[j].first + msgs[j].iovlen <= msgs[k].first {
      assert PlacedAt(msgs, base, j) && PlacedAt(msgs, base, k);
      OffsetMonotone(msgs, j + 1, k);
    }
    forall k | 0 <= k < |msgs| ensures AllDenote(iovs[msgs[k].first..msgs[k].first + msgs[k].iovlen]) {
      forall i | msgs[k].first <= i < msgs[k].first + msgs[k].iovlen ensures Denotes(iovs[i]) {
        assert iovs[..used][i] == iovs[i];
      }
    }
  }

  /** `m` is what is left of message `curr`; `iovs'` differs from `iovs` inside it at most. */
  ghost predicate Shrinks(msgs: seq<MsgHdr>, iovs: seq<IoVec>, curr: nat, m: MsgHdr, iovs': seq<IoVec>) {
    && curr < |msgs| && |iovs'| == |iovs| && m.base == msgs[curr].base
    && msgs[curr].first <= m.first && m.first + m.iovlen == msgs[curr].first + msgs[curr].iovlen <= |iovs|
    && iovs'[..m.first] == iovs[..m.first] && iovs'[m.first + m.iovlen..] == iovs[m.first + m.iovlen..]
    && AllDenote(iovs'[m.first..m.first + m.iovlen])
  }

  lemma {:induction false} ShrinkKeepsOthers(msgs: seq<MsgHdr>, iovs: seq<IoVec>, curr: nat, m: MsgHdr,
                                             iovs': seq<IoVec>, k: nat)
    requires Sending(msgs, iovs, curr) && Shrinks(msgs, iovs, curr, m, iovs') && k < |msgs| && k != curr
    ensures iovs'[msgs[k].first..msgs[k].first + msgs[k].iovlen] == iovs[msgs[k].first..msgs[k].first + msgs[k].iovlen]
  {
    var a, b := msgs[k].first, msgs[k].first + msgs[k].iovlen;
    if k < curr {
      SliceOfTake(iovs', m.first, a, b);
      SliceOfTake(iovs, m.first, a, b);
    } else {
      var end := m.first + m.iovlen;
      SliceOfDrop(iovs', end, a, b);
      SliceOfDrop(iovs, end, a, b);
    }
  }

  lemma {:induction false} ShrinkKeepsSending(msgs: seq<MsgHdr>, iovs: seq<IoVec>, curr: nat, m: MsgHdr,
                                              iovs': seq<IoVec>)
    requires Sending(msgs, iovs, curr) && Shrinks(msgs, iovs, curr, m, iovs')
    ensures Sending(msgs[curr := m], iovs', curr)
  {
    var msgs' := msgs[curr := m];
    forall k | 0 <= k < |msgs'| ensures AllDenote(iovs'[msgs'[k].first..msgs'[k].first + msgs'[k].iovlen]) {
      if k != curr {
        ShrinkKeepsOthers(msgs, iovs, curr, m, iovs', k);
      }
    }
  }

  lemma {:induction false} WindowsCons(m: MsgHdr, rest: seq<MsgHdr>, iovs: seq<IoVec>)
    requires m.first + m.iovlen <= |iovs| && forall i :: 0 <= i < |rest| ==> rest[i].first + rest[i].iovlen <= |iovs|
    ensures Windows([m] + rest, iovs) == iovs[m.first..m.first + m.iovlen] + Windows(rest, iovs)
  {
    assert ([m] + rest)[1..] == rest;
  }

  /** What is still to be sent: the rest of the current message, then the later ones as before. */
  lemma {:induction false} WindowsAfterShrink(msgs: seq<MsgHdr>, iovs: seq<IoVec>, curr: nat, m: MsgHdr,
                                              iovs': seq<IoVec>)
    requires Sending(msgs, iovs, curr) && Shrinks(msgs, iovs, curr, m, iovs')
    requires Sending(msgs[curr := m], iovs', curr)
    ensures Windows(msgs[curr := m][curr..], iovs')
            == iovs'[m.first..m.first + m.iovlen] + Windows(msgs[curr + 1..], iovs)
  {
    var rest := msgs[curr + 1..];
    assert msgs[curr := m][curr..] == [m] + rest;
    WindowsFrame(rest, iovs, iovs', m.first + m.iovlen);
    WindowsCons(m, rest, iovs');
  }

  lemma {:induction false} Shrunk(msgs: seq<MsgHdr>, iovs: seq<IoVec>, curr: nat, m: MsgHdr, iovs': seq<IoVec>,
                                  msgs': seq<MsgHdr>)
    requires Sending(msgs, iovs, curr) && Shrinks(msgs, iovs, curr, m, iovs') && msgs' == msgs[curr := m]
    ensures Sending(msgs', iovs', curr)
    ensures Windows(msgs'[curr..], iovs') == iovs'[m.first..m.first + m.iovlen] + Windows(msgs[curr + 1..], iovs)
  {
    ShrinkKeepsSending(msgs, iovs, curr, m, iovs');
    WindowsAfterShrink(msgs, iovs, curr, m, iovs');
  }

  /** The entries that remain after the first `n` bytes have been sent. */
  function DropBytes(vs: seq<IoVec>, n: nat): seq<IoVec> {
    if vs == [] || n == 0 then vs
    else if n < vs[0].len then [IoVec(vs[0].buf, vs[0].off + n, vs[0].len - n)] + vs[1..]
    else DropBytes(vs[1..], n - vs[0].len)
  }

  lemma {:induction false} FlattenCons(vs: seq<IoVec>)
    requires AllDenote(vs) && vs != []
    ensures Flatten(vs) == vs[0].buf[vs[0].off..vs[0].off + vs[0].len] + Flatten(vs[1..])
  {
    FlattenOne(vs[0]);
    FlattenConcat([vs[0]], vs[1..]);
    assert [vs[0]] + vs[1..] == vs;
  }

  lemma {:induction false} FlattenCut(vs: seq<IoVec>, n: nat)
    requires AllDenote(vs) && vs != [] && 0 < n < vs[0].len
    ensures AllDenote(DropBytes(vs, n)) && n <= |Flatten(vs)| && Flatten(DropBytes(vs, n)) == Flatten(vs)[n..]
  {
    assert Denotes(vs[0]);
    var v, cut, rest := vs[0], IoVec(vs[0].buf, vs[0].off + n, vs[0].len - n), vs[1..];
    assert vs == [v] + rest && DropBytes(vs, n) == [cut] + rest;
    FlattenStart(v, rest);
    FlattenStart(cut, rest);
    RangeCut(v.buf, v.off, n, v.off + v.len);
    CutOfConcat(v.buf[v.off..v.off + v.len], Flatten(rest), n);
  }

  lemma {:induction false} FlattenStart(v: IoVec, rest: seq<IoVec>)
    requires Denotes(v) && AllDenote(rest)
    ensures AllDenote([v] + rest) && Flatten([v] + rest) == v.buf[v.off..v.off + v.len] + Flatten(rest)
  {
    FlattenCons([v] + rest);
    assert ([v] + rest)[1..] == rest;
  }

  lemma RangeCut(buf: array<byte>, lo: nat, n: nat, hi: nat)
    requires lo + n <= hi <= buf.Length
    ensures buf[lo..hi][n..] == buf[lo + n..hi]
  {
  }

  /** Dropping sent bytes from the entries is dropping them from what the entries say. */
  lemma {:induction false} FlattenDrop(vs: seq<IoVec>, n: nat)
    requires AllDenote(vs) && n <= |Flatten(vs)|
    ensures AllDenote(DropBytes(vs, n)) && Flatten(DropBytes(vs, n)) == Flatten(vs)[n..]
  {
    if vs != [] && n != 0 {
      if n < vs[0].len {
        FlattenCut(vs, n);
      } else {
        FlattenCons(vs);
        assert Denotes(vs[0]);
        FlattenDrop(vs[1..], n - vs[0].len);
        DropOfConcat(vs[0].buf[vs[0].off..vs[0].off + vs[0].len], Flatten(vs[1..]), n);
      }
    }
  }

  class Connection {
    var iov: array<IoVec>
    var iovused: nat
    var msglist: seq<MsgHdr>
    var msgcurr: nat
    var msgbytes: nat

    /** The used entries of the array. */
    ghost function Used(): (vs: seq<IoVec>)
      reads this, iov
      requires iovused <= iov.Length
    {
      iov[..iovused]
    }

    /** The state between a reset and the first transmit. */
    ghost predicate Built()
      reads this, iov
    {
      && 0 < iov.Length && iovused <= iov.Length && msgcurr == 0
      && Partition(msglist, iov, iovused) && Packed(msglist, Used(), msgbytes)
    }

    constructor ()
      ensures iov.Length == IOV_LIST_INITIAL && msglist == [] && iovused == 0 && fresh(iov)
      ensures msgcurr == 0 && msgbytes == 0
    {
      iov := new IoVec[IOV_LIST_INITIAL](_ => IoVec(null, 0, 0));
      iovused, msglist, msgcurr, msgbytes := 0, [], 0, 0;
    }

    method AddMsgHdr(reset: bool)
      requires 0 < iov.Length && (!reset ==> Built())
      modifies this
      ensures Built() && iov == old(iov) && msgbytes == 0 && msglist[|msglist| - 1].iovlen == 0
      ensures reset ==> iovused == 0 && |msglist| == 1
      ensures !reset ==> iovused == old(iovused) && |msglist| == old(|msglist|) + 1
    {
      if reset {
        msgcurr, msglist, iovused := 0, [], 0;
      }
      PartitionNewMessage(msglist, iov, iovused);
      assert Used()[iovused..] == [];
      assert reset ==> Used()[..0] == [];
      msglist := msglist + [MsgHdr(iov, iovused, 0)];
      msgbytes := 0;
    }

    /** Doubles the array when it is full and points all messages at the new one. */
    method EnsureIovSpace()
      requires 0 < iov.Length && iovused <= iov.Length && Partition(msglist, iov, iovused)
      modifies this
      ensures iovused < iov.Length && (iov == old(iov) || fresh(iov)) && Partition(msglist, iov, iovused)
      ensures iovused == old(iovused) && msgcurr == old(msgcurr) && msgbytes == old(msgbytes)
      ensures iov.Length == if old(iovused < iov.Length) then old(iov.Length) else 2 * old(iov.Length)
      ensures iov[..iovused] == old(iov[..iovused])
      ensures |msglist| == old(|msglist|)
      ensures forall k :: 0 <= k < |msglist| ==> msglist[k].iovlen == old(msglist)[k].iovlen
    {
      if iovused < iov.Length {
        return;
      }
      var bigger := new IoVec[iov.Length * 2](_ => IoVec(null, 0, 0));
      forall i | 0 <= i < iov.Length {
        bigger[i] := iov[i];
      }
      iov := bigger;
      forall m | m in msglist ensures m.iovlen <= IOV_MAX {
        var k :| 0 <= k < |msglist| && msglist[k] == m;
        assert PlacedAt(msglist, old(iov), k);
      }
      Repoint();
    }

    /** Points message after message at the current array, by the running sum of their lengths. */
    method Repoint()
      requires 0 < |msglist| && forall m | m in msglist :: m.iovlen <= IOV_MAX
      modifies this`msglist
      ensures |msglist| == old(|msglist|)
      ensures forall k :: 0 <= k < |msglist| ==> msglist[k].iovlen == old(msglist)[k].iovlen
      ensures Partition(msglist, iov, Offset(old(msglist), old(|msglist|)))
    {
      var ii, iovnum := 0, 0;
      while ii < |msglist|
        invariant ii <= |msglist| == old(|msglist|) && iovnum == Offset(old(msglist), ii)
        invariant forall k :: 0 <= k < |msglist| ==> msglist[k].iovlen == old(msglist)[k].iovlen
        invariant forall k :: 0 <= k < ii ==> RepointedAt(msglist, old(msglist), iov, k)
      {
        ghost var before := msglist;
        msglist := msglist[ii := msglist[ii].(base := iov, first := iovnum)];
        forall k | 0 <= k <= ii ensures RepointedAt(msglist, old(msglist), iov, k) {
          assert k < ii ==> RepointedAt(before, old(msglist), iov, k);
        }
        iovnum := iovnum + msglist[ii].iovlen;
        ii := ii + 1;
      }
      OffsetDependsOnLengths(msglist, old(msglist), |msglist|);
      forall k | 0 <= k < |msglist| ensures PlacedAt(msglist, iov, k) {
        assert RepointedAt(msglist, old(msglist), iov, k) && old(msglist)[k] in old(msglist);
        OffsetDependsOnLengths(msglist, old(msglist), k);
      }
    }

    /** The last message takes no more: it has 1024 entries, or it is the first one and has 1400 bytes. */
    ghost predicate StartsMessage()
      requires 0 < |msglist|
      reads this
    {
      msglist[|msglist| - 1].iovlen == 1024 || (|msglist| == 1 && msgbytes >= 1400)
    }

    /** Starts a new message if the last one is full, and makes room for one more entry. */
    method MakeRoom(limitToMtu: bool)
      requires Built() && limitToMtu == (|msglist| == 1)
      modifies this
      ensures Built() && (iov == old(iov) || fresh(iov)) && Used() == old(Used())
      ensures iovused < iov.Length && msglist[|msglist| - 1].iovlen < IOV_MAX
      ensures limitToMtu ==> msgbytes < UDP_MAX_PAYLOAD_SIZE
      ensures |msglist| == 1 ==> limitToMtu
      ensures |msglist| == old(|msglist|) + if old(StartsMessage()) then 1 else 0
      ensures msgbytes == if old(StartsMessage()) then 0 else old(msgbytes)
    {
      assert PlacedAt(msglist, iov, |msglist| - 1);
      if msglist[|msglist| - 1].iovlen == IOV_MAX || (limitToMtu && msgbytes >= UDP_MAX_PAYLOAD_SIZE) {
        AddMsgHdr(false);
      }
      ghost var msgs := msglist;
      EnsureIovSpace();
      PackedDependsOnLengths(msgs, msglist, Used(), msgbytes);
    }

    /** Writes one entry at the end of the last message. */
    method AppendEntry(v: IoVec)
      requires Built() && Denotes(v) && iovused < iov.Length && msglist[|msglist| - 1].iovlen < IOV_MAX
      requires |msglist| == 1 ==> msgbytes + v.len <= UDP_MAX_PAYLOAD_SIZE
      modifies this, iov
      ensures Built() && iov == old(iov) && Used() == old(Used()) + [v]
      ensures |msglist| == old(|msglist|) && msgbytes == old(msgbytes) + v.len
    {
      var m := msglist[|msglist| - 1];
      PartitionNewEntry(msglist, iov, iovused);
      PackedNewEntry(msglist, Used(), msgbytes, v);
      ghost var used := Used();
      iov[m.first + m.iovlen] := v;
      msgbytes := msgbytes + v.len;
      iovused := iovused + 1;
      msglist := GrowLast(msglist);
      assert Used() == used + [v];
    }

    /** One round of addIov: queues as much of the range as the message takes, and returns the rest. */
    method AddPiece(buf: array<byte>, off: nat, len: nat) returns (leftover: nat)
      requires Built() && 0 < len && off + len <= buf.Length
      modifies this, iov
      ensures Built() && (iov == old(iov) || fresh(iov))
      ensures leftover < len && Used() == old(Used()) + [IoVec(buf, off, len - leftover)]
      ensures |msglist| == old(|msglist|) + if old(StartsMessage()) then 1 else 0
      ensures var there := if old(StartsMessage()) then 0 else old(msgbytes);
              && leftover == (if old(|msglist|) == 1 && len + there > 1400 then len + there - 1400 else 0)
              && msgbytes == there + len - leftover
    {
      var limitToMtu := |msglist| == 1;
      MakeRoom(limitToMtu);
      leftover := 0;
      if limitToMtu && len + msgbytes > UDP_MAX_PAYLOAD_SIZE {
        leftover := len + msgbytes - UDP_MAX_PAYLOAD_SIZE;
      }
      AppendEntry(IoVec(buf, off, len - leftover));
    }

    /** The loop of addIov. */
    method QueueRange(buf: array<byte>, off0: nat, len0: nat) returns (ghost added: seq<IoVec>)
      requires Built() && off0 + len0 <= buf.Length
      modifies this, iov
      ensures Built() && (iov == old(iov) || fresh(iov))
      ensures Used() == old(Used()) + added && Covers(added, buf, off0, off0 + len0)
    {
      var off: nat, len: nat := off0, len0;
      added := [];
      while len > 0
        invariant Built() && (iov == old(iov) || fresh(iov))
        invariant off + len == off0 + len0
        invariant Used() == old(Used()) + added && Covers(added, buf, off0, off)
      {
        var leftover := AddPiece(buf, off, len);
        ghost var v := IoVec(buf, off, len - leftover);
        assert (added + [v])[..|added|] == added;
        added := added + [v];
        off, len := off + (len - leftover), leftover;
      }
    }

    /** Queues `len` bytes of `buf`; they are split where the first message is full. */
    method AddIov(buf: array<byte>, off: nat, len: nat) returns (ghost added: seq<IoVec>)
      requires Built() && off + len <= buf.Length
      modifies this, iov
      ensures Built() && (iov == old(iov) || fresh(iov))
      ensures Used() == old(Used()) + added && Covers(added, buf, off, off + len)
      ensures Flatten(old(Used())) == old(Flatten(Used()))
      ensures Flatten(Used()) == old(Flatten(Used()) + buf[off..off + len])
    {
      ghost var before := Used();
      assert forall b | b in Buffers(before) :: b as object? != iov;
      assert buf as object != iov && buf as object != this;
      added := QueueRange(buf, off, len);
      assert buf[off..off + len] == old(buf[off..off + len]);
      assert Flatten(before) == old(Flatten(Used()));
      FlattenCovers(added, buf, off, off + len);
      FlattenConcat(before, added);
    }

    // ----- sending -----

    ghost predicate Sendable()
      reads this, iov
    {
      (forall k :: 0 <= k < |msglist| ==> msglist[k].base == iov) && Sending(msglist, iov[..], msgcurr)
    }

    /** The entries still to be sent. */
    ghost function Pending(): (vs: seq<IoVec>)
      requires Sendable()
      reads this, iov
      ensures AllDenote(vs)
    {
      SendingSuffix(msglist, iov[..], msgcurr);
      WindowsDenote(msglist[msgcurr..], iov[..]);
      Windows(msglist[msgcurr..], iov[..])
    }

    lemma BuiltIsSendable()
      requires Built()
      ensures Sendable() && Pending() == Used()
    {
      PartitionIsSending(msglist, iov, iov[..], iovused);
      assert iov[..][..iovused] == Used() && msglist[0..] == msglist;
    }

    /** Skips messages that have been sent completely. */
    method SkipFinished()
      requires Sendable()
      modifies this`msgcurr
      ensures Sendable() && Pending() == old(Pending())
      ensures msgcurr < |msglist| ==> msglist[msgcurr].iovlen > 0
    {
      while msgcurr < |msglist| && msglist[msgcurr].iovlen == 0
        invariant Sendable() && Pending() == old(Pending())
        decreases |msglist| - msgcurr
      {
        StepPast();
      }
    }

    /** The entries of the message being sent. */
    ghost function Current(): (vs: seq<IoVec>)
      requires Sendable() && msgcurr < |msglist|
      reads this, iov
      ensures AllDenote(vs)
    {
      iov[..][msglist[msgcurr].first..msglist[msgcurr].first + msglist[msgcurr].iovlen]
    }

    lemma PendingStartsWithCurrent()
      requires Sendable() && msgcurr < |msglist|
      ensures Pending() == Current() + Windows(msglist[msgcurr + 1..], iov[..])
    {
      assert msglist[msgcurr..] == [msglist[msgcurr]] + msglist[msgcurr + 1..];
      WindowsCons(msglist[msgcurr], msglist[msgcurr + 1..], iov[..]);
    }

    /** Removes the completely sent entries from the current message; returns what is left of `sent`. */
    method SkipSentEntries(sent: nat) returns (res: nat)
      requires msgcurr < |msglist| && LeftOf(iov[..], msglist[msgcurr], sent, msglist[msgcurr], sent)
      modifies this`msglist
      ensures msgcurr < |msglist| && msglist == old(msglist)[msgcurr := msglist[msgcurr]]
      ensures LeftOf(iov[..], old(msglist[msgcurr]), sent, msglist[msgcurr], res)
      ensures msglist[msgcurr].iovlen > 0 ==> res < iov[msglist[msgcurr].first].len
    {
      ghost var vs, n := iov[..], msglist[msgcurr];
      var m := msglist[msgcurr];
      res := sent;
      while m.iovlen > 0 && res >= iov[m.first].len
        invariant msgcurr < |msglist| && msglist == old(msglist)[msgcurr := m] && iov[..] == vs
        invariant LeftOf(vs, n, sent, m, res)
        decreases m.iovlen
      {
        LeftOfNextEntry(vs, n, sent, m, res);
        assert iov[m.first] == vs[m.first];
        res := res - iov[m.first].len;
        m := m.(iovlen := m.iovlen - 1, first := m.first + 1);
        msglist := msglist[msgcurr := m];
      }
    }

    /** Removes `sent` bytes from the front of the current message: whole entries, then part of one. */
    method TakeOff(sent: nat)
      requires msgcurr < |msglist| && LeftOf(iov[..], msglist[msgcurr], sent, msglist[msgcurr], sent)
      modifies this`msglist, iov
      ensures msgcurr < |msglist| && msglist == old(msglist)[msgcurr := msglist[msgcurr]]
      ensures Shrinks(old(msglist), old(iov[..]), msgcurr, msglist[msgcurr], iov[..])
      ensures var m, n := msglist[msgcurr], old(msglist[msgcurr]);
              iov[..][m.first..m.first + m.iovlen] == DropBytes(old(iov[..])[n.first..n.first + n.iovlen], sent)
    {
      var res := SkipSentEntries(sent);
      LeftOfDone(iov[..], old(msglist[msgcurr]), sent, msglist[msgcurr], res);
      CutFront(res);
    }

    /** Removes `res` bytes, less than the whole, from the first entry of the current message. */
    method CutFront(res: nat)
      requires msgcurr < |msglist| && msglist[msgcurr].first + msglist[msgcurr].iovlen <= iov.Length
      requires AllDenote(iov[..][msglist[msgcurr].first..msglist[msgcurr].first + msglist[msgcurr].iovlen])
      requires if msglist[msgcurr].iovlen == 0 then res == 0 else res < iov[msglist[msgcurr].first].len
      modifies iov
      ensures var m := msglist[msgcurr];
              && iov[..][..m.first] == old(iov[..])[..m.first]
              && iov[..][m.first + m.iovlen..] == old(iov[..])[m.first + m.iovlen..]
              && AllDenote(iov[..][m.first..m.first + m.iovlen])
              && iov[..][m.first..m.first + m.iovlen] == DropBytes(old(iov[..])[m.first..m.first + m.iovlen], res)
    {
      if res > 0 {
        var m := msglist[msgcurr];
        ghost var window := iov[..][m.first..m.first + m.iovlen];
        var v := iov[m.first];
        assert v == window[0];
        iov[m.first] := IoVec(v.buf, v.off + res, v.len - res);
        assert iov[..][m.first..m.first + m.iovlen] == [iov[m.first]] + window[1..];
      }
    }

    /** The connection after `sent` bytes of the current message have been accepted. */
    method Advance(sent: nat)
      requires Sendable() && msgcurr < |msglist| && sent <= Total(Current())
      modifies this`msglist, iov
      ensures Sendable() && |msglist| == old(|msglist|)
      ensures Current() == DropBytes(old(Current()), sent)
      ensures Pending() == Current() + old(Windows(msglist[msgcurr + 1..], iov[..]))
    {
      ghost var msgs, iovs, window := msglist, iov[..], Current();
      TakeOff(sent);
      ghost var m, iovs' := msglist[msgcurr], iov[..];
      assert iovs'[m.first..m.first + m.iovlen] == DropBytes(window, sent);
      Shrunk(msgs, iovs, msgcurr, m, iovs', msglist);
    }

    /**
     * One call of transmit on a plain socket. `answer` is what sendmsg returns,
     * capped at the size of the message it is given; `blocking` tells a -1 that
     * means EWOULDBLOCK from other errors, `rearmed` whether updateEvent worked,
     * and `past` is the length read beyond the end of the array.
     */
    method Transmit(answer: int, blocking: bool, rearmed: bool, past: nat) returns (r: TransmitResult, sent: nat)
      requires Sendable()
      modifies this`msgcurr, this`msglist, iov
      ensures Sendable() && sent <= Total(old(Pending())) && Pending() == DropBytes(old(Pending()), sent)
      ensures r == Complete ==> Pending() == []
      ensures old(Pending()) == [] ==> r == Complete
      ensures r == Incomplete ==> 0 < sent
      ensures r == SoftError || r == HardError ==> sent == 0 && answer <= 0
      ensures old(Pending()) != [] && answer <= 0 ==>
                r == if answer == -1 && blocking && rearmed then SoftError else HardError
      ensures answer > 0 && old(Pending()) != [] ==> 0 < sent <= answer
      ensures answer <= 0 ==> sent == 0
      ensures r == Complete <==> msgcurr == |msglist|
    {
      SkipFinished();
      if msgcurr == |msglist| {
        return Complete, 0;
      }
      WindowsStart(msglist[msgcurr..], iov[..]);
      if answer > 0 {
        r, sent := TransmitSome(answer, past);
        return;
      }
      if answer == -1 && blocking && rearmed {
        return SoftError, 0;
      }
      return HardError, 0;
    }

    /** sendmsg took some bytes: account for them and see whether that was the end. */
    method TransmitSome(answer: int, past: nat) returns (r: TransmitResult, sent: nat)
      requires Sendable() && msgcurr < |msglist| && msglist[msgcurr].iovlen > 0 && 0 < answer
      modifies this`msgcurr, this`msglist, iov
      ensures Sendable() && Pending() == DropBytes(old(Pending()), sent)
      ensures 0 < sent <= answer && sent <= Total(old(Pending()))
      ensures r == Incomplete || (r == Complete && Pending() == [])
      ensures |msglist| == old(|msglist|) && msglist[old(msgcurr)].first <= iov.Length
      ensures msgcurr == old(msgcurr) + if LengthAt(msglist[old(msgcurr)].first, past) == 0 then 1 else 0
      ensures r == Complete <==> msgcurr == |msglist|
    {
      sent := SendCurrent(answer);
      var peeked := PeekPast(past);
      r := Incomplete;
      if peeked == 0 {
        StepPast();
        if msgcurr == |msglist| {
          r := Complete;
        }
      }
    }

    /** The kernel accepts up to `answer` bytes of the current message. */
    method SendCurrent(answer: int) returns (sent: nat)
      requires Sendable() && msgcurr < |msglist| && msglist[msgcurr].iovlen > 0 && 0 < answer
      modifies this`msglist, iov
      ensures Sendable() && |msglist| == old(|msglist|)
      ensures 0 < sent <= answer && sent <= Total(old(Pending())) && Pending() == DropBytes(old(Pending()), sent)
    {
      ghost var vs, rest, pending := Current(), Windows(msglist[msgcurr + 1..], iov[..]), Pending();
      PendingStartsWithCurrent();
      var size := CurrentSize();
      sent := if answer < size then answer else size;
      DropFromFirst(vs, rest, sent);
      Advance(sent);
      assert Pending() == DropBytes(pending, sent);
    }

    method CurrentSize() returns (size: nat)
      requires Sendable() && msgcurr < |msglist| && msglist[msgcurr].iovlen > 0
      ensures size == Total(Current()) > 0
    {
      var m := msglist[msgcurr];
      size := Total(iov[..][m.first..m.first + m.iovlen]);
      TotalCons(Current());
      assert Denotes(Current()[0]);
    }

    /** The length of an entry, or what is found behind the array. */
    function LengthAt(i: nat, past: nat): nat
      reads this, iov
    {
      if i < iov.Length then iov[i].len else past
    }

    /** The length found where the current message now begins: its first entry, or whatever lies behind it. */
    method PeekPast(past: nat) returns (peeked: nat)
      requires Sendable() && msgcurr < |msglist|
      ensures peeked == 0 ==> msglist[msgcurr].iovlen == 0
      ensures peeked == LengthAt(msglist[msgcurr].first, past)
    {
      var m := msglist[msgcurr];
      peeked := if m.first < iov.Length then iov[m.first].len else past;
      assert m.iovlen > 0 ==> Denotes(Current()[0]);
    }

    /** Moves on from a message with nothing left in it. */
    method StepPast()
      requires Sendable() && msgcurr < |msglist| && msglist[msgcurr].iovlen == 0
      modifies this`msgcurr
      ensures Sendable() && Pending() == old(Pending()) && msgcurr == old(msgcurr) + 1
    {
      assert msglist[msgcurr..] == [msglist[msgcurr]] + msglist[msgcurr + 1..];
      msgcurr := msgcurr + 1;
    }

    /** One more transmit, when `total` bytes of `start` are already gone. */
    method SendMore(ghost start: seq<IoVec>, total: nat, answer: SocketAnswer) returns (r: TransmitResult, total': nat)
      requires Sendable() && AllDenote(start) && total <= Total(start) && Pending() == DropBytes(start, total)
      modifies this`msgcurr, this`msglist, iov
      ensures Sendable() && total <= total' <= Total(start) && Pending() == DropBytes(start, total')
      ensures r == Complete ==> Pending() == []
      ensures answer.0 > 0 ==> total' - total <= answer.0 && (r == Complete || (r == Incomplete && total < total'))
      ensures answer.0 <= 0 ==> total' == total
      ensures r == HardError ==> !Harmless(answer)
      ensures old(Pending()) != [] && !Harmless(answer) ==> r == HardError
    {
      var sent;
      r, sent := Transmit(answer.0, answer.1, answer.2, answer.3);
      DropTwice(start, total, sent);
      total' := total + sent;
    }

    /**
     * conn_mwrite called again and again, at once after progress and after the
     * next event when the socket would block.
     */
    method SendAll(answers: seq<SocketAnswer>) returns (r: TransmitResult, total: nat)
      requires Sendable()
      modifies this`msgcurr, this`msglist, iov
      ensures Sendable() && total <= Total(old(Pending())) && Pending() == DropBytes(old(Pending()), total)
      ensures r == Complete ==> total == Total(old(Pending()))
      ensures total <= Offered(answers)
      ensures r == HardError ==> !AllHarmless(answers)
      ensures r == Incomplete || r == SoftError ==> Positive(answers) <= total
      ensures AllHarmless(answers) && Positive(answers) > Total(old(Pending())) ==> r == Complete
    {
      ghost var start := Pending();
      r, total := Incomplete, 0;
      var i := 0;
      while i < |answers| && (r == Incomplete || r == SoftError)
        invariant 0 <= i <= |answers| && Sendable() && total <= Total(start)
        invariant Pending() == DropBytes(start, total)
        invariant r == Complete ==> Pending() == []
        invariant total <= Offered(answers[..i])
        invariant r == HardError ==> !AllHarmless(answers)
        invariant r == Incomplete || r == SoftError ==> Positive(answers[..i]) <= total
      {
        OfferedNext(answers, i);
        PositiveNext(answers, i);
        r, total := SendMore(start, total, answers[i]);
        i := i + 1;
      }
      OfferedGrows(answers, i);
      assert i == |answers| ==> answers[..i] == answers;
      if r == Complete {
        TotalDrop(start, total);
      }
    }

    /** The same in bytes: what was sent is a front part of the payload, and what is still described is the rest. */
    method SendPayload(answers: seq<SocketAnswer>, ghost payload: seq<byte>) returns (r: TransmitResult, sent: nat)
      requires Sendable() && Flatten(Pending()) == payload
      modifies this`msgcurr, this`msglist, iov
      ensures Sendable() && sent <= |payload| && sent <= Offered(answers) && Flatten(Pending()) == payload[sent..]
      ensures r == Complete ==> sent == |payload|
      ensures r == HardError ==> !AllHarmless(answers)
      ensures AllHarmless(answers) && Positive(answers) > |payload| ==> r == Complete
    {
      ghost var start := Pending();
      ghost var mem := Memory(start);
      FlattenLength(start);
      FlattenRenders(start, mem);
      assert forall v | v in start :: v.buf as object? != this && v.buf as object? != iov;
      r, sent := SendAll(answers);
      FlattenRenders(start, mem);
      FlattenDrop(start, sent);
    }
  }

  /** The socket takes something, or would block and is waited for. */
  predicate Harmless(answer: SocketAnswer) {
    answer.0 > 0 || (answer.0 == -1 && answer.1 && answer.2)
  }

  predicate AllHarmless(answers: seq<SocketAnswer>) {
    forall k :: 0 <= k < |answers| ==> Harmless(answers[k])
  }

  /** How often the socket takes something. */
  function Positive(answers: seq<SocketAnswer>): nat {
    if answers == [] then 0
    else Positive(answers[..|answers| - 1]) + if answers[|answers| - 1].0 > 0 then 1 else 0
  }

  lemma PositiveNext(answers: seq<SocketAnswer>, i: nat)
    requires i < |answers|
    ensures Positive(answers[..i + 1]) == Positive(answers[..i]) + if answers[i].0 > 0 then 1 else 0
  {
    assert answers[..i + 1][..i] == answers[..i];
  }

  /** The most the socket can have taken with these answers. */
  function Offered(answers: seq<SocketAnswer>): nat {
    if answers == [] then 0
    else
      var a := answers[|answers| - 1].0;
      Offered(answers[..|answers| - 1]) + if a > 0 then a else 0
  }

  lemma OfferedNext(answers: seq<SocketAnswer>, i: nat)
    requires i < |answers|
    ensures Offered(answers[..i + 1]) == Offered(answers[..i]) + if answers[i].0 > 0 then answers[i].0 else 0
  {
    assert answers[..i + 1][..i] == answers[..i];
  }

  lemma {:induction false} OfferedGrows(answers: seq<SocketAnswer>, i: nat)
    requires i <= |answers|
    ensures Offered(answers[..i]) <= Offered(answers)
    decreases |answers| - i
  {
    if i < |answers| {
      OfferedNext(answers, i);
      OfferedGrows(answers, i + 1);
    } else {
      assert answers[..i] == answers;
    }
  }

  /** Message `m`, less `res` bytes, is what is left of message `n` after `sent` bytes. */
  ghost predicate LeftOf(vs: seq<IoVec>, n: MsgHdr, sent: nat, m: MsgHdr, res: nat) {
    && m.base == n.base && n.first <= m.first && m.first + m.iovlen == n.first + n.iovlen <= |vs|
    && AllDenote(vs[m.first..m.first + m.iovlen]) && res <= Total(vs[m.first..m.first + m.iovlen])
    && DropBytes(vs[m.first..m.first + m.iovlen], res) == DropBytes(vs[n.first..n.first + n.iovlen], sent)
  }

  lemma {:induction false} LeftOfNextEntry(vs: seq<IoVec>, n: MsgHdr, sent: nat, m: MsgHdr, res: nat)
    requires LeftOf(vs, n, sent, m, res) && m.iovlen > 0 && res >= vs[m.first].len
    ensures LeftOf(vs, n, sent, m.(first := m.first + 1, iovlen := m.iovlen - 1), res - vs[m.first].len)
  {
    var w := vs[m.first..m.first + m.iovlen];
    DropOneEntry(w, res);
    assert w[1..] == vs[m.first + 1..m.first + m.iovlen];
  }

  lemma {:induction false} LeftOfDone(vs: seq<IoVec>, n: MsgHdr, sent: nat, m: MsgHdr, res: nat)
    requires LeftOf(vs, n, sent, m, res)
    ensures m.iovlen == 0 ==> res == 0
  {
    assert m.iovlen == 0 ==> vs[m.first..m.first + m.iovlen] == [];
  }

  lemma {:induction false} TotalConcat(us: seq<IoVec>, vs: seq<IoVec>)
    ensures Total(us + vs) == Total(us) + Total(vs)
  {
    if vs == [] {
      assert us + vs == us;
    } else {
      TotalConcat(us, vs[..|vs| - 1]);
      assert (us + vs)[..|us + vs| - 1] == us + vs[..|vs| - 1];
    }
  }

  lemma {:induction false} DropOneEntry(vs: seq<IoVec>, n: nat)
    requires vs != [] && AllDenote(vs) && vs[0].len <= n <= Total(vs)
    ensures DropBytes(vs, n) == DropBytes(vs[1..], n - vs[0].len) && n - vs[0].len <= Total(vs[1..])
    ensures AllDenote(vs[1..])
  {
    TotalCons(vs);
    assert Denotes(vs[0]);
  }

  /** Dropping no more than the first part holds leaves the second part whole. */
  lemma {:induction false} DropFromFirst(us: seq<IoVec>, vs: seq<IoVec>, n: nat)
    requires n <= Total(us) && AllDenote(us)
    ensures DropBytes(us + vs, n) == DropBytes(us, n) + vs && n <= Total(us + vs)
  {
    TotalConcat(us, vs);
    if us == [] {
      assert us + vs == vs;
    } else if n != 0 {
      TotalCons(us);
      assert (us + vs)[1..] == us[1..] + vs && (us + vs)[0] == us[0];
      if n >= us[0].len {
        DropFromFirst(us[1..], vs, n - us[0].len);
      } else {
        var cut := IoVec(us[0].buf, us[0].off + n, us[0].len - n);
        assert [cut] + (us[1..] + vs) == [cut] + us[1..] + vs;
      }
    }
  }

  lemma {:induction false} TotalDrop(vs: seq<IoVec>, n: nat)
    requires n <= Total(vs)
    ensures Total(DropBytes(vs, n)) == Total(vs) - n
  {
    if vs != [] && n != 0 {
      TotalCons(vs);
      if n < vs[0].len {
        TotalCons(DropBytes(vs, n));
        assert DropBytes(vs, n)[1..] == vs[1..];
      } else {
        TotalDrop(vs[1..], n - vs[0].len);
      }
    }
  }

  lemma {:induction false} DropTwice(vs: seq<IoVec>, a: nat, b: nat)
    requires a <= Total(vs) && b <= Total(DropBytes(vs, a)) && AllDenote(vs)
    ensures DropBytes(DropBytes(vs, a), b) == DropBytes(vs, a + b) && a + b <= Total(vs)
  {
    TotalDrop(vs, a);
    if vs != [] && a != 0 {
      TotalCons(vs);
      if a < vs[0].len {
        assert DropBytes(vs, a)[1..] == vs[1..];
      } else {
        DropTwice(vs[1..], a - vs[0].len, b);
      }
    }
  }

  /** Bytes on the wire followed by the bytes still described are the original payload. */
  lemma {:induction false} WirePlusPending(vs: seq<IoVec>, n: nat)
    requires AllDenote(vs) && n <= Total(vs)
    ensures n <= |Flatten(vs)| && AllDenote(DropBytes(vs, n))
    ensures Flatten(vs)[..n] + Flatten(DropBytes(vs, n)) == Flatten(vs)
    ensures n == Total(vs) ==> Flatten(DropBytes(vs, n)) == []
  {
    FlattenLength(vs);
    FlattenDrop(vs, n);
    TakeAndDrop(Flatten(vs), n);
  }

  lemma {:induction false} WindowsStart(msgs: seq<MsgHdr>, iovs: seq<IoVec>)
    requires msgs != [] && msgs[0].iovlen > 0
    requires forall i :: 0 <= i < |msgs| ==> msgs[i].first + msgs[i].iovlen <= |iovs|
    ensures Windows(msgs, iovs) != []
  {
  }

  lemma {:induction false} TotalCons(vs: seq<IoVec>)
    requires vs != []
    ensures Total(vs) == vs[0].len + Total(vs[1..])
  {
    if |vs| > 1 {
      var vs' := vs[..|vs| - 1];
      TotalCons(vs');
      assert vs'[1..] == vs[1..][..|vs| - 2];
    }
  }

  /** The entries cover the range [lo..hi) of `buf`, without gaps and in order. */
  ghost predicate Covers(vs: seq<IoVec>, buf: array<byte>, lo: nat, hi: nat) {
    if vs == [] then lo == hi
    else
      var v := vs[|vs| - 1];
      v.buf == buf && 0 < v.len && v.off + v.len == hi && Covers(vs[..|vs| - 1], buf, lo, v.off)
  }

  lemma {:induction false} FlattenCovers(vs: seq<IoVec>, buf: array<byte>, lo: nat, hi: nat)
    requires Covers(vs, buf, lo, hi) && hi <= buf.Length
    ensures lo <= hi && AllDenote(vs) && Flatten(vs) == buf[lo..hi]
  {
    if vs != [] {
      FlattenCovers(vs[..|vs| - 1], buf, lo, vs[|vs| - 1].off);
    }
  }

  lemma {:induction false} PackedDependsOnLengths(ms: seq<MsgHdr>, ms': seq<MsgHdr>, vs: seq<IoVec>, msgbytes: nat)
    requires Packed(ms, vs, msgbytes) && |ms| == |ms'|
    requires forall k :: 0 <= k < |ms| ==> ms'[k].iovlen == ms[k].iovlen
    ensures Packed(ms', vs, msgbytes)
  {
    OffsetDependsOnLengths(ms, ms', |ms| - 1);
  }
}
