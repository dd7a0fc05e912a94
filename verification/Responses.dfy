/**
 * Responses collected in a dynamic buffer: how the buffer grows, what the
 * response handler and append_stats put into it, and how a client tells the
 * packets apart again.
 */
module Responses {
  import opened Basics
  import opened Wire

  const RESPONSE: nat := 0x81
  const STAT: nat := 0x10
  const FIRST_SIZE: nat := 1024

  // ----- packets -----

  datatype Response = Response(opcode: nat, dataType: nat, status: nat, opaqueValue: nat, cas: nat,
                               ext: seq<byte>, key: seq<byte>, body: seq<byte>)

  function Header(r: Response): seq<nat> {
    [RESPONSE, r.opcode, |r.key|, |r.ext|, r.dataType, r.status, |r.body| + |r.key| + |r.ext|, r.opaqueValue, r.cas]
  }

  /** Every number, the lengths included, fits the member it is written to. */
  predicate Encodable(r: Response) {
    Fits(HEADER, Header(r))
  }

  function Encode(r: Response): (bs: seq<byte>)
    ensures |bs| == HEADER_SIZE + |r.ext| + |r.key| + |r.body|
  {
    HeaderSize();
    Pack(HEADER, Header(r)) + (r.ext + r.key + r.body)
  }

  /** What a client reads from one packet. */
  function Decode(p: seq<byte>): Option<Response> {
    if |p| < HEADER_SIZE then None
    else
      var h, rest := HeaderOf(p), p[HEADER_SIZE..];
      if h[0] != RESPONSE || |rest| != h[6] || h[3] + h[2] > h[6] then None
      else Some(Response(h[1], h[4], h[5], h[7], h[8], rest[..h[3]], rest[h[3]..h[3] + h[2]], rest[h[3] + h[2]..]))
  }

  lemma {:induction false} EncodedHeader(r: Response)
    requires Encodable(r)
    ensures HeaderOf(Encode(r)) == Header(r) && Framed(Encode(r))
    ensures Encode(r)[HEADER_SIZE..] == r.ext + r.key + r.body
  {
    HeaderSize();
    UnpackPack(HEADER, Header(r), r.ext + r.key + r.body);
    SplitOfConcat(Pack(HEADER, Header(r)), r.ext + r.key + r.body);
  }

  lemma {:induction false} RoundTrip(r: Response)
    requires Encodable(r)
    ensures Decode(Encode(r)) == Some(r)
  {
    EncodedHeader(r);
    PartsOfConcat(r.ext, r.key, r.body);
    SplitOfConcat(r.ext + r.key, r.body);
  }

  /** A response on the wire. */
  lemma {:induction false} ResponseOnTheWire(r: Response)
    requires Encodable(r)
    ensures var p, n := Encode(r), |r.ext| + |r.key| + |r.body|;
            && |p| == HEADER_SIZE + n && p[0] == 0x81 && p[1] == r.opcode && Net(p, 2, 4) == |r.key| && p[4] == |r.ext|
            && p[5] == r.dataType && Net(p, 6, 8) == r.status && Net(p, 8, 12) == n
            && Host(p, 12, 16) == r.opaqueValue && Net(p, 16, 24) == r.cas
            && p[HEADER_SIZE..] == r.ext + r.key + r.body
  {
    EncodedHeader(r);
    HeaderBytes(Encode(r));
  }

  function Stream(rs: seq<Response>): seq<byte> {
    Join(Map(Encode, rs))
  }

  /** What a client makes of the bytes: packet by packet, by the lengths in the headers. */
  function Receive(p: seq<byte>): Option<seq<Response>> {
    var packets := Frames(p);
    if packets.None? then None else Traverse(Decode, packets.value)
  }

  /** The client gets the responses that were appended, in order. */
  lemma {:induction false} StreamRoundTrip(rs: seq<Response>)
    requires forall i :: 0 <= i < |rs| ==> Encodable(rs[i])
    ensures Receive(Stream(rs)) == Some(rs)
  {
    forall i | 0 <= i < |rs| ensures Framed(Map(Encode, rs)[i]) {
      EncodedHeader(rs[i]);
    }
    FramesOfJoin(Map(Encode, rs));
    forall i | 0 <= i < |rs| ensures Decode(Encode(rs[i])) == Some(rs[i]) {
      RoundTrip(rs[i]);
    }
    TraverseMap(Decode, Encode, rs);
  }

  /** The header of a response, as it is prepared before it is copied. */
  method FillHeader(r: Response) returns (bs: seq<byte>)
    ensures |bs| == HEADER_SIZE && Encode(r) == bs + (r.ext + r.key + r.body)
  {
    HeaderSize();
    bs := Pack(HEADER, Header(r));
  }

  // ----- the buffer -----

  /** Doubled until `needed` bytes fit behind `offset`. */
  function Doubled(n: nat, offset: nat, needed: nat): (r: nat)
    requires 0 < n && offset <= n
    ensures offset + needed <= r && n <= r
    decreases offset + needed - n
  {
    if needed <= n - offset then n else Doubled(2 * n, offset, needed)
  }

  /** Doubling stops early: the size is never twice what is used. */
  lemma {:induction false} DoubledIsTight(n: nat, offset: nat, needed: nat)
    requires 0 < n && offset <= n
    ensures Doubled(n, offset, needed) == n || Doubled(n, offset, needed) < 2 * (offset + needed)
    decreases offset + needed - n
  {
    if needed > n - offset {
      DoubledIsTight(2 * n, offset, needed);
    }
  }

  /** The size grow asks for; a missing buffer is doubled once before it is measured. */
  function NewSize(missing: bool, size: nat, offset: nat, needed: nat): nat
    requires !missing ==> 0 < size && offset <= size
  {
    if !missing then Doubled(size, offset, needed)
    else if needed == 0 then FIRST_SIZE
    else Doubled(2 * FIRST_SIZE, 0, needed)
  }

  /** How much room a buffer has; `missing` before the first allocation. */
  datatype Room = Room(missing: bool, size: nat, offset: nat)
  {
    predicate Proper() {
      if missing then size == offset == 0 else 0 < size && offset <= size
    }

    /** There is room for `needed` more bytes, or realloc provides it. */
    predicate Has(needed: nat, allocates: bool) {
      allocates || (!missing && offset + needed <= size)
    }

    function Grown(needed: nat, allocates: bool): (room: Room)
      requires Proper()
      ensures room.Proper() && (Has(needed, allocates) ==> room.offset + needed <= room.size)
    {
      if Has(needed, allocates) then Room(false, NewSize(missing, size, offset, needed), offset) else this
    }

    /** The room left by a call that asks grow for `needed` bytes and fills them if it gets them. */
    function Filled(needed: nat, allocates: bool): (room: Room)
      requires Proper()
      ensures room.Proper()
    {
      if Has(needed, allocates) then Grown(needed, allocates).(offset := offset + needed) else this
    }
  }

  // ----- what is appended -----

  predicate Compressed(dataType: nat) {
    dataType / 2 % 2 == 1
  }

  /** The response as sent: clients without datatype support get inflated bodies and no datatype. */
  function AsSent(supportsDatatype: bool, r: Response, inflated: Option<seq<byte>>): Option<Response> {
    if supportsDatatype then Some(r)
    else if !Compressed(r.dataType) then Some(r.(dataType := 0))
    else if inflated.None? then None
    else Some(r.(dataType := 0, body := inflated.value))
  }

  function Stat(key: seq<byte>, value: seq<byte>, opaqueValue: nat): Response {
    Response(STAT, 0, 0, opaqueValue, 0, [], key, value)
  }

  /** A call of the response handler, with what snappy says about the body, or of append_stats. */
  datatype Append =
    | Reply(supportsDatatype: bool, r: Response, length: Option<nat>, inflated: Option<seq<byte>>)
    | Statistic(key: seq<byte>, value: seq<byte>, opaqueValue: nat)
  {
    /** An empty body has no inflated length, and inflating yields as much as was announced. */
    predicate Sensible() {
      Reply? ==> (inflated.Some? ==> length == Some(|inflated.value|)) && (length.Some? ==> r.body != [])
    }

    function Sent(): Option<Response> {
      match this
      case Reply(supportsDatatype, r, _, inflated) => AsSent(supportsDatatype, r, inflated)
      case Statistic(key, value, opaqueValue) => Some(Stat(key, value, opaqueValue))
    }

    /** What grow is asked for; None if the length of the inflated body is unknown. */
    function Needed(): Option<nat> {
      match this
      case Reply(supportsDatatype, r, length, _) =>
        var n := |r.key| + |r.ext| + HEADER_SIZE;
        if supportsDatatype || !Compressed(r.dataType) then Some(n + |r.body|)
        else if length.None? then None else Some(n + length.value)
      case Statistic(key, value, _) => Some(|value| + |key| + HEADER_SIZE)
    }

    /** There is something to send, and its packet fits or realloc makes it fit. */
    predicate Succeeds(room: Room, allocates: bool) {
      Sent().Some? && Needed().Some? && room.Has(Needed().value, allocates)
    }

    /** The room left by the call; the buffer may have grown even if inflating then fails. */
    function After(room: Room, allocates: bool): (after: Room)
      requires room.Proper()
      ensures after.Proper()
    {
      if Needed().None? then room
      else if Sent().None? then room.Grown(Needed().value, allocates)
      else room.Filled(Needed().value, allocates)
    }

    /** What a call that returned `ok` added to the buffer. */
    function Packet(ok: bool): seq<byte> {
      if ok && Sent().Some? then Encode(Sent().value) else []
    }
  }

  /** A statistic is sent as its name followed by its value. */
  function StatBytes(key: seq<byte>, value: seq<byte>, opaqueValue: nat): (bs: seq<byte>)
    ensures |bs| == HEADER_SIZE + |key| + |value|
  {
    HeaderSize();
    Pack(HEADER, [0x81, 0x10, |key|, 0, 0, 0, |value| + |key|, opaqueValue, 0]) + (key + value)
  }

  lemma StatPacket(key: seq<byte>, value: seq<byte>, opaqueValue: nat)
    ensures Statistic(key, value, opaqueValue).Packet(true) == StatBytes(key, value, opaqueValue)
  {
    StatIsBytes(key, value, opaqueValue);
  }

  lemma EmptyFront(key: seq<byte>, value: seq<byte>)
    ensures [] + key + value == key + value
  {
  }

  lemma StatIsBytes(key: seq<byte>, value: seq<byte>, opaqueValue: nat)
    ensures Encode(Response(0x10, 0, 0, opaqueValue, 0, [], key, value)) == StatBytes(key, value, opaqueValue)
  {
    EmptyFront(key, value);
  }

  /** Bit 1 of the datatype says that the body is compressed. */
  predicate MustInflate(supportsDatatype: bool, r: Response) {
    !supportsDatatype && r.dataType % 4 >= 2
  }

  /** A reply is sent as its extras, key and body, inflated for a client that does not know datatypes. */
  function ReplyBytes(supportsDatatype: bool, r: Response, inflated: Option<seq<byte>>): (bs: seq<byte>) {
    var body := if MustInflate(supportsDatatype, r) && inflated.Some? then inflated.value else r.body;
    Pack(HEADER, [0x81, r.opcode, |r.key|, |r.ext|, if supportsDatatype then r.dataType else 0, r.status,
                  |body| + |r.key| + |r.ext|, r.opaqueValue, r.cas]) + (r.ext + r.key + body)
  }

  lemma CompressedBit(dataType: nat)
    ensures Compressed(dataType) <==> dataType % 4 >= 2
  {
  }

  lemma ReplySent(supportsDatatype: bool, r: Response, inflated: Option<seq<byte>>)
    ensures var sent := AsSent(supportsDatatype, r, inflated);
            && (sent.Some? <==> (MustInflate(supportsDatatype, r) ==> inflated.Some?))
            && (sent.Some? ==> Encode(sent.value) == ReplyBytes(supportsDatatype, r, inflated))
  {
    CompressedBit(r.dataType);
  }

  /** When a reply succeeds, and what it appends then. */
  lemma ReplyOutcome(supportsDatatype: bool, r: Response, length: Option<nat>, inflated: Option<seq<byte>>, room: Room,
                     allocates: bool)
    requires Reply(supportsDatatype, r, length, inflated).Sensible()
    ensures var a, bs := Reply(supportsDatatype, r, length, inflated), ReplyBytes(supportsDatatype, r, inflated);
            && (a.Succeeds(room, allocates) <==>
                (MustInflate(supportsDatatype, r) ==> inflated.Some?) && room.Has(|bs|, allocates))
            && (a.Succeeds(room, allocates) ==> a.Packet(true) == bs)
  {
    ReplySent(supportsDatatype, r, inflated);
    NeededIsPacket(Reply(supportsDatatype, r, length, inflated));
  }

  /** The client reads a statistic as its name and its value. */
  lemma {:induction false} StatisticIsReceived(key: seq<byte>, value: seq<byte>, opaqueValue: nat)
    requires |key| < 0x1_0000 && |key| + |value| < 0x1_0000_0000 && opaqueValue < 0x1_0000_0000
    ensures Decode(StatBytes(key, value, opaqueValue)) == Some(Response(0x10, 0, 0, opaqueValue, 0, [], key, value))
  {
    var r := Response(0x10, 0, 0, opaqueValue, 0, [], key, value);
    StatIsBytes(key, value, opaqueValue);
    RoundTrip(r);
  }

  /** The room asked for is exactly that of the packet. */
  lemma NeededIsPacket(a: Append)
    requires a.Sensible()
    ensures a.Sent().Some? ==> a.Needed() == Some(|Encode(a.Sent().value)|)
  {
    HeaderSize();
  }

  lemma CallOutcome(a: Append, room: Room, allocates: bool, sent: Option<Response>, needed: nat)
    requires room.Proper() && a.Needed() == Some(needed) && a.Sent() == sent
    ensures a.Succeeds(room, allocates) <==> sent.Some? && room.Has(needed, allocates)
    ensures a.After(room, allocates) ==
            if sent.Some? then room.Filled(needed, allocates) else room.Grown(needed, allocates)
    ensures forall ok :: a.Packet(ok) == if ok && sent.Some? then Encode(sent.value) else []
  {
  }

  /** The room left after some appends. */
  function RoomAfter(room: Room, appends: seq<Append>, allocates: seq<bool>): (after: Room)
    requires room.Proper() && |allocates| == |appends|
    ensures after.Proper()
  {
    if appends == [] then room
    else
      var n := |appends| - 1;
      appends[n].After(RoomAfter(room, appends[..n], allocates[..n]), allocates[n])
  }

  /** The responses of the appends that succeeded. */
  function Appended(appends: seq<Append>, oks: seq<bool>): seq<Response>
    requires |oks| == |appends|
  {
    if appends == [] then []
    else
      var n := |appends| - 1;
      Appended(appends[..n], oks[..n]) + if oks[n] && appends[n].Sent().Some? then [appends[n].Sent().value] else []
  }

  /** The packets added by the first |oks| appends. */
  function Added(appends: seq<Append>, oks: seq<bool>): seq<byte>
    requires |oks| <= |appends|
  {
    Stream(Appended(appends[..|oks|], oks))
  }

  lemma {:induction false} AddedNext(appends: seq<Append>, oks: seq<bool>, ok: bool)
    requires |oks| < |appends| && (ok ==> appends[|oks|].Sent().Some?)
    ensures Added(appends, oks + [ok]) == Added(appends, oks) + appends[|oks|].Packet(ok)
  {
    var n := |oks|;
    var before := Appended(appends[..n], oks);
    AppendedNext(appends, oks, ok);
    if ok {
      JoinMapAppend(Encode, before, appends[n].Sent().value);
    } else {
      assert Stream(before) + [] == Stream(before);
    }
  }

  lemma AppendedNext(appends: seq<Append>, oks: seq<bool>, ok: bool)
    requires |oks| < |appends| && (ok ==> appends[|oks|].Sent().Some?)
    ensures Appended(appends[..|oks + [ok]|], oks + [ok]) ==
            if ok then Appended(appends[..|oks|], oks) + [appends[|oks|].Sent().value]
            else Appended(appends[..|oks|], oks)
  {
    var n := |oks|;
    assert appends[..n + 1][..n] == appends[..n] && (oks + [ok])[..n] == oks;
  }

  predicate AsExpected(room: Room, appends: seq<Append>, allocates: seq<bool>, i: nat, ok: bool)
    requires room.Proper() && i < |appends| == |allocates|
  {
    ok <==> appends[i].Succeeds(RoomAfter(room, appends[..i], allocates[..i]), allocates[i])
  }

  /** Append `i` succeeds exactly if it can, given the room that the earlier ones left. */
  predicate Explained(room: Room, appends: seq<Append>, allocates: seq<bool>, oks: seq<bool>)
    requires room.Proper()
  {
    && |oks| <= |appends| == |allocates|
    && forall i :: 0 <= i < |oks| ==> AsExpected(room, appends, allocates, i, oks[i])
  }

  lemma ExplainedNext(room: Room, appends: seq<Append>, allocates: seq<bool>, oks: seq<bool>, ok: bool)
    requires room.Proper() && Explained(room, appends, allocates, oks) && |oks| < |appends|
    requires AsExpected(room, appends, allocates, |oks|, ok)
    ensures Explained(room, appends, allocates, oks + [ok])
  {
    forall i | 0 <= i < |oks + [ok]| ensures AsExpected(room, appends, allocates, i, (oks + [ok])[i]) {
      if i < |oks| {
        assert AsExpected(room, appends, allocates, i, oks[i]);
      }
    }
  }

  lemma RoomNext(room: Room, appends: seq<Append>, allocates: seq<bool>, n: nat)
    requires room.Proper() && n < |appends| == |allocates|
    ensures RoomAfter(room, appends[..n + 1], allocates[..n + 1]) ==
            appends[n].After(RoomAfter(room, appends[..n], allocates[..n]), allocates[n])
  {
    assert appends[..n + 1][..n] == appends[..n] && allocates[..n + 1][..n] == allocates[..n];
  }

  /** From a buffer that started empty the client reads back the responses that were appended. */
  lemma {:induction false} CollectedIsReceived(appends: seq<Append>, oks: seq<bool>, contents: seq<byte>)
    requires |oks| == |appends| && contents == Added(appends, oks)
    requires forall i :: 0 <= i < |Appended(appends, oks)| ==> Encodable(Appended(appends, oks)[i])
    ensures Receive(contents) == Some(Appended(appends, oks))
  {
    assert appends[..|oks|] == appends;
    StreamRoundTrip(Appended(appends, oks));
  }

  class DynamicBuffer {
    var buffer: array?<byte>
    var offset: nat
    var size: nat

    ghost predicate Valid()
      reads this, buffer
    {
      if buffer == null then size == 0 && offset == 0 else offset <= size == buffer.Length && 0 < size
    }

    ghost function Contents(): seq<byte>
      requires Valid()
      reads this, buffer
    {
      if buffer == null then [] else buffer[..offset]
    }

    ghost function View(): (room: Room)
      requires Valid()
      reads this, buffer
      ensures room.Proper()
    {
      Room(buffer == null, size, offset)
    }

    constructor ()
      ensures Valid() && Contents() == [] && buffer == null
    {
      buffer, offset, size := null, 0, 0;
    }

    /** Makes room for `needed` more bytes; `allocates` is what realloc answers. */
    method Grow(needed: nat, allocates: bool) returns (ok: bool)
      requires Valid()
      modifies this
      ensures Valid() && Contents() == old(Contents()) && offset == old(offset)
      ensures buffer == old(buffer) || fresh(buffer)
      ensures ok <==> allocates || (old(buffer) != null && offset + needed <= old(size))
      ensures ok ==> buffer != null && offset + needed <= size
      ensures size == if ok then NewSize(old(buffer) == null, old(size), offset, needed) else old(size)
      ensures View() == old(View()).Grown(needed, allocates)
      ensures !ok ==> buffer == old(buffer)
    {
      var nsize := size;
      var available := nsize - offset;
      if buffer == null {
        nsize := FIRST_SIZE;
        size, offset := 0, 0;
        available := 0;
      }
      ghost var wanted := NewSize(buffer == null, size, offset, needed);
      while needed > available
        invariant 0 < nsize && offset <= nsize && available <= nsize - offset
        invariant buffer == null && available == 0 ==> nsize == FIRST_SIZE
        invariant buffer != null || available > 0 ==> available == nsize - offset
        invariant buffer == null && needed == 0 ==> nsize == wanted
        invariant buffer != null || available > 0 ==> wanted == Doubled(nsize, offset, needed)
        decreases needed - available
      {
        nsize := nsize * 2;
        available := nsize - offset;
      }
      ok := true;
      if nsize != size {
        ok := Reallocate(nsize, allocates);
      }
    }

    method Reallocate(nsize: nat, allocates: bool) returns (ok: bool)
      requires Valid() && 0 < nsize && offset <= nsize
      modifies this
      ensures Valid() && Contents() == old(Contents()) && offset == old(offset) && ok == allocates
      ensures ok ==> fresh(buffer) && buffer != null && size == nsize
      ensures !ok ==> buffer == old(buffer) && size == old(size)
    {
      ok := allocates;
      if ok {
        var bigger := new byte[nsize](_ => 0);
        if buffer != null {
          forall i | 0 <= i < offset {
            bigger[i] := buffer[i];
          }
        }
        buffer, size := bigger, nsize;
      }
    }

    /** memcpy into the buffer; returns the position behind the copy. */
    method Copy(at: nat, s: seq<byte>) returns (next: nat)
      requires buffer != null && at + |s| <= buffer.Length
      modifies buffer
      ensures next == at + |s| && buffer[..next] == old(buffer[..at]) + s
    {
      forall i | 0 <= i < |s| {
        buffer[at + i] := s[i];
      }
      next := at + |s|;
    }

    /** True if the offset stays inside the buffer; otherwise the source throws. */
    method MoveOffset(num: nat) returns (ok: bool)
      requires Valid()
      modifies this`offset
      ensures offset == old(offset) + num && ok == (offset <= size)
    {
      offset := offset + num;
      ok := offset <= size;
    }

    /** Gives the memory away: nothing is left behind. */
    method TakeOwnership()
      modifies this
      ensures Valid() && Contents() == [] && buffer == null
    {
      buffer, size, offset := null, 0, 0;
    }

    /** Writes a packet into room that is there, and moves the offset behind it. */
    method Emit(header: seq<byte>, ext: seq<byte>, key: seq<byte>, body: seq<byte>)
      requires Valid() && buffer != null && offset + |header| + |ext| + |key| + |body| <= size
      modifies this`offset, buffer
      ensures Valid() && Contents() == old(Contents()) + (header + (ext + key + body))
      ensures offset == old(offset) + |header| + |ext| + |key| + |body|
    {
      var buf := Copy(offset, header);
      buf := Copy(buf, ext);
      buf := Copy(buf, key);
      buf := Copy(buf, body);
      ConcatInOrder(old(Contents()), header, ext, key, body);
      var moved := MoveOffset(|header| + |ext| + |key| + |body|);
      assert moved;
    }

    /** The same for the packet of a response. */
    method EmitResponse(r: Response)
      requires Valid() && buffer != null && offset + HEADER_SIZE + |r.ext| + |r.key| + |r.body| <= size
      modifies this`offset, buffer
      ensures Valid() && Contents() == old(Contents()) + Encode(r)
      ensures offset == old(offset) + HEADER_SIZE + |r.ext| + |r.key| + |r.body|
    {
      var header := FillHeader(r);
      Emit(header, r.ext, r.key, r.body);
    }

    /**
     * Makes room for `needed` bytes and writes the packet there, or begins one
     * like `draft` if inflating its body fails.
     */
    method Place(sent: Option<Response>, draft: Response, needed: nat, allocates: bool) returns (ok: bool)
      requires Valid() && HEADER_SIZE + |draft.ext| + |draft.key| <= needed
      requires sent.Some? ==> needed == HEADER_SIZE + |sent.value.ext| + |sent.value.key| + |sent.value.body|
      modifies this, buffer
      ensures Valid() && (buffer == old(buffer) || fresh(buffer))
      ensures ok <==> sent.Some? && old(View()).Has(needed, allocates)
      ensures View() ==
              if sent.Some? then old(View()).Filled(needed, allocates) else old(View()).Grown(needed, allocates)
      ensures Contents() == old(Contents()) + if ok then Encode(sent.value) else []
    {
      ok := Grow(needed, allocates);
      if ok {
        if sent.None? {
          Spoil(draft, needed - HEADER_SIZE - |draft.ext| - |draft.key|);
          return false;
        }
        EmitResponse(sent.value);
      }
    }

    /** The same for a call that sends `sent` and asks for `needed` bytes. */
    method PlaceFor(ghost a: Append, sent: Option<Response>, draft: Response, needed: nat, allocates: bool)
      returns (ok: bool)
      requires Valid() && HEADER_SIZE + |draft.ext| + |draft.key| <= needed
      requires sent.Some? ==> needed == HEADER_SIZE + |sent.value.ext| + |sent.value.key| + |sent.value.body|
      requires a.Sent() == sent && a.Needed() == Some(needed)
      modifies this, buffer
      ensures Valid() && (buffer == old(buffer) || fresh(buffer))
      ensures ok <==> a.Succeeds(old(View()), allocates)
      ensures View() == a.After(old(View()), allocates) && Contents() == old(Contents()) + a.Packet(ok)
    {
      CallOutcome(a, View(), allocates, sent, needed);
      ok := Place(sent, draft, needed, allocates);
    }

    /**
     * mcbp_response_handler. `length` and `inflated` are what snappy says about
     * the body; `allocates` is what realloc answers.
     */
    method Respond(supportsDatatype: bool, r: Response, length: Option<nat>, inflated: Option<seq<byte>>,
                   allocates: bool)
      returns (ok: bool)
      requires Valid() && Reply(supportsDatatype, r, length, inflated).Sensible()
      modifies this, buffer
      ensures Valid() && (buffer == old(buffer) || fresh(buffer))
      ensures var a := Reply(supportsDatatype, r, length, inflated);
              && (ok <==> a.Succeeds(old(View()), allocates)) && View() == a.After(old(View()), allocates)
              && Contents() == old(Contents()) + a.Packet(ok)
      ensures ok ==> Contents() == old(Contents()) + ReplyBytes(supportsDatatype, r, inflated)
      ensures ok <==> (MustInflate(supportsDatatype, r) ==> inflated.Some?)
                      && old(View()).Has(|ReplyBytes(supportsDatatype, r, inflated)|, allocates)
    {
      ReplyOutcome(supportsDatatype, r, length, inflated, View(), allocates);
      ok := AppendReply(supportsDatatype, r, length, inflated, allocates);
    }

    method AppendReply(supportsDatatype: bool, r: Response, length: Option<nat>, inflated: Option<seq<byte>>,
                       allocates: bool)
      returns (ok: bool)
      requires Valid() && Reply(supportsDatatype, r, length, inflated).Sensible()
      modifies this, buffer
      ensures Valid() && (buffer == old(buffer) || fresh(buffer))
      ensures var a := Reply(supportsDatatype, r, length, inflated);
              && (ok <==> a.Succeeds(old(View()), allocates)) && View() == a.After(old(View()), allocates)
              && Contents() == old(Contents()) + a.Packet(ok)
    {
      assert Contents() + [] == Contents();
      var inflate := !supportsDatatype && Compressed(r.dataType);
      if inflate && length.None? {
        return false;
      }
      var needed := |r.key| + |r.ext| + HEADER_SIZE + if inflate then length.value else |r.body|;
      var draft := r.(dataType := if supportsDatatype then r.dataType else 0);
      var sent :=
        if !inflate then Some(draft) else if inflated.None? then None else Some(draft.(body := inflated.value));
      ok := PlaceFor(Reply(supportsDatatype, r, length, inflated), sent, draft, needed, allocates);
    }

    /** The packet is begun behind the offset, but inflating the body fails and the offset stays. */
    method Spoil(r: Response, length: nat)
      requires Valid() && buffer != null && offset + HEADER_SIZE + |r.ext| + |r.key| + length <= size
      modifies buffer
      ensures Valid() && Contents() == old(Contents())
    {
      HeaderSize();
      var header := Header(r)[6 := length + |r.key| + |r.ext|];
      var buf := Copy(offset, Pack(HEADER, header));
      buf := Copy(buf, r.ext);
      buf := Copy(buf, r.key);
      assert buffer[..offset] == buffer[..buf][..offset];
    }

    /** append_stats: nothing is appended when the buffer cannot grow. */
    method AppendStats(key: seq<byte>, value: seq<byte>, opaqueValue: nat, allocates: bool) returns (ok: bool)
      requires Valid()
      modifies this, buffer
      ensures Valid() && (buffer == old(buffer) || fresh(buffer))
      ensures var a := Statistic(key, value, opaqueValue);
              && (ok <==> a.Succeeds(old(View()), allocates)) && View() == a.After(old(View()), allocates)
              && Contents() == old(Contents()) + a.Packet(ok)
      ensures ok ==> Contents() == old(Contents()) + StatBytes(key, value, opaqueValue)
      ensures ok <==> allocates || (old(buffer) != null && old(offset) + HEADER_SIZE + |key| + |value| <= old(size))
    {
      StatPacket(key, value, opaqueValue);
      var stat := Stat(key, value, opaqueValue);
      ok := PlaceFor(Statistic(key, value, opaqueValue), Some(stat), stat, |value| + |key| + HEADER_SIZE, allocates);
    }

    method Apply(a: Append, allocates: bool) returns (ok: bool)
      requires Valid() && a.Sensible()
      modifies this, buffer
      ensures Valid() && (buffer == old(buffer) || fresh(buffer)) && (ok ==> a.Sent().Some?)
      ensures Contents() == old(Contents()) + a.Packet(ok)
      ensures (ok <==> a.Succeeds(old(View()), allocates)) && View() == a.After(old(View()), allocates)
    {
      match a
      case Reply(supportsDatatype, r, length, inflated) =>
        ok := Respond(supportsDatatype, r, length, inflated, allocates);
      case Statistic(key, value, opaqueValue) =>
        ok := AppendStats(key, value, opaqueValue, allocates);
    }

    method CollectOne(appends: seq<Append>, allocates: seq<bool>, oks: seq<bool>, ghost room: Room,
                      ghost was: seq<byte>)
      returns (oks': seq<bool>)
      requires Valid() && room.Proper() && |oks| < |appends| && Explained(room, appends, allocates, oks)
      requires appends[|oks|].Sensible() && Contents() == was + Added(appends, oks)
      requires View() == RoomAfter(room, appends[..|oks|], allocates[..|oks|])
      modifies this, buffer
      ensures Valid() && (buffer == old(buffer) || fresh(buffer)) && |oks'| == |oks| + 1
      ensures Explained(room, appends, allocates, oks') && Contents() == was + Added(appends, oks')
      ensures View() == RoomAfter(room, appends[..|oks'|], allocates[..|oks'|])
    {
      var ok := Apply(appends[|oks|], allocates[|oks|]);
      Continues(was, Added(appends, oks), appends[|oks|].Packet(ok), Contents());
      AddedNext(appends, oks, ok);
      RoomNext(room, appends, allocates, |oks|);
      ExplainedNext(room, appends, allocates, oks, ok);
      oks' := oks + [ok];
    }

    /** Any sequence of appends: the buffer gains the packets of those that succeeded, in order. */
    method Collect(appends: seq<Append>, allocates: seq<bool>) returns (oks: seq<bool>)
      requires Valid() && |allocates| == |appends| && forall i :: 0 <= i < |appends| ==> appends[i].Sensible()
      modifies this, buffer
      ensures Valid() && |oks| == |appends| && Explained(old(View()), appends, allocates, oks)
      ensures View() == RoomAfter(old(View()), appends, allocates)
      ensures Contents() == old(Contents()) + Added(appends, oks)
    {
      ghost var was, room := Contents(), View();
      oks := [];
      assert Added(appends, oks) == [];
      while |oks| < |appends|
        invariant Valid() && (buffer == old(buffer) || fresh(buffer)) && Explained(room, appends, allocates, oks)
        invariant View() == RoomAfter(room, appends[..|oks|], allocates[..|oks|])
        invariant Contents() == was + Added(appends, oks)
        decreases |appends| - |oks|
      {
        oks := CollectOne(appends, allocates, oks, room, was);
      }
      assert appends[..|oks|] == appends && allocates[..|oks|] == allocates;
    }
  }

  lemma Continues<T>(was: seq<T>, added: seq<T>, packet: seq<T>, contents: seq<T>)
    requires contents == was + added + packet
    ensures contents == was + (added + packet)
  {
  }
}
