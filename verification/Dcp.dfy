/**
 * DCP requests on the wire: what the dcp_message_* producers write, what the
 * dcp_*_executor decoders hand to the engine, and what the validators admit.
 */
module Dcp {
  import opened Basics
  import opened Wire

  const REQUEST: nat := 0x80

  datatype Message =
    | StreamReq(opaqueValue: nat, vbucket: nat, flags: nat, startSeqno: nat, endSeqno: nat, uuid: nat,
                snapStart: nat, snapEnd: nat)
    | Marker(opaqueValue: nat, vbucket: nat, startSeqno: nat, endSeqno: nat, flags: nat)
    | Mutation(opaqueValue: nat, vbucket: nat, cas: nat, dataType: nat, bySeqno: nat, revSeqno: nat, flags: nat,
               expiration: nat, lockTime: nat, nru: nat, key: seq<byte>, value: seq<byte>, meta: seq<byte>)
    | Deletion(opaqueValue: nat, vbucket: nat, cas: nat, bySeqno: nat, revSeqno: nat, key: seq<byte>, meta: seq<byte>)
    | Expiration(opaqueValue: nat, vbucket: nat, cas: nat, bySeqno: nat, revSeqno: nat, key: seq<byte>, meta: seq<byte>)
    | Control(opaqueValue: nat, key: seq<byte>, value: seq<byte>)

  function Opcode(m: Message): nat {
    match m
    case StreamReq(_, _, _, _, _, _, _, _) => 0x53
    case Marker(_, _, _, _, _) => 0x56
    case Mutation(_, _, _, _, _, _, _, _, _, _, _, _, _) => 0x57
    case Deletion(_, _, _, _, _, _, _) => 0x58
    case Expiration(_, _, _, _, _, _, _) => 0x59
    case Control(_, _, _) => 0x5e
  }

  /** The fixed part behind the header. */
  function Extras(opcode: nat): seq<Field> {
    if opcode == 0x53 then [U32, U32, U64, U64, U64, U64, U64]
    else if opcode == 0x56 then [U64, U64, U32]
    else if opcode == 0x57 then [U64, U64, Raw32, U32, U32, U16, U8]
    else if opcode == 0x58 || opcode == 0x59 then [U64, U64, U16]
    else []
  }

  function ExtrasSize(opcode: nat): nat {
    if opcode == 0x53 then 48 else if opcode == 0x56 then 20 else if opcode == 0x57 then 31
    else if opcode == 0x58 || opcode == 0x59 then 18 else 0
  }

  lemma ExtrasSizes(opcode: nat)
    ensures Size(Extras(opcode)) == ExtrasSize(opcode)
  {
    if opcode == 0x53 {
      assert Size([U32, U32, U64, U64, U64, U64, U64]) == 48;
    } else if opcode == 0x57 {
      assert Size([U64, U64, Raw32, U32, U32, U16, U8]) == 31;
    } else {
      assert Size([U64, U64, U32]) == 20 && Size([U64, U64, U16]) == 18;
    }
  }

  // ----- producers -----

  function Header(m: Message): seq<nat> {
    match m
    case StreamReq(opaqueValue, vbucket, _, _, _, _, _, _) =>
      [REQUEST, 0x53, 0, 48, 0, vbucket, 48, opaqueValue, 0]
    case Marker(opaqueValue, vbucket, _, _, _) =>
      [REQUEST, 0x56, 0, 20, 0, vbucket, 20, opaqueValue, 0]
    case Mutation(opaqueValue, vbucket, cas, dataType, _, _, _, _, _, _, key, value, meta) =>
      [REQUEST, 0x57, |key|, 31, dataType, vbucket, 31 + |key| + |value| + |meta|, opaqueValue, cas]
    case Deletion(opaqueValue, vbucket, cas, _, _, key, meta) =>
      [REQUEST, 0x58, |key|, 18, 0, vbucket, 18 + |key| + |meta|, opaqueValue, cas]
    case Expiration(opaqueValue, vbucket, cas, _, _, key, meta) =>
      [REQUEST, 0x59, |key|, 18, 0, vbucket, 18 + |key| + |meta|, opaqueValue, cas]
    case Control(opaqueValue, key, value) =>
      [REQUEST, 0x5e, |key|, 0, 0, 0, |value| + |key|, opaqueValue, 0]
  }

  function Body(m: Message): seq<nat> {
    match m
    case StreamReq(_, _, flags, start, end, uuid, snapStart, snapEnd) =>
      [flags, 0, start, end, uuid, snapStart, snapEnd]
    case Marker(_, _, start, end, flags) => [start, end, flags]
    case Mutation(_, _, _, _, bySeqno, revSeqno, flags, expiration, lockTime, nru, _, _, meta) =>
      [bySeqno, revSeqno, flags, expiration, lockTime, |meta|, nru]
    case Deletion(_, _, _, bySeqno, revSeqno, _, meta) => [bySeqno, revSeqno, |meta|]
    case Expiration(_, _, _, bySeqno, revSeqno, _, meta) => [bySeqno, revSeqno, |meta|]
    case Control(_, _, _) => []
  }

  function Trailer(m: Message): seq<byte> {
    match m
    case StreamReq(_, _, _, _, _, _, _, _) => []
    case Marker(_, _, _, _, _) => []
    case Mutation(_, _, _, _, _, _, _, _, _, _, key, value, meta) => key + value + meta
    case Deletion(_, _, _, _, _, key, meta) => key + meta
    case Expiration(_, _, _, _, _, key, meta) => key + meta
    case Control(_, key, value) => key + value
  }

  /** Every number, the lengths included, fits the member it is written to. */
  predicate Encodable(m: Message) {
    Fits(HEADER, Header(m)) && Fits(Extras(Opcode(m)), Body(m))
  }

  lemma Shape(m: Message)
    ensures |Header(m)| == |HEADER| && |Body(m)| == |Extras(Opcode(m))|
  {
  }

  /** The fixed part of the packet, as the producers prepare it on the stack. */
  function Fixed(m: Message): (bs: seq<byte>)
    ensures |bs| == HEADER_SIZE + ExtrasSize(Opcode(m))
  {
    Shape(m);
    HeaderSize();
    ExtrasSizes(Opcode(m));
    Pack(HEADER, Header(m)) + Pack(Extras(Opcode(m)), Body(m))
  }

  function Encode(m: Message): seq<byte> {
    Fixed(m) + Trailer(m)
  }

  // ----- decoders -----

  /** Header members, extras members and the bytes behind them; None if a range ends outside the packet. */
  function Parse(h: seq<nat>, e: seq<nat>, rest: seq<byte>): Option<Message>
    requires |h| == |HEADER| && |e| == |Extras(h[1])|
  {
    var nkey := h[2];
    if h[1] == 0x53 then Some(StreamReq(h[7], h[5], e[0], e[2], e[3], e[4], e[5], e[6]))
    else if h[1] == 0x56 then Some(Marker(h[7], h[5], e[0], e[1], e[2]))
    else if h[1] == 0x57 then
      var nvalue := Minus32(Minus32(Minus32(h[6], nkey), h[3]), e[5]);
      if nkey + nvalue + e[5] > |rest| then None
      else Some(Mutation(h[7], h[5], h[8], h[4], e[0], e[1], e[2], e[3], e[4], e[6],
                         rest[..nkey], rest[nkey..nkey + nvalue], rest[nkey + nvalue..nkey + nvalue + e[5]]))
    else if h[1] == 0x58 && nkey + e[2] <= |rest| then
      Some(Deletion(h[7], h[5], h[8], e[0], e[1], rest[..nkey], rest[nkey..nkey + e[2]]))
    else if h[1] == 0x59 && nkey + e[2] <= |rest| then
      Some(Expiration(h[7], h[5], h[8], e[0], e[1], rest[..nkey], rest[nkey..nkey + e[2]]))
    else if h[1] == 0x5e then
      var nvalue := Minus32(h[6], nkey);
      if nkey + nvalue > |rest| then None
      else Some(Control(h[7], rest[..nkey], rest[nkey..nkey + nvalue]))
    else None
  }

  function Decode(p: seq<byte>): Option<Message> {
    if |p| < HEADER_SIZE then None
    else
      var h := HeaderOf(p);
      ExtrasSizes(h[1]);
      var size := HEADER_SIZE + ExtrasSize(h[1]);
      if |p| < size then None else Parse(h, Unpack(Extras(h[1]), p[HEADER_SIZE..]), p[size..])
  }

  // ----- validators -----

  /** The six DCP validators, on the header they look at. */
  predicate Valid(h: seq<nat>)
    requires |h| == |HEADER|
  {
    && h[0] == REQUEST
    && if h[1] == 0x53 then h[3] == 48 && h[2] == 0 && h[4] == 0
       else if h[1] == 0x56 then h[3] == 20 && h[2] == 0 && h[6] == 20 && h[4] == 0
       else if h[1] == 0x57 then h[3] == 31 && h[2] != 0 && h[6] != 0
       else if h[1] == 0x58 then h[3] == 18 && h[2] != 0
       else if h[1] == 0x59 then h[3] == 18 && h[2] != 0 && Minus32(Minus32(h[6], h[2]), h[3]) == 0
       else h[1] == 0x5e && h[3] == 0 && h[2] != 0 && Minus32(h[6], h[2]) != 0 && h[4] == 0
  }

  predicate Accepts(p: seq<byte>)
    requires |p| >= HEADER_SIZE
  {
    Valid(HeaderOf(p))
  }

  /** validate_bin_header, which comes before the validators. */
  predicate LengthsFit(h: seq<nat>)
    requires |h| == |HEADER|
  {
    h[2] + h[3] <= h[6]
  }

  predicate Admits(p: seq<byte>) {
    |p| >= HEADER_SIZE && LengthsFit(HeaderOf(p)) && Accepts(p)
  }

  // ----- properties -----

  lemma {:induction false} EncodedMembers(m: Message)
    requires Encodable(m)
    ensures |Encode(m)| == HEADER_SIZE + ExtrasSize(Opcode(m)) + |Trailer(m)|
    ensures Size(Extras(Opcode(m))) == ExtrasSize(Opcode(m))
    ensures HeaderOf(Encode(m)) == Header(m)
    ensures Unpack(Extras(Opcode(m)), Encode(m)[HEADER_SIZE..]) == Body(m)
    ensures Encode(m)[HEADER_SIZE + ExtrasSize(Opcode(m))..] == Trailer(m)
  {
    HeaderSize();
    ExtrasSizes(Opcode(m));
    UnpackBoth(HEADER, Header(m), Extras(Opcode(m)), Body(m), Trailer(m));
  }

  lemma {:induction false} ParseMutation(m: Message)
    requires m.Mutation? && Header(m)[6] < 0x1_0000_0000
    ensures Parse(Header(m), Body(m), Trailer(m)) == Some(m)
  {
    var total, nkey, nmeta := Header(m)[6], |m.key|, |m.meta|;
    Minus32Exact(total, nkey);
    Minus32Exact(total - nkey, 31);
    Minus32Exact(total - nkey - 31, nmeta);
    PartsOfConcat(m.key, m.value, m.meta);
  }

  lemma {:induction false} ParseDeletion(m: Message)
    requires m.Deletion? || m.Expiration?
    ensures Parse(Header(m), Body(m), Trailer(m)) == Some(m)
  {
    PartsOfConcat(m.key, m.meta, []);
  }

  lemma {:induction false} ParseControl(m: Message)
    requires m.Control? && Header(m)[6] < 0x1_0000_0000
    ensures Parse(Header(m), Body(m), Trailer(m)) == Some(m)
  {
    Minus32Exact(|m.value| + |m.key|, |m.key|);
    PartsOfConcat(m.key, m.value, []);
  }

  lemma {:induction false} ParseInverts(m: Message)
    requires Encodable(m)
    ensures |Header(m)| == |HEADER| && |Body(m)| == |Extras(Header(m)[1])|
    ensures Parse(Header(m), Body(m), Trailer(m)) == Some(m)
  {
    assert Header(m)[6] < HEADER[6].Limit();
    if m.Mutation? {
      ParseMutation(m);
    } else if m.Deletion? || m.Expiration? {
      ParseDeletion(m);
    } else if m.Control? {
      ParseControl(m);
    }
  }

  /** A receiver hands the engine exactly what the sender was given. */
  lemma {:induction false} RoundTrip(m: Message)
    requires Encodable(m)
    ensures Decode(Encode(m)) == Some(m)
  {
    EncodedMembers(m);
    ParseInverts(m);
  }

  predicate Admissible(m: Message) {
    match m
    case StreamReq(_, _, _, _, _, _, _, _) => true
    case Marker(_, _, _, _, _) => true
    case Mutation(_, _, _, _, _, _, _, _, _, _, key, _, _) => key != []
    case Deletion(_, _, _, _, _, key, _) => key != []
    case Expiration(_, _, _, _, _, key, meta) => key != [] && meta == []
    case Control(_, key, value) => key != [] && value != []
  }

  lemma ValidExactly(m: Message)
    requires Header(m)[6] < 0x1_0000_0000
    ensures |Header(m)| == |HEADER| && (Valid(Header(m)) <==> Admissible(m))
  {
  }

  /** Which encoded messages a receiver lets through. */
  lemma {:induction false} AcceptedExactly(m: Message)
    requires Encodable(m)
    ensures |Encode(m)| >= HEADER_SIZE && (Accepts(Encode(m)) <==> Admissible(m))
  {
    EncodedMembers(m);
    assert Header(m)[6] < HEADER[6].Limit();
    ValidExactly(m);
  }

  lemma {:induction false} MembersOfMutation(h: seq<nat>, e: seq<nat>, rest: seq<byte>, m: Message)
    requires Fits(HEADER, h) && h[1] == 0x57 && Fits(Extras(0x57), e) && |rest| + 31 == h[6]
    requires Valid(h) && Parse(h, e, rest) == Some(m)
    ensures m.Mutation? && Header(m) == h && Body(m) == e && Trailer(m) == rest
  {
    var nkey, nmeta := h[2], e[5];
    assert h[2] < HEADER[2].Limit() && h[6] < HEADER[6].Limit() && e[5] < Extras(0x57)[5].Limit();
    var nvalue := Minus32(Minus32(Minus32(h[6], nkey), h[3]), nmeta);
    assert nvalue == h[6] - nkey - 31 - nmeta;
    assert rest == rest[..nkey] + rest[nkey..nkey + nvalue] + rest[nkey + nvalue..];
    assert rest[nkey + nvalue..] == rest[nkey + nvalue..nkey + nvalue + nmeta];
    assert Header(m) == h && Body(m) == e;
  }

  /** A complete, admitted mutation packet is the encoding of the message read from it. */
  lemma {:induction false} MutationIsCanonical(p: seq<byte>, m: Message)
    requires HEADER_SIZE <= |p| && HeaderOf(p)[1] == 0x57 && |p| == HEADER_SIZE + HeaderOf(p)[6]
    requires Accepts(p) && Decode(p) == Some(m)
    ensures Encodable(m) && Encode(m) == p
  {
    HeaderSize();
    ExtrasSizes(0x57);
    PackBoth(HEADER, Extras(0x57), p);
    MembersOfMutation(HeaderOf(p), Unpack(Extras(0x57), p[HEADER_SIZE..]), p[HEADER_SIZE + 31..], m);
  }

  /** The length of the metadata, as the extras announce it. */
  function MetaLength(opcode: nat, e: seq<nat>): nat
    requires |e| == |Extras(opcode)|
  {
    if opcode == 0x57 then e[5] else if opcode == 0x58 || opcode == 0x59 then e[2] else 0
  }

  lemma {:induction false} ParsesExactly(h: seq<nat>, e: seq<nat>, rest: seq<byte>)
    requires Fits(HEADER, h) && Fits(Extras(h[1]), e) && |rest| + ExtrasSize(h[1]) == h[6] && Valid(h) && LengthsFit(h)
    ensures Parse(h, e, rest).Some? <==> h[2] + h[3] + MetaLength(h[1], e) <= h[6]
  {
    assert h[6] < HEADER[6].Limit();
    if h[1] == 0x57 {
      assert e[5] < Extras(0x57)[5].Limit();
      assert Minus32(h[6], h[2]) == h[6] - h[2];
      assert Minus32(h[6] - h[2], h[3]) == h[6] - h[2] - h[3];
    }
  }

  /**
   * A complete packet that is admitted is decoded inside its bounds exactly if
   * the metadata it announces fits behind extras and key: neither the header
   * check nor the validators look at that length.
   */
  lemma {:induction false} DecodesExactly(p: seq<byte>)
    requires Framed(p) && Admits(p)
    ensures var h := HeaderOf(p);
            && HEADER_SIZE + Size(Extras(h[1])) <= |p|
            && (Decode(p).Some? <==>
                h[2] + h[3] + MetaLength(h[1], Unpack(Extras(h[1]), p[HEADER_SIZE..])) <= h[6])
  {
    var h := HeaderOf(p);
    HeaderSize();
    ExtrasSizes(h[1]);
    PackBoth(HEADER, Extras(h[1]), p);
    ParsesExactly(h, Unpack(Extras(h[1]), p[HEADER_SIZE..]), p[HEADER_SIZE + ExtrasSize(h[1])..]);
  }

  /** An expiration without metadata that announces `n` bytes of it. */
  function Announcing(m: Message, n: nat): seq<byte>
    requires m.Expiration?
  {
    Pack(HEADER, Header(m)) + Pack(Extras(0x59), [m.bySeqno, m.revSeqno, n]) + m.key
  }

  /** Such a packet is complete and admitted whatever it announces, but decodes only if that is nothing. */
  lemma {:induction false} AnnouncedMetaIsNotChecked(m: Message, n: nat)
    requires m.Expiration? && Encodable(m) && Admissible(m) && n < 0x1_0000
    ensures Framed(Announcing(m, n)) && Admits(Announcing(m, n))
    ensures Decode(Announcing(m, n)).Some? <==> n == 0
  {
    var p, e := Announcing(m, n), [m.bySeqno, m.revSeqno, n];
    assert Fits(Extras(0x59), e) by {
      assert Fits(Extras(0x59), Body(m));
    }
    HeaderSize();
    ExtrasSizes(0x59);
    UnpackBoth(HEADER, Header(m), Extras(0x59), e, m.key);
    assert Header(m)[6] < HEADER[6].Limit();
    ValidExactly(m);
    DecodesExactly(p);
  }

  // ----- the format -----

  const MUTATION_OFFSETS: seq<nat> := [24, 32, 40, 44, 48, 52, 54]

  /** The extras of a mutation are read where the protocol has them. */
  lemma {:induction false} MutationMember(p: seq<byte>, i: nat)
    requires |p| >= HEADER_SIZE + 31 && i < 7
    ensures Size(Extras(0x57)) == 31
    ensures var field, at := Extras(0x57)[i], MUTATION_OFFSETS[i];
            && at + field.Width() <= |p|
            && Unpack(Extras(0x57), p[HEADER_SIZE..])[i] == Get(field, p[at..at + field.Width()])
  {
    ExtrasSizes(0x57);
    MemberAtOffset(Extras(0x57), MUTATION_OFFSETS, HEADER_SIZE, p, i);
  }

  // ----- streams of packets -----

  /** The packets of the messages, one behind the other. */
  function Stream(ms: seq<Message>): seq<byte> {
    Join(Map(Encode, ms))
  }

  /** Cuts the input into packets and decodes them. */
  function Receive(p: seq<byte>): Option<seq<Message>> {
    var packets := Frames(p);
    if packets.None? then None else Traverse(Decode, packets.value)
  }

  lemma {:induction false} EncodedIsFramed(m: Message)
    requires Encodable(m)
    ensures Framed(Encode(m))
  {
    EncodedMembers(m);
    BodyLengthIsExact(m);
  }

  lemma BodyLengthIsExact(m: Message)
    ensures |Header(m)| == |HEADER| && Header(m)[6] == ExtrasSize(Opcode(m)) + |Trailer(m)|
  {
  }

  /** A stream of messages is received as it was sent, message by message. */
  lemma {:induction false} StreamRoundTrip(ms: seq<Message>)
    requires forall i :: 0 <= i < |ms| ==> Encodable(ms[i])
    ensures Receive(Stream(ms)) == Some(ms)
  {
    forall i | 0 <= i < |ms| ensures Framed(Map(Encode, ms)[i]) {
      EncodedIsFramed(ms[i]);
    }
    FramesOfJoin(Map(Encode, ms));
    forall i | 0 <= i < |ms| ensures Decode(Encode(ms[i])) == Some(ms[i]) {
      RoundTrip(ms[i]);
    }
    TraverseMap(Decode, Encode, ms);
  }
}
