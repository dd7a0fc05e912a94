/** The six DCP messages on the wire, byte by byte: which field is where. */
module DcpFormat {
  import opened Basics
  import opened Wire
  import opened Dcp

  // ----- the extras -----

  lemma {:induction false} ExtrasMember(opcode: nat, offsets: seq<nat>, p: seq<byte>, i: nat)
    requires Offsets(Extras(opcode), offsets, HEADER_SIZE) && i < |Extras(opcode)|
    requires |p| >= HEADER_SIZE + ExtrasSize(opcode) && Size(Extras(opcode)) == ExtrasSize(opcode)
    ensures offsets[i] + Extras(opcode)[i].Width() <= |p|
    ensures Unpack(Extras(opcode), p[HEADER_SIZE..])[i] ==
            Get(Extras(opcode)[i], p[offsets[i]..offsets[i] + Extras(opcode)[i].Width()])
  {
    MemberAtOffset(Extras(opcode), offsets, HEADER_SIZE, p, i);
  }

  /** The extras of a mutation, byte by byte. */
  lemma MutationExtras(p: seq<byte>)
    requires |p| >= 55
    ensures Size(Extras(0x57)) == 31
    ensures Unpack(Extras(0x57), p[HEADER_SIZE..]) ==
            [Net(p, 24, 32), Net(p, 32, 40), Host(p, 40, 44), Net(p, 44, 48), Net(p, 48, 52), Net(p, 52, 54), p[54]]
  {
    MutationMember(p, 0);
    MutationMember(p, 1);
    MutationMember(p, 2);
    MutationMember(p, 3);
    MutationMember(p, 4);
    MutationMember(p, 5);
    MutationMember(p, 6);
    OneByte(p, 54);
  }

  lemma DeletionExtras(p: seq<byte>, opcode: nat)
    requires |p| >= 42 && (opcode == 0x58 || opcode == 0x59)
    ensures Size(Extras(opcode)) == 18
    ensures Unpack(Extras(opcode), p[HEADER_SIZE..]) == [Net(p, 24, 32), Net(p, 32, 40), Net(p, 40, 42)]
  {
    ExtrasSizes(opcode);
    assert Offsets([U64, U64, U16], [24, 32, 40], 24);
    ExtrasMember(opcode, [24, 32, 40], p, 0);
    ExtrasMember(opcode, [24, 32, 40], p, 1);
    ExtrasMember(opcode, [24, 32, 40], p, 2);
  }

  lemma MarkerExtras(p: seq<byte>)
    requires |p| >= 44
    ensures Size(Extras(0x56)) == 20
    ensures Unpack(Extras(0x56), p[HEADER_SIZE..]) == [Net(p, 24, 32), Net(p, 32, 40), Net(p, 40, 44)]
  {
    ExtrasSizes(0x56);
    assert Offsets([U64, U64, U32], [24, 32, 40], 24);
    ExtrasMember(0x56, [24, 32, 40], p, 0);
    ExtrasMember(0x56, [24, 32, 40], p, 1);
    ExtrasMember(0x56, [24, 32, 40], p, 2);
  }

  const STREAM_REQ_OFFSETS: seq<nat> := [24, 28, 32, 40, 48, 56, 64]

  lemma StreamReqOffsetsFit()
    ensures Offsets(Extras(0x53), STREAM_REQ_OFFSETS, HEADER_SIZE)
  {
    assert Offsets([U64, U64, U64], [48, 56, 64], 48);
    assert Offsets([U32, U64, U64, U64, U64, U64], [28, 32, 40, 48, 56, 64], 28);
  }

  lemma StreamReqMember(p: seq<byte>, i: nat)
    requires |p| >= 72 && i < 7
    ensures Size(Extras(0x53)) == 48
    ensures var field, at := Extras(0x53)[i], STREAM_REQ_OFFSETS[i];
            && at + field.Width() <= |p|
            && Unpack(Extras(0x53), p[HEADER_SIZE..])[i] == Get(field, p[at..at + field.Width()])
  {
    ExtrasSizes(0x53);
    StreamReqOffsetsFit();
    ExtrasMember(0x53, STREAM_REQ_OFFSETS, p, i);
  }

  lemma StreamReqExtras(p: seq<byte>)
    requires |p| >= 72
    ensures Size(Extras(0x53)) == 48
    ensures Unpack(Extras(0x53), p[HEADER_SIZE..]) ==
            [Net(p, 24, 28), Net(p, 28, 32), Net(p, 32, 40), Net(p, 40, 48), Net(p, 48, 56), Net(p, 56, 64),
             Net(p, 64, 72)]
  {
    StreamReqMember(p, 0);
    StreamReqMember(p, 1);
    StreamReqMember(p, 2);
    StreamReqMember(p, 3);
    StreamReqMember(p, 4);
    StreamReqMember(p, 5);
    StreamReqMember(p, 6);
  }

  // ----- the messages -----

  /** The header of a request, byte by byte. */
  predicate Requests(p: seq<byte>, opcode: nat, nkey: nat, extlen: nat, dataType: nat, vbucket: nat, bodylen: nat,
                     opaqueValue: nat, cas: nat) {
    && HEADER_SIZE <= |p| == HEADER_SIZE + bodylen
    && p[0] == 0x80 && p[1] == opcode && Net(p, 2, 4) == nkey && p[4] == extlen && p[5] == dataType
    && Net(p, 6, 8) == vbucket && Net(p, 8, 12) == bodylen && Host(p, 12, 16) == opaqueValue && Net(p, 16, 24) == cas
  }

  lemma EncodedHeader(m: Message)
    requires Encodable(m)
    ensures var h := Header(m);
            |h| == |HEADER| && h[0] == 0x80 && Requests(Encode(m), h[1], h[2], h[3], h[4], h[5], h[6], h[7], h[8])
  {
    EncodedMembers(m);
    BodyLengthIsExact(m);
    HeaderBytes(Encode(m));
  }

  lemma EncodedExtras(m: Message)
    requires Encodable(m)
    ensures Size(Extras(Opcode(m))) == ExtrasSize(Opcode(m)) && |Encode(m)| >= HEADER_SIZE + ExtrasSize(Opcode(m))
    ensures Unpack(Extras(Opcode(m)), Encode(m)[HEADER_SIZE..]) == Body(m)
    ensures Encode(m)[HEADER_SIZE + ExtrasSize(Opcode(m))..] == Trailer(m)
  {
    EncodedMembers(m);
  }

  /** What follows the extras. */
  lemma TrailerAt(p: seq<byte>, n: nat, a: seq<byte>, b: seq<byte>, c: seq<byte>)
    requires n <= |p| && p[n..] == a + b + c
    ensures |p| == n + |a| + |b| + |c| && p[n..n + |a|] == a
    ensures p[n + |a|..n + |a| + |b|] == b && p[n + |a| + |b|..] == c
  {
    PartsOfConcat(a, b, c);
    SplitOfConcat(a + b, c);
    SliceOfDrop(p, n, n, n + |a|);
    SliceOfDrop(p, n, n + |a|, n + |a| + |b|);
    SliceOfDrop(p, n, n + |a| + |b|, |p|);
  }

  lemma PairAt(p: seq<byte>, n: nat, a: seq<byte>, b: seq<byte>)
    requires n <= |p| && p[n..] == a + b
    ensures |p| == n + |a| + |b| && p[n..n + |a|] == a && p[n + |a|..] == b
  {
    assert a + b == a + b + [];
    TrailerAt(p, n, a, b, []);
  }

  lemma MutationHeader(m: Message)
    requires m.Mutation? && Encodable(m)
    ensures Requests(Encode(m), 0x57, |m.key|, 31, m.dataType, m.vbucket, 31 + |m.key| + |m.value| + |m.meta|,
                     m.opaqueValue, m.cas)
  {
    EncodedHeader(m);
  }

  lemma MutationBody(m: Message)
    requires m.Mutation? && Encodable(m)
    ensures var p := Encode(m);
            && 55 <= |p| && p[55..] == m.key + m.value + m.meta
            && Net(p, 24, 32) == m.bySeqno && Net(p, 32, 40) == m.revSeqno && Host(p, 40, 44) == m.flags
            && Net(p, 44, 48) == m.expiration && Net(p, 48, 52) == m.lockTime && Net(p, 52, 54) == |m.meta|
            && p[54] == m.nru
  {
    EncodedExtras(m);
    MutationExtras(Encode(m));
  }

  /** A mutation on the wire. */
  lemma MutationOnTheWire(m: Message)
    requires m.Mutation? && Encodable(m)
    ensures Requests(Encode(m), 0x57, |m.key|, 31, m.dataType, m.vbucket, 31 + |m.key| + |m.value| + |m.meta|,
                     m.opaqueValue, m.cas)
    ensures var p := Encode(m);
            && Net(p, 24, 32) == m.bySeqno && Net(p, 32, 40) == m.revSeqno && Host(p, 40, 44) == m.flags
            && Net(p, 44, 48) == m.expiration && Net(p, 48, 52) == m.lockTime && Net(p, 52, 54) == |m.meta|
            && p[54] == m.nru
    ensures var p, k, v := Encode(m), 55 + |m.key|, 55 + |m.key| + |m.value|;
            p[55..k] == m.key && p[k..v] == m.value && p[v..] == m.meta
  {
    MutationHeader(m);
    MutationBody(m);
    TrailerAt(Encode(m), 55, m.key, m.value, m.meta);
  }

  lemma DeletionHeader(m: Message)
    requires (m.Deletion? || m.Expiration?) && Encodable(m)
    ensures Requests(Encode(m), if m.Deletion? then 0x58 else 0x59, |m.key|, 18, 0, m.vbucket, 18 + |m.key| + |m.meta|,
                     m.opaqueValue, m.cas)
  {
    EncodedHeader(m);
  }

  lemma DeletionBody(m: Message)
    requires (m.Deletion? || m.Expiration?) && Encodable(m)
    ensures var p := Encode(m);
            && 42 <= |p| && p[42..] == m.key + m.meta
            && Net(p, 24, 32) == m.bySeqno && Net(p, 32, 40) == m.revSeqno && Net(p, 40, 42) == |m.meta|
  {
    EncodedExtras(m);
    DeletionExtras(Encode(m), Opcode(m));
  }

  /** A deletion or expiration on the wire. */
  lemma DeletionOnTheWire(m: Message)
    requires (m.Deletion? || m.Expiration?) && Encodable(m)
    ensures Requests(Encode(m), if m.Deletion? then 0x58 else 0x59, |m.key|, 18, 0, m.vbucket, 18 + |m.key| + |m.meta|,
                     m.opaqueValue, m.cas)
    ensures var p := Encode(m);
            Net(p, 24, 32) == m.bySeqno && Net(p, 32, 40) == m.revSeqno && Net(p, 40, 42) == |m.meta|
    ensures var p, k := Encode(m), 42 + |m.key|; p[42..k] == m.key && p[k..] == m.meta
  {
    DeletionHeader(m);
    DeletionBody(m);
    PairAt(Encode(m), 42, m.key, m.meta);
  }

  /** A snapshot marker on the wire. */
  lemma MarkerOnTheWire(m: Message)
    requires m.Marker? && Encodable(m)
    ensures Requests(Encode(m), 0x56, 0, 20, 0, m.vbucket, 20, m.opaqueValue, 0)
    ensures var p := Encode(m);
            Net(p, 24, 32) == m.startSeqno && Net(p, 32, 40) == m.endSeqno && Net(p, 40, 44) == m.flags
  {
    EncodedHeader(m);
    EncodedExtras(m);
    MarkerExtras(Encode(m));
  }

  /** A stream request on the wire. */
  lemma StreamReqOnTheWire(m: Message)
    requires m.StreamReq? && Encodable(m)
    ensures Requests(Encode(m), 0x53, 0, 48, 0, m.vbucket, 48, m.opaqueValue, 0)
    ensures var p := Encode(m);
            && Net(p, 24, 28) == m.flags && Net(p, 28, 32) == 0 && Net(p, 32, 40) == m.startSeqno
            && Net(p, 40, 48) == m.endSeqno && Net(p, 48, 56) == m.uuid
            && Net(p, 56, 64) == m.snapStart && Net(p, 64, 72) == m.snapEnd
  {
    EncodedHeader(m);
    EncodedExtras(m);
    StreamReqExtras(Encode(m));
  }

  /** A control message on the wire. */
  lemma ControlOnTheWire(m: Message)
    requires m.Control? && Encodable(m)
    ensures Requests(Encode(m), 0x5e, |m.key|, 0, 0, 0, |m.key| + |m.value|, m.opaqueValue, 0)
    ensures var p, k := Encode(m), 24 + |m.key|; p[24..k] == m.key && p[k..] == m.value
  {
    EncodedHeader(m);
    EncodedExtras(m);
    PairAt(Encode(m), 24, m.key, m.value);
  }

  // ----- validators -----

  /** What the header check and the validators let through, byte by byte. */
  lemma AdmitsExactly(p: seq<byte>)
    requires |p| >= HEADER_SIZE
    ensures var nkey, bodylen := Net(p, 2, 4), Net(p, 8, 12);
            Admits(p) <==>
            && p[0] == 0x80 && nkey + p[4] <= bodylen
            && (|| (p[1] == 0x53 && p[4] == 48 && nkey == 0 && p[5] == 0)
                || (p[1] == 0x56 && p[4] == 20 && nkey == 0 && bodylen == 20 && p[5] == 0)
                || (p[1] == 0x57 && p[4] == 31 && nkey > 0)
                || (p[1] == 0x58 && p[4] == 18 && nkey > 0)
                || (p[1] == 0x59 && p[4] == 18 && nkey > 0 && bodylen == nkey + 18)
                || (p[1] == 0x5e && p[4] == 0 && 0 < nkey < bodylen && p[5] == 0))
  {
    HeaderBytes(p);
    NetFits(p, 2, 4, U16);
    NetFits(p, 8, 12, U32);
  }

  lemma NetFits(p: seq<byte>, from: nat, to: nat, f: Field)
    requires from <= to <= |p| && to - from == f.Width() && f != Raw32
    ensures Net(p, from, to) < f.Limit()
  {
    FieldRoundTrip(f, 0, p[from..to]);
  }

  // ----- decoders -----

  /** The message is what the bytes of the packet say. */
  ghost predicate ReadFrom(p: seq<byte>, m: Message)
    requires |p| >= HEADER_SIZE
  {
    var nkey, opcode := Net(p, 2, 4), p[1] as nat;
    && m.opaqueValue == Host(p, 12, 16) && |p| >= HEADER_SIZE + ExtrasSize(opcode) + nkey
    && match m
       case StreamReq(_, vbucket, flags, start, end, uuid, snapStart, snapEnd) =>
         && opcode == 0x53 && vbucket == Net(p, 6, 8) && flags == Net(p, 24, 28) && start == Net(p, 32, 40)
         && end == Net(p, 40, 48) && uuid == Net(p, 48, 56) && snapStart == Net(p, 56, 64) && snapEnd == Net(p, 64, 72)
       case Marker(_, vbucket, start, end, flags) =>
         && opcode == 0x56 && vbucket == Net(p, 6, 8) && start == Net(p, 24, 32) && end == Net(p, 32, 40)
         && flags == Net(p, 40, 44)
       case Mutation(_, _, _, _, _, _, _, _, _, _, _, _, _) => opcode == 0x57 && Encode(m) == p
       case Deletion(_, vbucket, cas, bySeqno, revSeqno, key, meta) =>
         opcode == 0x58 && RemovalFrom(p, nkey, vbucket, cas, bySeqno, revSeqno, key, meta)
       case Expiration(_, vbucket, cas, bySeqno, revSeqno, key, meta) =>
         opcode == 0x59 && RemovalFrom(p, nkey, vbucket, cas, bySeqno, revSeqno, key, meta)
       case Control(_, key, value) => opcode == 0x5e && key == p[24..24 + nkey] && value == p[24 + nkey..]
  }

  predicate RemovalFrom(p: seq<byte>, nkey: nat, vbucket: nat, cas: nat, bySeqno: nat, revSeqno: nat, key: seq<byte>,
                        meta: seq<byte>)
    requires |p| >= 42 + nkey
  {
    && vbucket == Net(p, 6, 8) && cas == Net(p, 16, 24) && bySeqno == Net(p, 24, 32) && revSeqno == Net(p, 32, 40)
    && 42 + nkey + Net(p, 40, 42) <= |p|
    && key == p[42..42 + nkey] && meta == p[42 + nkey..42 + nkey + Net(p, 40, 42)]
  }

  lemma DecodeParses(p: seq<byte>)
    requires Framed(p) && Admits(p)
    ensures var h, n := HeaderOf(p), HEADER_SIZE + ExtrasSize(HeaderOf(p)[1]);
            && |p| >= n + h[2] && Size(Extras(h[1])) == ExtrasSize(h[1])
            && Decode(p) == Parse(h, Unpack(Extras(h[1]), p[HEADER_SIZE..]), p[n..])
  {
    ExtrasSizes(HeaderOf(p)[1]);
  }

  lemma ReadRemoval(p: seq<byte>, m: Message)
    requires Framed(p) && Admits(p) && Decode(p) == Some(m) && (p[1] == 0x58 || p[1] == 0x59)
    ensures ReadFrom(p, m)
  {
    HeaderBytes(p);
    DecodeParses(p);
    DeletionExtras(p, p[1]);
    var nkey, nmeta := Net(p, 2, 4), Net(p, 40, 42);
    SliceOfDrop(p, 42, 42, 42 + nkey);
    SliceOfDrop(p, 42, 42 + nkey, 42 + nkey + nmeta);
  }

  lemma ReadControl(p: seq<byte>, m: Message)
    requires Framed(p) && Admits(p) && Decode(p) == Some(m) && p[1] == 0x5e
    ensures ReadFrom(p, m)
  {
    HeaderBytes(p);
    DecodeParses(p);
    NetFits(p, 8, 12, U32);
    var nkey := Net(p, 2, 4);
    SliceOfDrop(p, 24, 24, 24 + nkey);
    SliceOfDrop(p, 24, 24 + nkey, |p|);
  }

  lemma ReadFixed(p: seq<byte>, m: Message)
    requires Framed(p) && Admits(p) && Decode(p) == Some(m) && (p[1] == 0x53 || p[1] == 0x56)
    ensures ReadFrom(p, m)
  {
    HeaderBytes(p);
    DecodeParses(p);
    if p[1] == 0x53 {
      StreamReqExtras(p);
    } else {
      MarkerExtras(p);
    }
  }

  /** What the decoders make of a complete packet that is admitted. */
  lemma DecodedFields(p: seq<byte>, m: Message)
    requires Framed(p) && Admits(p) && Decode(p) == Some(m)
    ensures ReadFrom(p, m)
  {
    HeaderBytes(p);
    AdmitsExactly(p);
    if p[1] == 0x57 {
      MutationIsCanonical(p, m);
      DecodeParses(p);
      EncodedHeader(m);
    } else if p[1] == 0x5e {
      ReadControl(p, m);
    } else if p[1] == 0x58 || p[1] == 0x59 {
      ReadRemoval(p, m);
    } else {
      ReadFixed(p, m);
    }
  }

  // ----- numbers that fit -----

  /** A message can be sent exactly if its numbers fit: the lengths of key and metadata, and that of the whole body. */
  predicate Sendable(m: Message) {
    m.opaqueValue < 0x1_0000_0000 &&
    match m
    case StreamReq(_, vbucket, flags, start, end, uuid, snapStart, snapEnd) =>
      && vbucket < 0x1_0000 && flags < 0x1_0000_0000 && start < LONG && end < LONG && uuid < LONG
      && snapStart < LONG && snapEnd < LONG
    case Marker(_, vbucket, start, end, flags) =>
      vbucket < 0x1_0000 && start < LONG && end < LONG && flags < 0x1_0000_0000
    case Mutation(_, vbucket, cas, dataType, bySeqno, revSeqno, flags, expiration, lockTime, nru, key, value, meta) =>
      && vbucket < 0x1_0000 && cas < LONG && dataType < 0x100 && bySeqno < LONG && revSeqno < LONG
      && flags < 0x1_0000_0000 && expiration < 0x1_0000_0000 && lockTime < 0x1_0000_0000 && nru < 0x100
      && |key| < 0x1_0000 && |meta| < 0x1_0000 && 31 + |key| + |value| + |meta| < 0x1_0000_0000
    case Deletion(_, vbucket, cas, bySeqno, revSeqno, key, meta) =>
      && vbucket < 0x1_0000 && cas < LONG && bySeqno < LONG && revSeqno < LONG && |key| < 0x1_0000 && |meta| < 0x1_0000
    case Expiration(_, vbucket, cas, bySeqno, revSeqno, key, meta) =>
      && vbucket < 0x1_0000 && cas < LONG && bySeqno < LONG && revSeqno < LONG && |key| < 0x1_0000 && |meta| < 0x1_0000
    case Control(_, key, value) => |key| < 0x1_0000 && |key| + |value| < 0x1_0000_0000
  }

  const LONG: nat := 0x1_0000_0000_0000_0000

  lemma FitsHeader(h: seq<nat>)
    requires |h| == 9
    ensures Fits(HEADER, h) <==>
            && h[0] < 0x100 && h[1] < 0x100 && h[2] < 0x1_0000 && h[3] < 0x100 && h[4] < 0x100 && h[5] < 0x1_0000
            && h[6] < 0x1_0000_0000 && h[7] < 0x1_0000_0000 && h[8] < LONG
  {
    if Fits(HEADER, h) {
      assert h[0] < HEADER[0].Limit() && h[1] < HEADER[1].Limit() && h[2] < HEADER[2].Limit();
      assert h[3] < HEADER[3].Limit() && h[4] < HEADER[4].Limit() && h[5] < HEADER[5].Limit();
      assert h[6] < HEADER[6].Limit() && h[7] < HEADER[7].Limit() && h[8] < HEADER[8].Limit();
    }
  }

  lemma FitsMutation(e: seq<nat>)
    requires |e| == 7
    ensures Fits(Extras(0x57), e) <==>
            && e[0] < LONG && e[1] < LONG && e[2] < 0x1_0000_0000 && e[3] < 0x1_0000_0000 && e[4] < 0x1_0000_0000
            && e[5] < 0x1_0000 && e[6] < 0x100
  {
    if Fits(Extras(0x57), e) {
      assert e[0] < Extras(0x57)[0].Limit() && e[1] < Extras(0x57)[1].Limit() && e[2] < Extras(0x57)[2].Limit();
      assert e[3] < Extras(0x57)[3].Limit() && e[4] < Extras(0x57)[4].Limit();
      assert e[5] < Extras(0x57)[5].Limit() && e[6] < Extras(0x57)[6].Limit();
    }
  }

  lemma FitsStreamReq(e: seq<nat>)
    requires |e| == 7
    ensures Fits(Extras(0x53), e) <==>
            && e[0] < 0x1_0000_0000 && e[1] < 0x1_0000_0000 && e[2] < LONG && e[3] < LONG && e[4] < LONG
            && e[5] < LONG && e[6] < LONG
  {
    if Fits(Extras(0x53), e) {
      assert e[0] < Extras(0x53)[0].Limit() && e[1] < Extras(0x53)[1].Limit() && e[2] < Extras(0x53)[2].Limit();
      assert e[3] < Extras(0x53)[3].Limit() && e[4] < Extras(0x53)[4].Limit();
      assert e[5] < Extras(0x53)[5].Limit() && e[6] < Extras(0x53)[6].Limit();
    }
  }

  lemma FitsShort(opcode: nat, e: seq<nat>)
    requires |e| == 3 && (opcode == 0x56 || opcode == 0x58 || opcode == 0x59)
    ensures Fits(Extras(opcode), e) <==>
            e[0] < LONG && e[1] < LONG && e[2] < if opcode == 0x56 then 0x1_0000_0000 else 0x1_0000
  {
    if Fits(Extras(opcode), e) {
      assert e[0] < Extras(opcode)[0].Limit() && e[1] < Extras(opcode)[1].Limit() && e[2] < Extras(opcode)[2].Limit();
    }
  }

  /** The messages that the results about encoding are about. */
  lemma EncodableExactly(m: Message)
    ensures Encodable(m) <==> Sendable(m)
  {
    FitsHeader(Header(m));
    if m.Mutation? {
      FitsMutation(Body(m));
    } else if m.StreamReq? {
      FitsStreamReq(Body(m));
    } else if !m.Control? {
      FitsShort(Opcode(m), Body(m));
    }
  }
}
