/**
 * TAP events on the wire: what ship_mcbp_tap_log writes for mutations,
 * deletions and checkpoints, and what process_bin_tap_packet reads from it.
 */
module Tap {
  import opened Basics
  import opened Wire

  const TAP_SIZE: nat := 8

  /** As for other requests, but the opaque member carries the sequence number in network order. */
  const TAP_HEADER := [U8, U8, U16, U8, U8, U16, U32, U32, U64]

  /** engine-specific length, flags, ttl, three reserved bytes */
  const TAP := [U16, U16, U8, U8, U8, U8]

  datatype Kind = TapMutation | TapDelete | TapCheckpointStart | TapCheckpointEnd

  /** What the tap iterator returned: the item's members and the event's own. */
  datatype Event = Event(kind: Kind, seqno: nat, vbucket: nat, cas: nat, dataType: nat, engine: seq<byte>,
                         tapFlags: nat, ttl: nat, flags: nat, exptime: nat, key: seq<byte>, value: seq<byte>)

  /** What the receiver tells its engine. */
  datatype Received =
    | Notify(event: Event)
    | Einval
    | OutsidePacket
    | OtherOpcode

  predicate NoValue(tapFlags: nat) {
    tapFlags / 2 % 2 == 1
  }

  predicate NetworkByteOrder(tapFlags: nat) {
    tapFlags / 4 % 2 == 1
  }

  function Opcode(kind: Kind): nat {
    match kind
    case TapMutation => 0x41
    case TapDelete => 0x42
    case TapCheckpointStart => 0x46
    case TapCheckpointEnd => 0x47
  }

  /** The executor that is called for an opcode. */
  function KindOf(opcode: nat): Option<Kind> {
    if opcode == 0x41 then Some(TapMutation)
    else if opcode == 0x42 then Some(TapDelete)
    else if opcode == 0x46 then Some(TapCheckpointStart)
    else if opcode == 0x47 then Some(TapCheckpointEnd)
    else None
  }

  /** Item flags and expiry time; flags already in network order are copied as they are. */
  function Item(kind: Kind, tapFlags: nat): seq<Field> {
    if kind == TapDelete then [] else [if NetworkByteOrder(tapFlags) then Raw32 else U32, U32]
  }

  function ItemSize(kind: Kind): nat {
    if kind == TapDelete then 0 else 8
  }

  lemma Sizes(kind: Kind, tapFlags: nat)
    ensures Size(TAP_HEADER) == HEADER_SIZE && Size(TAP) == TAP_SIZE && Size(Item(kind, tapFlags)) == ItemSize(kind)
  {
    assert Size([U32, U32]) == 8 && Size([Raw32, U32]) == 8;
  }

  function TapHeaderOf(p: seq<byte>): (h: seq<nat>)
    requires |p| >= HEADER_SIZE
    ensures |h| == |TAP_HEADER|
  {
    Sizes(TapMutation, 0);
    Unpack(TAP_HEADER, p)
  }

  function TapPartOf(p: seq<byte>): (t: seq<nat>)
    requires |p| >= HEADER_SIZE + TAP_SIZE
    ensures |t| == |TAP|
  {
    Sizes(TapMutation, 0);
    Unpack(TAP, p[HEADER_SIZE..])
  }

  // ----- sender -----

  function SentValue(ev: Event): seq<byte> {
    if NoValue(ev.tapFlags) then [] else ev.value
  }

  function Header(ev: Event): seq<nat> {
    var ext := TAP_SIZE + ItemSize(ev.kind);
    [0x80, Opcode(ev.kind), |ev.key|, ext, if ev.kind == TapDelete then 0 else ev.dataType, ev.vbucket,
     ext + |ev.key| + |ev.engine| + |SentValue(ev)|, ev.seqno, ev.cas]
  }

  function TapPart(ev: Event): seq<nat> {
    [|ev.engine|, ev.tapFlags, ev.ttl, 0, 0, 0]
  }

  function ItemPart(ev: Event): seq<nat> {
    if ev.kind == TapDelete then [] else [ev.flags, ev.exptime]
  }

  predicate Encodable(ev: Event) {
    Fits(TAP_HEADER, Header(ev)) && Fits(TAP, TapPart(ev)) && Fits(Item(ev.kind, ev.tapFlags), ItemPart(ev))
  }

  function Encode(ev: Event): seq<byte> {
    Pack(TAP_HEADER, Header(ev)) + Pack(TAP, TapPart(ev)) +
    (Pack(Item(ev.kind, ev.tapFlags), ItemPart(ev)) + (ev.engine + ev.key + SentValue(ev)))
  }

  // ----- receiver -----

  /** Header members, tap members, item members (if any) and the bytes behind them. */
  function Parse(kind: Kind, h: seq<nat>, t: seq<nat>, i: seq<nat>, rest: seq<byte>): Received
    requires |h| == |TAP_HEADER| && |t| == |TAP| && |i| == |Item(kind, t[1])|
  {
    var nengine, nkey := t[0], h[2];
    var ndata := Minus32(Minus32(Minus32(Minus32(h[6], nengine), nkey), 8), ItemSize(kind));
    if t[2] == 0 then Einval
    else if nengine + nkey + ndata > |rest| then OutsidePacket
    else Notify(Event(kind, h[7], h[5], h[8], h[4], rest[..nengine], t[1], t[2] - 1,
                      if kind == TapDelete then 0 else i[0], if kind == TapDelete then 0 else i[1],
                      rest[nengine..nengine + nkey], rest[nengine + nkey..nengine + nkey + ndata]))
  }

  /** process_bin_tap_packet, called for an event of this kind. */
  function DecodeAs(kind: Kind, p: seq<byte>): Received
    requires |p| >= HEADER_SIZE + TAP_SIZE
  {
    var t := TapPartOf(p);
    Sizes(kind, t[1]);
    var q := p[HEADER_SIZE + TAP_SIZE..];
    if t[2] == 0 then Einval
    else if |q| < ItemSize(kind) then OutsidePacket
    else Parse(kind, TapHeaderOf(p), t, Unpack(Item(kind, t[1]), q), q[ItemSize(kind)..])
  }

  /** The executor is chosen by the opcode. */
  function Decode(p: seq<byte>): Received {
    if |p| < HEADER_SIZE + TAP_SIZE then OutsidePacket
    else
      var kind := KindOf(TapHeaderOf(p)[1]);
      if kind.None? then OtherOpcode else DecodeAs(kind.value, p)
  }

  /** tap_validator */
  predicate Accepts(p: seq<byte>)
    requires |p| >= HEADER_SIZE + TAP_SIZE
  {
    var bodylen := TapHeaderOf(p)[6];
    TAP_SIZE <= bodylen && TapPartOf(p)[0] <= bodylen
  }

  // ----- properties -----

  lemma {:induction false} EncodedMembers(ev: Event)
    requires Encodable(ev)
    ensures Size(TAP_HEADER) == HEADER_SIZE && Size(TAP) == TAP_SIZE
    ensures Size(Item(ev.kind, ev.tapFlags)) == ItemSize(ev.kind)
    ensures var p, n := Encode(ev), HEADER_SIZE + TAP_SIZE;
            && |p| >= n + ItemSize(ev.kind)
            && TapHeaderOf(p) == Header(ev) && TapPartOf(p) == TapPart(ev)
            && Unpack(Item(ev.kind, ev.tapFlags), p[n..]) == ItemPart(ev)
            && p[n..][ItemSize(ev.kind)..] == ev.engine + ev.key + SentValue(ev)
  {
    Sizes(ev.kind, ev.tapFlags);
    var item, rest := Pack(Item(ev.kind, ev.tapFlags), ItemPart(ev)), ev.engine + ev.key + SentValue(ev);
    UnpackBoth(TAP_HEADER, Header(ev), TAP, TapPart(ev), item + rest);
    UnpackPack(Item(ev.kind, ev.tapFlags), ItemPart(ev), rest);
    SplitOfConcat(item, rest);
  }

  /** The event as the other side sees it: one hop older, and without what a deletion does not carry. */
  function Delivered(ev: Event): Event
    requires ev.ttl > 0
  {
    var e := ev.(ttl := ev.ttl - 1, value := SentValue(ev));
    if ev.kind == TapDelete then e.(dataType := 0, flags := 0, exptime := 0) else e
  }

  lemma {:induction false} DataLength(ev: Event)
    requires Header(ev)[6] < 0x1_0000_0000
    ensures Minus32(Minus32(Minus32(Minus32(Header(ev)[6], |ev.engine|), |ev.key|), 8), ItemSize(ev.kind))
            == |SentValue(ev)|
  {
    var n := Header(ev)[6];
    assert Minus32(n, |ev.engine|) == n - |ev.engine|;
    assert Minus32(n - |ev.engine|, |ev.key|) == n - |ev.engine| - |ev.key|;
  }

  lemma {:induction false} ParseInverts(ev: Event)
    requires Encodable(ev)
    ensures Parse(ev.kind, Header(ev), TapPart(ev), ItemPart(ev), ev.engine + ev.key + SentValue(ev)) ==
            if ev.ttl == 0 then Einval else Notify(Delivered(ev))
  {
    assert Header(ev)[6] < TAP_HEADER[6].Limit();
    DataLength(ev);
    PartsOfConcat(ev.engine, ev.key, SentValue(ev));
  }

  /** What becomes of an event on the other side. */
  function Outcome(ev: Event): Received {
    if ev.ttl == 0 then Einval else Notify(Delivered(ev))
  }

  lemma {:induction false} ExecutorRoundTrip(ev: Event)
    requires Encodable(ev)
    ensures |Encode(ev)| >= HEADER_SIZE + TAP_SIZE && DecodeAs(ev.kind, Encode(ev)) == Outcome(ev)
  {
    EncodedMembers(ev);
    ParseInverts(ev);
  }

  lemma {:induction false} Admitted(ev: Event)
    requires Encodable(ev)
    ensures |Encode(ev)| >= HEADER_SIZE + TAP_SIZE && Accepts(Encode(ev))
  {
    EncodedMembers(ev);
  }

  lemma {:induction false} KindRecovered(ev: Event)
    requires Encodable(ev)
    ensures HEADER_SIZE <= |Encode(ev)| && KindOf(TapHeaderOf(Encode(ev))[1]) == Some(ev.kind)
  {
    EncodedMembers(ev);
    OpcodeOf(ev);
  }

  lemma OpcodeOf(ev: Event)
    ensures KindOf(Header(ev)[1]) == Some(ev.kind)
  {
    assert Header(ev)[1] == Opcode(ev.kind);
  }

  /** What is sent is delivered one hop later; an event that has used up its hops is refused. */
  lemma {:induction false} RoundTrip(ev: Event)
    requires Encodable(ev)
    ensures |Encode(ev)| >= HEADER_SIZE + TAP_SIZE && Accepts(Encode(ev))
    ensures Decode(Encode(ev)) == Outcome(ev)
  {
    Admitted(ev);
    KindRecovered(ev);
    ExecutorRoundTrip(ev);
  }

  lemma {:induction false} ParsesExactly(kind: Kind, h: seq<nat>, t: seq<nat>, i: seq<nat>, rest: seq<byte>)
    requires Fits(TAP_HEADER, h) && Fits(TAP, t) && |i| == |Item(kind, t[1])|
             && |rest| + TAP_SIZE + ItemSize(kind) == h[6]
    ensures Parse(kind, h, t, i, rest).OutsidePacket? <==>
            t[2] != 0 && h[6] < TAP_SIZE + ItemSize(kind) + t[0] + h[2]
  {
    assert h[6] < TAP_HEADER[6].Limit() && h[2] < TAP_HEADER[2].Limit() && t[0] < TAP[0].Limit();
  }

  /**
   * A complete packet that is admitted is decoded inside its bounds exactly if
   * it has no hops left or engine data, key and fixed parts fit together: the
   * validator only looks at the engine data on its own.
   */
  lemma {:induction false} DecodesExactly(p: seq<byte>, kind: Kind)
    requires HEADER_SIZE + TAP_SIZE <= |p| && Framed(p)
    requires Accepts(p) && KindOf(TapHeaderOf(p)[1]) == Some(kind)
    ensures var h, t := TapHeaderOf(p), TapPartOf(p);
            Decode(p).OutsidePacket? <==> t[2] != 0 && h[6] < TAP_SIZE + ItemSize(kind) + t[0] + h[2]
  {
    var h, t := TapHeaderOf(p), TapPartOf(p);
    Sizes(kind, t[1]);
    PackBoth(TAP_HEADER, TAP, p);
    TapBodyLengthAt8(p);
    BodyLengthAt8(p);
    var q := p[HEADER_SIZE + TAP_SIZE..];
    if |q| >= ItemSize(kind) {
      ParsesExactly(kind, h, t, Unpack(Item(kind, t[1]), q), q[ItemSize(kind)..]);
    }
  }

  /** The packet of an event, but announcing `n` bytes of engine data. */
  function Announcing(ev: Event, n: nat): seq<byte> {
    Pack(TAP_HEADER, Header(ev)) + Pack(TAP, TapPart(ev)[0 := n]) +
    (Pack(Item(ev.kind, ev.tapFlags), ItemPart(ev)) + (ev.engine + ev.key + SentValue(ev)))
  }

  lemma {:induction false} AnnouncingMembers(ev: Event, n: nat)
    requires Encodable(ev) && n < 0x1_0000
    ensures Size(TAP_HEADER) == HEADER_SIZE && Size(TAP) == TAP_SIZE
    ensures var p := Announcing(ev, n);
            && |p| == HEADER_SIZE + Header(ev)[6] && HEADER_SIZE + TAP_SIZE <= |p|
            && TapHeaderOf(p) == Header(ev) && TapPartOf(p) == TapPart(ev)[0 := n]
  {
    Sizes(ev.kind, ev.tapFlags);
    var item, rest := Pack(Item(ev.kind, ev.tapFlags), ItemPart(ev)), ev.engine + ev.key + SentValue(ev);
    UnpackBoth(TAP_HEADER, Header(ev), TAP, TapPart(ev)[0 := n], item + rest);
  }

  /**
   * Such a packet is complete, and admitted as long as `n` does not exceed its
   * body, but decodes only if `n` does not exceed engine data and value.
   */
  lemma {:induction false} AnnouncedEngineIsNotChecked(ev: Event, n: nat)
    requires Encodable(ev) && ev.ttl > 0 && n < 0x1_0000
    ensures Framed(Announcing(ev, n)) && HEADER_SIZE + TAP_SIZE <= |Announcing(ev, n)|
    ensures Accepts(Announcing(ev, n)) <==> n <= Header(ev)[6]
    ensures Accepts(Announcing(ev, n)) ==>
              (Decode(Announcing(ev, n)).OutsidePacket? <==> n > |ev.engine| + |SentValue(ev)|)
  {
    AnnouncingMembers(ev, n);
    TapBodyLengthAt8(Announcing(ev, n));
    BodyLengthAt8(Announcing(ev, n));
    OpcodeOf(ev);
    if n <= Header(ev)[6] {
      DecodesExactly(Announcing(ev, n), ev.kind);
    }
  }

  // ----- streams -----

  lemma TapOffsetsFit()
    ensures Offsets(TAP_HEADER, HEADER_OFFSETS, 0)
  {
    assert Offsets([U32, U32, U64], [8, 12, 16], 8);
    assert Offsets([U8, U8, U16, U32, U32, U64], [4, 5, 6, 8, 12, 16], 4);
  }

  lemma TapHeaderFits()
    ensures Size(TAP_HEADER) == HEADER_SIZE && Offsets(TAP_HEADER, HEADER_OFFSETS, 0)
  {
    Sizes(TapMutation, 0);
    TapOffsetsFit();
  }

  lemma TapHeaderMember(p: seq<byte>, i: nat)
    requires |p| >= HEADER_SIZE && i < 9
    ensures var field, at := TAP_HEADER[i], HEADER_OFFSETS[i];
            at + field.Width() <= |p| && TapHeaderOf(p)[i] == Get(field, p[at..at + field.Width()])
  {
    TapHeaderFits();
    MemberOfPacket(TAP_HEADER, HEADER_OFFSETS, p, i);
  }

  lemma {:induction false} TapBodyLengthAt8(p: seq<byte>)
    requires |p| >= HEADER_SIZE
    ensures TapHeaderOf(p)[6] == FromBigEndian(p[8..12])
  {
    TapHeaderMember(p, 6);
  }

  lemma {:induction false} EncodedIsFramed(ev: Event)
    requires Encodable(ev)
    ensures Framed(Encode(ev))
  {
    EncodedMembers(ev);
    TapBodyLengthAt8(Encode(ev));
    BodyLengthAt8(Encode(ev));
    EncodedSize(ev);
  }

  lemma EncodedSize(ev: Event)
    ensures |Encode(ev)| == HEADER_SIZE + Header(ev)[6]
  {
    Sizes(ev.kind, ev.tapFlags);
  }

  function Stream(evs: seq<Event>): seq<byte> {
    Join(Map(Encode, evs))
  }

  function Receive(p: seq<byte>): Option<seq<Received>> {
    var packets := Frames(p);
    if packets.None? then None else Some(Map(Decode, packets.value))
  }

  /** A shipment is received event by event. */
  lemma {:induction false} StreamRoundTrip(evs: seq<Event>)
    requires forall i :: 0 <= i < |evs| ==> Encodable(evs[i])
    ensures Receive(Stream(evs)) == Some(Map(Outcome, evs))
  {
    var packets := Map(Encode, evs);
    forall i | 0 <= i < |evs| ensures Framed(packets[i]) {
      EncodedIsFramed(evs[i]);
    }
    FramesOfJoin(packets);
    forall i | 0 <= i < |evs| ensures Decode(packets[i]) == Outcome(evs[i]) {
      RoundTrip(evs[i]);
    }
    assert Map(Decode, packets) == Map(Outcome, evs);
  }
}
