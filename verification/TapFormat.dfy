/** TAP events on the wire, byte by byte: which field is where. */
module TapFormat {
  import opened Basics
  import opened Wire
  import opened Tap

  /** The header, byte by byte: unlike in other requests the sequence number is in network order. */
  lemma TapHeaderBytes(p: seq<byte>)
    requires |p| >= HEADER_SIZE
    ensures TapHeaderOf(p) == [p[0], p[1], Net(p, 2, 4), p[4], p[5], Net(p, 6, 8), Net(p, 8, 12), Net(p, 12, 16),
                               Net(p, 16, 24)]
  {
    TapHeaderMember(p, 0);
    TapHeaderMember(p, 1);
    TapHeaderMember(p, 2);
    TapHeaderMember(p, 3);
    TapHeaderMember(p, 4);
    TapHeaderMember(p, 5);
    TapHeaderMember(p, 6);
    TapHeaderMember(p, 7);
    TapHeaderMember(p, 8);
    OneByte(p, 0);
    OneByte(p, 1);
    OneByte(p, 4);
    OneByte(p, 5);
  }

  const TAP_OFFSETS: seq<nat> := [24, 26, 28, 29, 30, 31]

  lemma TapPartFits()
    ensures Size(TAP) == TAP_SIZE && Offsets(TAP, TAP_OFFSETS, 24)
  {
    Sizes(TapMutation, 0);
    assert Offsets([U8, U8, U8], [29, 30, 31], 29);
    assert Offsets([U16, U8, U8, U8, U8], [26, 28, 29, 30, 31], 26);
  }

  lemma TapPartMember(p: seq<byte>, i: nat)
    requires |p| >= 32 && i < 6
    ensures var field, at := TAP[i], TAP_OFFSETS[i];
            at + field.Width() <= |p| && TapPartOf(p)[i] == Get(field, p[at..at + field.Width()])
  {
    TapPartFits();
    MemberAtOffset(TAP, TAP_OFFSETS, HEADER_SIZE, p, i);
  }

  /** The part that all TAP events have. */
  lemma TapPartBytes(p: seq<byte>)
    requires |p| >= 32
    ensures TapPartOf(p) == [Net(p, 24, 26), Net(p, 26, 28), p[28], p[29], p[30], p[31]]
  {
    TapPartMember(p, 0);
    TapPartMember(p, 1);
    TapPartMember(p, 2);
    TapPartMember(p, 3);
    TapPartMember(p, 4);
    TapPartMember(p, 5);
    OneByte(p, 28);
    OneByte(p, 29);
    OneByte(p, 30);
    OneByte(p, 31);
  }

  /** Item flags are in host order if bit 2 of the TAP flags says so. */
  function FlagsAt32(p: seq<byte>, tapFlags: nat): nat
    requires |p| >= 36
  {
    if tapFlags % 8 >= 4 then Host(p, 32, 36) else Net(p, 32, 36)
  }

  lemma ItemBytes(p: seq<byte>, kind: Kind, tapFlags: nat)
    requires |p| >= 40 && kind != TapDelete
    ensures Size(Item(kind, tapFlags)) == 8
    ensures Unpack(Item(kind, tapFlags), p[32..]) == [FlagsAt32(p, tapFlags), Net(p, 36, 40)]
  {
    var item := Item(kind, tapFlags);
    Sizes(kind, tapFlags);
    FlagBits(tapFlags);
    assert Offsets(item, [32, 36], 32);
    MemberAtOffset(item, [32, 36], 32, p, 0);
    MemberAtOffset(item, [32, 36], 32, p, 1);
  }

  /** Bit 1 of the TAP flags leaves the value out, bit 2 is about the order of the item flags. */
  lemma FlagBits(tapFlags: nat)
    ensures NoValue(tapFlags) <==> tapFlags % 4 >= 2
    ensures NetworkByteOrder(tapFlags) <==> tapFlags % 8 >= 4
  {
  }

  // ----- encoding -----

  function Code(kind: Kind): nat {
    match kind
    case TapMutation => 0x41
    case TapDelete => 0x42
    case TapCheckpointStart => 0x46
    case TapCheckpointEnd => 0x47
  }

  /** Where engine data, key and value begin. */
  function Start(kind: Kind): nat {
    if kind == TapDelete then 32 else 40
  }

  lemma EventHeader(ev: Event)
    requires Encodable(ev)
    ensures var p := Encode(ev);
            && |p| >= Start(ev.kind) && p[0] == 0x80 && p[1] == Code(ev.kind) && Net(p, 2, 4) == |ev.key|
            && p[4] == Start(ev.kind) - 24 && p[5] == (if ev.kind == TapDelete then 0 else ev.dataType)
            && Net(p, 6, 8) == ev.vbucket && Net(p, 8, 12) == |p| - 24
            && Net(p, 12, 16) == ev.seqno && Net(p, 16, 24) == ev.cas
  {
    EncodedMembers(ev);
    EncodedSize(ev);
    TapHeaderBytes(Encode(ev));
  }

  lemma EventParts(ev: Event)
    requires Encodable(ev)
    ensures var p := Encode(ev);
            && |p| >= Start(ev.kind) && Net(p, 24, 26) == |ev.engine| && Net(p, 26, 28) == ev.tapFlags
            && p[28] == ev.ttl && p[29] == p[30] == p[31] == 0
            && (ev.kind != TapDelete ==> FlagsAt32(p, ev.tapFlags) == ev.flags && Net(p, 36, 40) == ev.exptime)
            && p[Start(ev.kind)..] == ev.engine + ev.key + SentValue(ev)
  {
    EncodedMembers(ev);
    TapPartBytes(Encode(ev));
    if ev.kind != TapDelete {
      ItemBytes(Encode(ev), ev.kind, ev.tapFlags);
    }
  }

  /** A TAP event on the wire. */
  lemma EventOnTheWire(ev: Event)
    requires Encodable(ev)
    ensures var p := Encode(ev);
            && |p| >= Start(ev.kind) && p[0] == 0x80 && p[1] == Code(ev.kind) && Net(p, 2, 4) == |ev.key|
            && p[4] == Start(ev.kind) - 24 && p[5] == (if ev.kind == TapDelete then 0 else ev.dataType)
            && Net(p, 6, 8) == ev.vbucket && Net(p, 8, 12) == |p| - 24
            && Net(p, 12, 16) == ev.seqno && Net(p, 16, 24) == ev.cas
    ensures var p := Encode(ev);
            && Net(p, 24, 26) == |ev.engine| && Net(p, 26, 28) == ev.tapFlags && p[28] == ev.ttl
            && p[29] == p[30] == p[31] == 0
            && (ev.kind != TapDelete ==> FlagsAt32(p, ev.tapFlags) == ev.flags && Net(p, 36, 40) == ev.exptime)
    ensures Encode(ev)[Start(ev.kind)..] == ev.engine + ev.key + if ev.tapFlags % 4 >= 2 then [] else ev.value
  {
    EventHeader(ev);
    EventParts(ev);
    FlagBits(ev.tapFlags);
  }

  // ----- decoding -----

  /** What an executor tells its engine about a packet of this kind; `rest` is what lies behind its fixed parts. */
  function Told(p: seq<byte>, kind: Kind, rest: seq<byte>): Event
    requires Start(kind) <= |p| && Net(p, 24, 26) + Net(p, 2, 4) <= |rest| && p[28] > 0
  {
    var nengine, nkey := Net(p, 24, 26), Net(p, 2, 4);
    Event(kind, Net(p, 12, 16), Net(p, 6, 8), Net(p, 16, 24), p[5], rest[..nengine], Net(p, 26, 28), p[28] - 1,
          if kind == TapDelete then 0 else FlagsAt32(p, Net(p, 26, 28)),
          if kind == TapDelete then 0 else Net(p, 36, 40),
          rest[nengine..nengine + nkey], rest[nengine + nkey..])
  }

  lemma KindIs(p: seq<byte>, kind: Kind)
    requires |p| >= 32 && Code(kind) == p[1]
    ensures Decode(p) == DecodeAs(kind, p)
  {
    TapHeaderBytes(p);
  }

  /** What lies behind the TAP part: the members of the item, if any, and the bytes behind them. */
  lemma ItemAndRest(p: seq<byte>, kind: Kind, tapFlags: nat)
    requires Start(kind) <= |p|
    ensures p[32..][ItemSize(kind)..] == p[Start(kind)..] && Size(Item(kind, tapFlags)) == ItemSize(kind)
    ensures Unpack(Item(kind, tapFlags), p[32..]) ==
            if kind == TapDelete then [] else [FlagsAt32(p, tapFlags), Net(p, 36, 40)]
  {
    Sizes(kind, tapFlags);
    if kind != TapDelete {
      ItemBytes(p, kind, tapFlags);
    }
  }

  function HeaderAt(p: seq<byte>): (h: seq<nat>)
    requires |p| >= 24
    ensures |h| == |TAP_HEADER|
  {
    [p[0], p[1], Net(p, 2, 4), p[4], p[5], Net(p, 6, 8), Net(p, 8, 12), Net(p, 12, 16), Net(p, 16, 24)]
  }

  function PartAt(p: seq<byte>): (t: seq<nat>)
    requires |p| >= 32
    ensures |t| == |TAP|
  {
    [Net(p, 24, 26), Net(p, 26, 28), p[28], p[29], p[30], p[31]]
  }

  function ItemAt(p: seq<byte>, kind: Kind): (i: seq<nat>)
    requires |p| >= Start(kind)
    ensures forall tapFlags :: |i| == |Item(kind, tapFlags)|
  {
    if kind == TapDelete then [] else [FlagsAt32(p, Net(p, 26, 28)), Net(p, 36, 40)]
  }

  lemma DecodeParses(p: seq<byte>, kind: Kind)
    requires Start(kind) <= |p| && Code(kind) == p[1] && p[28] > 0
    ensures Decode(p) == Parse(kind, HeaderAt(p), PartAt(p), ItemAt(p, kind), p[Start(kind)..])
  {
    KindIs(p, kind);
    TapHeaderBytes(p);
    TapPartBytes(p);
    ItemAndRest(p, kind, Net(p, 26, 28));
  }

  lemma DataLengthIs(n: nat, nengine: nat, nkey: nat, size: nat)
    requires 8 + size + nengine + nkey <= n < 0x1_0000_0000
    ensures Minus32(Minus32(Minus32(Minus32(n, nengine), nkey), 8), size) == n - 8 - size - nengine - nkey
  {
    Minus32Exact(n, nengine);
    Minus32Exact(n - nengine, nkey);
    Minus32Exact(n - nengine - nkey, 8);
    Minus32Exact(n - nengine - nkey - 8, size);
  }

  lemma ParsedFields(kind: Kind, h: seq<nat>, t: seq<nat>, i: seq<nat>, rest: seq<byte>)
    requires |h| == |TAP_HEADER| && |t| == |TAP| && |i| == |Item(kind, t[1])| && t[2] > 0
    requires h[6] < 0x1_0000_0000 && |rest| + 8 + ItemSize(kind) == h[6] && t[0] + h[2] <= |rest|
    ensures Parse(kind, h, t, i, rest) ==
            Notify(Event(kind, h[7], h[5], h[8], h[4], rest[..t[0]], t[1], t[2] - 1,
                         if kind == TapDelete then 0 else i[0], if kind == TapDelete then 0 else i[1],
                         rest[t[0]..t[0] + h[2]], rest[t[0] + h[2]..]))
  {
    DataLengthIs(h[6], t[0], h[2], ItemSize(kind));
    assert rest[t[0] + h[2]..] == rest[t[0] + h[2]..|rest|];
  }

  lemma ParsedAt(p: seq<byte>, kind: Kind, rest: seq<byte>)
    requires Start(kind) <= |p| && |rest| == |p| - Start(kind) && |p| == 24 + Net(p, 8, 12) && p[28] > 0
    requires Net(p, 24, 26) + Net(p, 2, 4) <= |rest| && Net(p, 8, 12) < 0x1_0000_0000
    ensures Parse(kind, HeaderAt(p), PartAt(p), ItemAt(p, kind), rest) == Notify(Told(p, kind, rest))
  {
    ParsedFields(kind, HeaderAt(p), PartAt(p), ItemAt(p, kind), rest);
  }

  /** A complete packet in which engine data and key fit is delivered as its bytes say. */
  lemma DecodedFields(p: seq<byte>, kind: Kind, rest: seq<byte>)
    requires Start(kind) <= |p| && rest == p[Start(kind)..] && |p| == 24 + Net(p, 8, 12)
    requires Code(kind) == p[1] && p[28] > 0
    requires Net(p, 24, 26) + Net(p, 2, 4) <= |rest|
    ensures Decode(p) == Notify(Told(p, kind, rest))
  {
    DecodeParses(p, kind);
    FieldRoundTrip(U32, 0, p[8..12]);
    ParsedAt(p, kind, rest);
  }

  /** A packet without hops left, or of another kind, is not delivered. */
  lemma NotDelivered(p: seq<byte>)
    requires |p| >= 32
    ensures p[1] !in {0x41, 0x42, 0x46, 0x47} ==> Decode(p) == OtherOpcode
    ensures p[1] in {0x41, 0x42, 0x46, 0x47} && p[28] == 0 ==> Decode(p) == Einval
  {
    TapHeaderBytes(p);
    TapPartBytes(p);
  }

  /** What the validator lets through. */
  lemma AcceptsExactly(p: seq<byte>)
    requires |p| >= 32
    ensures Accepts(p) <==> Net(p, 8, 12) >= 8 && Net(p, 24, 26) <= Net(p, 8, 12)
  {
    TapHeaderBytes(p);
    TapPartBytes(p);
  }
}
