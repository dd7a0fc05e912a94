/**
 * Packet layouts: a packet starts with fixed-width integers laid out one after
 * the other, as the packed structures of the binary protocol are.
 */
module Wire {
  import opened Basics

  /** An integer in network order, or a 32-bit one kept as the little-endian host holds it. */
  datatype Field = U8 | U16 | U32 | U64 | Raw32 {
    function Width(): nat {
      match this
      case U8 => 1
      case U16 => 2
      case U32 => 4
      case U64 => 8
      case Raw32 => 4
    }

    function Limit(): nat {
      match this
      case U8 => 0x100
      case U16 => 0x1_0000
      case U32 => 0x1_0000_0000
      case U64 => 0x1_0000_0000_0000_0000
      case Raw32 => 0x1_0000_0000
    }
  }

  function BigEndian(x: nat, w: nat): (bs: seq<byte>)
    ensures |bs| == w
  {
    if w == 0 then [] else BigEndian(x / 256, w - 1) + [x % 256]
  }

  function LittleEndian(x: nat, w: nat): (bs: seq<byte>)
    ensures |bs| == w
  {
    if w == 0 then [] else [x % 256] + LittleEndian(x / 256, w - 1)
  }

  function FromBigEndian(bs: seq<byte>): nat {
    if bs == [] then 0 else FromBigEndian(bs[..|bs| - 1]) * 256 + bs[|bs| - 1]
  }

  function FromLittleEndian(bs: seq<byte>): nat {
    if bs == [] then 0 else bs[0] + FromLittleEndian(bs[1..]) * 256
  }

  function Power(w: nat): nat {
    if w == 0 then 1 else 256 * Power(w - 1)
  }

  lemma {:induction false} BigEndianRoundTrip(x: nat, w: nat)
    requires x < Power(w)
    ensures FromBigEndian(BigEndian(x, w)) == x
  {
    if w > 0 {
      BigEndianRoundTrip(x / 256, w - 1);
    }
  }

  lemma {:induction false} LittleEndianRoundTrip(x: nat, w: nat)
    requires x < Power(w)
    ensures FromLittleEndian(LittleEndian(x, w)) == x
  {
    if w > 0 {
      LittleEndianRoundTrip(x / 256, w - 1);
      assert LittleEndian(x, w)[1..] == LittleEndian(x / 256, w - 1);
    }
  }

  lemma LowByte(b: byte, x: nat)
    ensures (b + x * 256) % 256 == b && (b + x * 256) / 256 == x
  {
  }

  lemma {:induction false} BigEndianInverse(bs: seq<byte>)
    ensures FromBigEndian(bs) < Power(|bs|) && BigEndian(FromBigEndian(bs), |bs|) == bs
  {
    if bs != [] {
      BigEndianInverse(bs[..|bs| - 1]);
      LowByte(bs[|bs| - 1], FromBigEndian(bs[..|bs| - 1]));
    }
  }

  lemma {:induction false} LittleEndianInverse(bs: seq<byte>)
    ensures FromLittleEndian(bs) < Power(|bs|) && LittleEndian(FromLittleEndian(bs), |bs|) == bs
  {
    if bs != [] {
      LittleEndianInverse(bs[1..]);
      LowByte(bs[0], FromLittleEndian(bs[1..]));
    }
  }

  function Put(f: Field, x: nat): (bs: seq<byte>)
    ensures |bs| == f.Width()
  {
    if f == Raw32 then LittleEndian(x, 4) else BigEndian(x, f.Width())
  }

  function Get(f: Field, bs: seq<byte>): nat {
    if f == Raw32 then FromLittleEndian(bs) else FromBigEndian(bs)
  }

  lemma LimitIsPower(f: Field)
    ensures f.Limit() == Power(f.Width())
  {
    assert Power(2) == 0x1_0000 && Power(4) == 0x1_0000_0000;
    assert Power(8) == 256 * (256 * (256 * (256 * Power(4))));
  }

  /** Numbers written into a field are read back from it, and the other way round. */
  lemma {:induction false} FieldRoundTrip(f: Field, x: nat, bs: seq<byte>)
    ensures x < f.Limit() ==> Get(f, Put(f, x)) == x
    ensures |bs| == f.Width() ==> Get(f, bs) < f.Limit() && Put(f, Get(f, bs)) == bs
  {
    LimitIsPower(f);
    if x < f.Limit() {
      BigEndianRoundTrip(x, f.Width());
      LittleEndianRoundTrip(x, f.Width());
    }
    BigEndianInverse(bs);
    LittleEndianInverse(bs);
  }

  lemma Shifted(h: nat, l: nat, n: nat, b: nat)
    ensures (h * n + l) * 256 + b == h * (256 * n) + (l * 256 + b)
  {
  }

  /** In network order the first bytes weigh most. */
  lemma {:induction false} NetworkOrder(hi: seq<byte>, lo: seq<byte>)
    ensures FromBigEndian(hi + lo) == FromBigEndian(hi) * Power(|lo|) + FromBigEndian(lo)
  {
    if lo == [] {
      assert hi + lo == hi;
    } else {
      var front := lo[..|lo| - 1];
      assert (hi + lo)[..|hi + lo| - 1] == hi + front;
      NetworkOrder(hi, front);
      Shifted(FromBigEndian(hi), FromBigEndian(front), Power(|front|), lo[|lo| - 1]);
    }
  }

  /** How the bytes of a field make up its number. */
  lemma NumberOfBytes(a: byte, b: byte, c: byte, d: byte)
    ensures Get(U8, [a]) == a && Get(U16, [a, b]) == a * 0x100 + b
    ensures Get(U32, [a, b, c, d]) == a * 0x100_0000 + b * 0x1_0000 + c * 0x100 + d
    ensures Get(Raw32, [a, b, c, d]) == d * 0x100_0000 + c * 0x1_0000 + b * 0x100 + a
  {
    assert FromBigEndian([a]) == a;
    assert FromBigEndian([a, b]) == a * 0x100 + b by {
      assert [a, b][..1] == [a];
    }
    assert FromBigEndian([a, b, c]) == a * 0x1_0000 + b * 0x100 + c by {
      assert [a, b, c][..2] == [a, b];
    }
    assert [a, b, c, d][..3] == [a, b, c];
    assert FromLittleEndian([d]) == d;
    assert FromLittleEndian([c, d]) == c + d * 0x100 by {
      assert [c, d][1..] == [d];
    }
    assert FromLittleEndian([b, c, d]) == b + c * 0x100 + d * 0x1_0000 by {
      assert [b, c, d][1..] == [c, d];
    }
    assert [a, b, c, d][1..] == [b, c, d];
  }

  /** A 64-bit number is made up of two 32-bit ones, the first of which weighs more. */
  lemma LongNumber(hi: seq<byte>, lo: seq<byte>)
    requires |hi| == 4 && |lo| == 4
    ensures Get(U64, hi + lo) == Get(U32, hi) * 0x1_0000_0000 + Get(U32, lo)
  {
    NetworkOrder(hi, lo);
    LimitIsPower(U32);
  }

  function Size(layout: seq<Field>): nat {
    if layout == [] then 0 else layout[0].Width() + Size(layout[1..])
  }

  predicate Fits(layout: seq<Field>, values: seq<nat>) {
    |values| == |layout| && forall i :: 0 <= i < |layout| ==> values[i] < layout[i].Limit()
  }

  function Pack(layout: seq<Field>, values: seq<nat>): (bs: seq<byte>)
    requires |values| == |layout|
    ensures |bs| == Size(layout)
    decreases |values|
  {
    if layout == [] then [] else Put(layout[0], values[0]) + Pack(layout[1..], values[1..])
  }

  /** Lays the structure over the bytes and reads its members. */
  function Unpack(layout: seq<Field>, bs: seq<byte>): (values: seq<nat>)
    requires |bs| >= Size(layout)
    ensures |values| == |layout|
    decreases |bs|
  {
    if layout == [] then []
    else var w := layout[0].Width(); [Get(layout[0], bs[..w])] + Unpack(layout[1..], bs[w..])
  }

  /** Whatever follows the structure, its members are read back. */
  lemma {:induction false} UnpackPack(layout: seq<Field>, values: seq<nat>, rest: seq<byte>)
    requires Fits(layout, values)
    ensures Unpack(layout, Pack(layout, values) + rest) == values
  {
    if layout != [] {
      var a, b := Put(layout[0], values[0]), Pack(layout[1..], values[1..]);
      FieldRoundTrip(layout[0], values[0], []);
      UnpackPack(layout[1..], values[1..], rest);
      assert a + b + rest == a + (b + rest);
      SplitOfConcat(a, b + rest);
    }
  }

  lemma {:induction false} UnpackFits(layout: seq<Field>, bs: seq<byte>)
    requires |bs| >= Size(layout)
    ensures Fits(layout, Unpack(layout, bs))
  {
    if layout != [] {
      var w := layout[0].Width();
      FieldRoundTrip(layout[0], 0, bs[..w]);
      UnpackFits(layout[1..], bs[w..]);
    }
  }

  /** Writing back the members that were read gives the same bytes. */
  lemma {:induction false} PackUnpack(layout: seq<Field>, bs: seq<byte>)
    requires |bs| >= Size(layout)
    ensures Pack(layout, Unpack(layout, bs)) == bs[..Size(layout)]
  {
    if layout != [] {
      var w := layout[0].Width();
      var tail := Unpack(layout[1..], bs[w..]);
      FieldRoundTrip(layout[0], 0, bs[..w]);
      PackUnpack(layout[1..], bs[w..]);
      SplitOfConcat([Get(layout[0], bs[..w])], tail);
      TakeInParts(bs, w, Size(layout[1..]));
    }
  }

  lemma {:induction false} UnpackSecond(a: seq<byte>, layout: seq<Field>, values: seq<nat>, rest: seq<byte>)
    requires Fits(layout, values)
    ensures Unpack(layout, (a + (Pack(layout, values) + rest))[|a|..]) == values
  {
    UnpackPack(layout, values, rest);
    SplitOfConcat(a, Pack(layout, values) + rest);
  }

  /** Two structures and a tail, one behind the other. */
  lemma {:induction false} UnpackBoth(l1: seq<Field>, v1: seq<nat>, l2: seq<Field>, v2: seq<nat>, rest: seq<byte>)
    requires Fits(l1, v1) && Fits(l2, v2)
    ensures var p := Pack(l1, v1) + Pack(l2, v2) + rest;
            && |p| == Size(l1) + Size(l2) + |rest|
            && Unpack(l1, p) == v1 && Unpack(l2, p[Size(l1)..]) == v2 && p[Size(l1) + Size(l2)..] == rest
  {
    var a, b := Pack(l1, v1), Pack(l2, v2);
    UnpackPack(l1, v1, b + rest);
    UnpackSecond(a, l2, v2, rest);
    SplitOfConcat(a + b, rest);
    ConcatAssociates(a, b, rest);
  }

  lemma {:induction false} PackBoth(l1: seq<Field>, l2: seq<Field>, p: seq<byte>)
    requires |p| >= Size(l1) + Size(l2)
    ensures Fits(l1, Unpack(l1, p)) && Fits(l2, Unpack(l2, p[Size(l1)..]))
    ensures Pack(l1, Unpack(l1, p)) + Pack(l2, Unpack(l2, p[Size(l1)..])) + p[Size(l1) + Size(l2)..] == p
  {
    UnpackFits(l1, p);
    UnpackFits(l2, p[Size(l1)..]);
    PackUnpack(l1, p);
    PackUnpack(l2, p[Size(l1)..]);
    WholeInParts(p, Size(l1), Size(l2));
  }

  /** Subtraction of 32-bit unsigned numbers. */
  function Minus32(a: int, b: int): nat {
    (a - b) % 0x1_0000_0000
  }

  lemma Minus32Exact(a: int, b: int)
    requires 0 <= a - b < 0x1_0000_0000
    ensures Minus32(a, b) == a - b
  {
  }

  /** A difference below zero wraps around, as it does in 32 bits. */
  lemma Minus32Wraps(a: int, b: int)
    requires 0 <= a < b <= 0xffff_ffff
    ensures Minus32(a, b) == a + 0xffff_ffff - b + 1
  {
  }

  /** From `base` on, each member starts where the one before it ends. */
  predicate Offsets(layout: seq<Field>, offsets: seq<nat>, base: nat) {
    && |offsets| == |layout|
    && (layout != [] ==> offsets[0] == base && Offsets(layout[1..], offsets[1..], base + layout[0].Width()))
  }

  /** The number in the field that begins at a position. */
  function ReadAt(f: Field, p: seq<byte>, at: nat): nat
    requires at + f.Width() <= |p|
  {
    Get(f, p[at..at + f.Width()])
  }

  lemma ReadBehind(f: Field, p: seq<byte>, base: nat, at: nat)
    requires base <= at && at + f.Width() <= |p|
    ensures ReadAt(f, p[base..], at - base) == ReadAt(f, p, at)
  {
    SliceOfDrop(p, base, at, at + f.Width());
  }

  lemma {:induction false} MemberBehind(layout: seq<Field>, offsets: seq<nat>, base: nat, bs: seq<byte>, i: nat)
    requires |bs| >= Size(layout) && i < |layout| && Offsets(layout, offsets, base)
    ensures base <= offsets[i] && offsets[i] - base + layout[i].Width() <= |bs|
    ensures Unpack(layout, bs)[i] == ReadAt(layout[i], bs, offsets[i] - base)
  {
    UnpackStep(layout, bs, i);
    if i > 0 {
      var w := layout[0].Width();
      MemberBehind(layout[1..], offsets[1..], base + w, bs[w..], i - 1);
      ReadBehind(layout[i], bs, w, offsets[i] - base);
    }
  }

  /** Members are read at their offsets. */
  lemma MemberAtOffset(layout: seq<Field>, offsets: seq<nat>, base: nat, p: seq<byte>, i: nat)
    requires |p| >= base + Size(layout) && i < |layout| && Offsets(layout, offsets, base)
    ensures offsets[i] + layout[i].Width() <= |p| && Unpack(layout, p[base..])[i] == ReadAt(layout[i], p, offsets[i])
  {
    MemberBehind(layout, offsets, base, p[base..], i);
    ReadBehind(layout[i], p, base, offsets[i]);
  }

  lemma MemberOfPacket(layout: seq<Field>, offsets: seq<nat>, p: seq<byte>, i: nat)
    requires |p| >= Size(layout) && i < |layout| && Offsets(layout, offsets, 0)
    ensures offsets[i] + layout[i].Width() <= |p| && Unpack(layout, p)[i] == ReadAt(layout[i], p, offsets[i])
  {
    assert p[0..] == p;
    MemberAtOffset(layout, offsets, 0, p, i);
  }

  lemma UnpackStep(layout: seq<Field>, bs: seq<byte>, i: nat)
    requires |bs| >= Size(layout) && i < |layout|
    ensures var w := layout[0].Width();
            Unpack(layout, bs)[i] == if i == 0 then Get(layout[0], bs[..w]) else Unpack(layout[1..], bs[w..])[i - 1]
  {
  }

  // ----- packets -----

  const HEADER_SIZE: nat := 24

  /** magic, opcode, key length, extras length, datatype, vbucket or status, body length, opaque, cas */
  const HEADER := [U8, U8, U16, U8, U8, U16, U32, Raw32, U64]

  lemma HeaderSize()
    ensures Size(HEADER) == HEADER_SIZE
  {
  }

  function HeaderOf(p: seq<byte>): (h: seq<nat>)
    requires |p| >= HEADER_SIZE
    ensures |h| == |HEADER|
  {
    HeaderSize();
    Unpack(HEADER, p)
  }

  /** Where the members of a header are. */
  const HEADER_OFFSETS: seq<nat> := [0, 1, 2, 4, 5, 6, 8, 12, 16]

  lemma HeaderOffsetsFit()
    ensures Offsets(HEADER, HEADER_OFFSETS, 0)
  {
    assert Offsets([U32, Raw32, U64], [8, 12, 16], 8);
    assert Offsets([U8, U8, U16, U32, Raw32, U64], [4, 5, 6, 8, 12, 16], 4);
  }

  lemma {:induction false} HeaderMember(p: seq<byte>, i: nat)
    requires |p| >= HEADER_SIZE && i < |HEADER|
    ensures HEADER_OFFSETS[i] + HEADER[i].Width() <= |p|
    ensures HeaderOf(p)[i] == Get(HEADER[i], p[HEADER_OFFSETS[i]..HEADER_OFFSETS[i] + HEADER[i].Width()])
  {
    HeaderSize();
    HeaderOffsetsFit();
    assert p[0..] == p;
    MemberAtOffset(HEADER, HEADER_OFFSETS, 0, p, i);
  }

  /** The number in network order in a range of bytes. */
  function Net(p: seq<byte>, from: nat, to: nat): nat
    requires from <= to <= |p|
  {
    FromBigEndian(p[from..to])
  }

  /** The number in host order in a range of bytes. */
  function Host(p: seq<byte>, from: nat, to: nat): nat
    requires from <= to <= |p|
  {
    FromLittleEndian(p[from..to])
  }

  lemma OneByte(p: seq<byte>, i: nat)
    requires i < |p|
    ensures Net(p, i, i + 1) == p[i]
  {
    assert p[i..i + 1] == [p[i]];
    NumberOfBytes(p[i], 0, 0, 0);
  }

  /** The header, byte by byte. */
  lemma HeaderBytes(p: seq<byte>)
    requires |p| >= HEADER_SIZE
    ensures HeaderOf(p) == [p[0], p[1], Net(p, 2, 4), p[4], p[5], Net(p, 6, 8), Net(p, 8, 12), Host(p, 12, 16),
                            Net(p, 16, 24)]
  {
    HeaderMember(p, 0);
    HeaderMember(p, 1);
    HeaderMember(p, 2);
    HeaderMember(p, 3);
    HeaderMember(p, 4);
    HeaderMember(p, 5);
    HeaderMember(p, 6);
    HeaderMember(p, 7);
    HeaderMember(p, 8);
    OneByte(p, 0);
    OneByte(p, 1);
    OneByte(p, 4);
    OneByte(p, 5);
  }

  lemma BodyLengthAt8(p: seq<byte>)
    requires |p| >= HEADER_SIZE
    ensures HeaderOf(p)[6] == FromBigEndian(p[8..12])
  {
    HeaderMember(p, 6);
  }

  /** The packet is as long as its header says. */
  predicate Framed(p: seq<byte>) {
    |p| >= HEADER_SIZE && |p| == HEADER_SIZE + HeaderOf(p)[6]
  }

  /** Cuts the input into packets by the body length in each header. */
  function Frames(p: seq<byte>): Option<seq<seq<byte>>>
    decreases |p|
  {
    if p == [] then Some([])
    else if |p| < HEADER_SIZE then None
    else
      var n := HEADER_SIZE + HeaderOf(p)[6];
      if |p| < n then None
      else
        var others := Frames(p[n..]);
        if others.None? then None else Some([p[..n]] + others.value)
  }

  lemma {:induction false} UnpackPrefix(layout: seq<Field>, p: seq<byte>, rest: seq<byte>)
    requires |p| >= Size(layout)
    ensures Unpack(layout, p + rest) == Unpack(layout, p)
  {
    if layout != [] {
      var w := layout[0].Width();
      UnpackPrefix(layout[1..], p[w..], rest);
      assert (p + rest)[..w] == p[..w] && (p + rest)[w..] == p[w..] + rest;
    }
  }

  lemma {:induction false} FirstFrame(p: seq<byte>, rest: seq<byte>, others: seq<seq<byte>>)
    requires Framed(p) && Frames(rest) == Some(others)
    ensures Frames(p + rest) == Some([p] + others)
  {
    HeaderSize();
    UnpackPrefix(HEADER, p, rest);
    SplitOfConcat(p, rest);
  }

  /** Packets that are as long as they say are told apart wherever they are put one behind the other. */
  lemma {:induction false} FramesOfJoin(ps: seq<seq<byte>>)
    requires forall i :: 0 <= i < |ps| ==> Framed(ps[i])
    ensures Frames(Join(ps)) == Some(ps)
  {
    if ps != [] {
      FramesOfJoin(ps[1..]);
      FirstFrame(ps[0], Join(ps[1..]), ps[1..]);
      assert [ps[0]] + ps[1..] == ps;
    }
  }
}
