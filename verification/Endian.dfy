/**
 * framework/net/include/Endian.hpp and the integers of framework/net/src/Buffer.cpp:
 * two's-complement values in host memory, swapped to network order and back, on a
 * host of either byte order.  Network order is most significant octet first
 * (Appendix B of RFC 791).
 */
module Endian {
  import opened Common

  type byte = x: int | 0 <= x < 256

  datatype Width = W8 | W16 | W32 | W64

  function Size(w: Width): nat {
    match w
    case W8 => 1
    case W16 => 2
    case W32 => 4
    case W64 => 8
  }

  function Pow256(n: nat): (p: nat)
    ensures p >= 1
  {
    if n == 0 then 1 else 256 * Pow256(n - 1)
  }

  // ---- Bytes of an unsigned number --------------------------------------------

  function LittleBytes(v: nat, n: nat): (bs: seq<byte>)
    ensures |bs| == n
  {
    if n == 0 then [] else [v % 256] + LittleBytes(v / 256, n - 1)
  }

  function FromLittle(bs: seq<byte>): nat {
    if bs == [] then 0 else bs[0] + 256 * FromLittle(bs[1..])
  }

  /** Most significant byte first. */
  function BigBytes(v: nat, n: nat): (bs: seq<byte>)
    ensures |bs| == n
  {
    if n == 0 then [] else BigBytes(v / 256, n - 1) + [v % 256]
  }

  function FromBig(bs: seq<byte>): nat {
    if bs == [] then 0 else 256 * FromBig(bs[..|bs| - 1]) + bs[|bs| - 1]
  }

  lemma {:induction false} LittleRoundTrip(v: nat, n: nat)
    requires v < Pow256(n)
    ensures FromLittle(LittleBytes(v, n)) == v
  {
    if n > 0 {
      LittleRoundTrip(v / 256, n - 1);
      assert LittleBytes(v, n)[1..] == LittleBytes(v / 256, n - 1);
    }
  }

  lemma {:induction false} LittleOfBytes(bs: seq<byte>)
    ensures FromLittle(bs) < Pow256(|bs|)
    ensures LittleBytes(FromLittle(bs), |bs|) == bs
  {
    if bs != [] {
      LittleOfBytes(bs[1..]);
      var v := FromLittle(bs);
      assert v / 256 == FromLittle(bs[1..]) && v % 256 == bs[0];
    }
  }

  lemma {:induction false} BigRoundTrip(v: nat, n: nat)
    requires v < Pow256(n)
    ensures FromBig(BigBytes(v, n)) == v
  {
    if n > 0 {
      BigRoundTrip(v / 256, n - 1);
      assert BigBytes(v, n)[..n - 1] == BigBytes(v / 256, n - 1);
    }
  }

  lemma {:induction false} BigIsReversedLittle(v: nat, n: nat)
    ensures Reverse(LittleBytes(v, n)) == BigBytes(v, n)
  {
    if n > 0 {
      BigIsReversedLittle(v / 256, n - 1);
      assert LittleBytes(v, n)[1..] == LittleBytes(v / 256, n - 1);
    }
  }

  // ---- Host memory and byte swapping ------------------------------------------

  datatype Host = LittleHost | BigHost

  /** The object representation of an unsigned integer of `n` bytes. */
  function InMemory(h: Host, v: nat, n: nat): (bs: seq<byte>)
    ensures |bs| == n
  {
    if h == LittleHost then LittleBytes(v, n) else BigBytes(v, n)
  }

  function FromMemory(h: Host, bs: seq<byte>): nat {
    if h == LittleHost then FromLittle(bs) else FromBig(bs)
  }

  function Swapped(v: nat, n: nat): nat {
    FromLittle(Reverse(LittleBytes(v, n)))
  }

  /** htobe16, htobe32, htobe64. */
  function HostToNetwork(h: Host, v: nat, n: nat): nat {
    if h == BigHost then v else Swapped(v, n)
  }

  /** be16toh, be32toh, be64toh. */
  function NetworkToHost(h: Host, v: nat, n: nat): nat {
    if h == BigHost then v else Swapped(v, n)
  }

  /** On either host the swapped value lies in memory in network order. */
  lemma NetworkOrder(h: Host, v: nat, n: nat)
    ensures InMemory(h, HostToNetwork(h, v, n), n) == BigBytes(v, n)
  {
    BigIsReversedLittle(v, n);
    LittleOfBytes(Reverse(LittleBytes(v, n)));
  }

  /** And loading network bytes and swapping them gives the value back. */
  lemma NetworkLoad(h: Host, v: nat, n: nat)
    requires v < Pow256(n)
    ensures NetworkToHost(h, FromMemory(h, BigBytes(v, n)), n) == v
  {
    if h == BigHost {
      BigRoundTrip(v, n);
    } else {
      BigIsReversedLittle(v, n);
      LittleOfBytes(BigBytes(v, n));
      ReverseTwice(LittleBytes(v, n));
      LittleRoundTrip(v, n);
    }
  }

  // ---- Two's complement -------------------------------------------------------

  predicate Fits(num: int, w: Width) {
    -(Pow256(Size(w)) as int) <= 2 * num < Pow256(Size(w))
  }

  function ToUnsigned(num: int, w: Width): (u: nat)
    requires Fits(num, w)
    ensures u < Pow256(Size(w))
  {
    if num < 0 then num + Pow256(Size(w)) else num
  }

  function ToSigned(u: nat, w: Width): int {
    if 2 * u >= Pow256(Size(w)) then u - Pow256(Size(w)) else u
  }

  lemma WidthBounds(num: int)
    ensures Fits(num, W8) <==> -0x80 <= num < 0x80
    ensures Fits(num, W16) <==> -0x8000 <= num < 0x8000
    ensures Fits(num, W32) <==> -0x8000_0000 <= num < 0x8000_0000
    ensures Fits(num, W64) <==> -0x8000_0000_0000_0000 <= num < 0x8000_0000_0000_0000
  {
    assert Pow256(1) == 256 && Pow256(2) == 0x1_0000 && Pow256(3) == 0x100_0000 && Pow256(4) == 0x1_0000_0000;
    assert Pow256(5) == 0x100_0000_0000 && Pow256(6) == 0x1_0000_0000_0000;
    assert Pow256(7) == 0x100_0000_0000_0000 && Pow256(8) == 0x1_0000_0000_0000_0000;
  }

  /** The bytes AppendInt and PrependInt hand over: no swap for a single byte. */
  function Stored(h: Host, num: int, w: Width): (bs: seq<byte>)
    requires Fits(num, w)
    ensures |bs| == Size(w)
  {
    var u := ToUnsigned(num, w);
    InMemory(h, if w == W8 then u else HostToNetwork(h, u, Size(w)), Size(w))
  }

  /** The value PeekInt makes of the first bytes. */
  function Loaded(h: Host, bs: seq<byte>, w: Width): int
    requires |bs| == Size(w)
  {
    var u := FromMemory(h, bs);
    ToSigned(if w == W8 then u else NetworkToHost(h, u, Size(w)), w)
  }

  /** The wire format, whatever the host. */
  function Wire(num: int, w: Width): (bs: seq<byte>)
    requires Fits(num, w)
    ensures |bs| == Size(w)
  {
    BigBytes(ToUnsigned(num, w), Size(w))
  }

  lemma StoredIsWire(h: Host, num: int, w: Width)
    requires Fits(num, w)
    ensures Stored(h, num, w) == Wire(num, w)
  {
    var u := ToUnsigned(num, w);
    if w == W8 {
      OneByte(u);
    } else {
      NetworkOrder(h, u, Size(w));
    }
  }

  lemma LoadedFromWire(h: Host, num: int, w: Width)
    requires Fits(num, w)
    ensures Loaded(h, Wire(num, w), w) == num
  {
    var u := ToUnsigned(num, w);
    if w == W8 {
      OneByte(u);
    } else {
      NetworkLoad(h, u, Size(w));
    }
  }

  lemma OneByte(u: nat)
    requires u < Pow256(1)
    ensures LittleBytes(u, 1) == [u] == BigBytes(u, 1)
    ensures FromLittle([u]) == u == FromBig([u])
  {
    assert Pow256(1) == 256;
    assert LittleBytes(u / 256, 0) == [] && BigBytes(u / 256, 0) == [];
    assert FromBig([u][..0]) == 0 && FromLittle([u][1..]) == 0;
  }

  // ---- A stream of integers ---------------------------------------------------

  datatype RawItem = Item(num: int, w: Width)

  /** A value of one of the types int8_t, int16_t, int32_t, int64_t. */
  type Item = i: RawItem | Fits(i.num, i.w) witness RawItem.Item(0, W8)

  datatype IntOp = Write(item: Item) | Read

  /** The readable bytes, the items written so far, and the values read so far. */
  datatype Stream = Stream(bytes: seq<byte>, written: seq<Item>, got: seq<int>)

  /** A reader asks for the width of the oldest item it has not read. */
  function StreamStep(h: Host, s: Stream, op: IntOp): Stream {
    match op
    case Write(item) => s.(bytes := s.bytes + Stored(h, item.num, item.w), written := s.written + [item])
    case Read =>
      if |s.got| >= |s.written| then s
      else
        var w := s.written[|s.got|].w;
        if |s.bytes| < Size(w) then s
        else s.(bytes := s.bytes[Size(w)..], got := s.got + [Loaded(h, s.bytes[..Size(w)], w)])
  }

  function StreamRun(h: Host, s: Stream, ops: seq<IntOp>): Stream
    decreases ops
  {
    if ops == [] then s else StreamRun(h, StreamStep(h, s, ops[0]), ops[1..])
  }

  function Encoded(items: seq<Item>): seq<byte> {
    if items == [] then [] else Wire(items[0].num, items[0].w) + Encoded(items[1..])
  }

  /** The values read are the oldest values written, and the bytes left are the wire form of the rest. */
  ghost predicate InOrder(s: Stream) {
    && |s.got| <= |s.written|
    && (forall k :: 0 <= k < |s.got| ==> s.got[k] == s.written[k].num)
    && s.bytes == Encoded(s.written[|s.got|..])
  }

  lemma {:induction false} EncodedSnoc(items: seq<Item>, item: Item)
    ensures Encoded(items + [item]) == Encoded(items) + Wire(item.num, item.w)
  {
    var c := Wire(item.num, item.w);
    if items == [] {
      assert Encoded([item]) == c + Encoded([]);
      assert items + [item] == [item];
    } else {
      EncodedSnoc(items[1..], item);
      assert (items + [item])[1..] == items[1..] + [item];
      assert Wire(items[0].num, items[0].w) + (Encoded(items[1..]) + c) ==
             (Wire(items[0].num, items[0].w) + Encoded(items[1..])) + c;
    }
  }

  lemma WriteKeeps(h: Host, s: Stream, item: Item)
    requires InOrder(s)
    ensures InOrder(StreamStep(h, s, Write(item)))
  {
    StoredIsWire(h, item.num, item.w);
    EncodedSnoc(s.written[|s.got|..], item);
    assert (s.written + [item])[|s.got|..] == s.written[|s.got|..] + [item];
  }

  lemma ReadKeeps(h: Host, s: Stream)
    requires InOrder(s)
    ensures InOrder(StreamStep(h, s, Read))
    ensures |s.got| < |s.written| ==> |StreamStep(h, s, Read).got| == |s.got| + 1
  {
    if |s.got| < |s.written| {
      var rest := s.written[|s.got|..];
      var first := rest[0];
      var wire := Wire(first.num, first.w);
      assert s.bytes == wire + Encoded(rest[1..]);
      assert s.bytes[..|wire|] == wire && s.bytes[|wire|..] == Encoded(rest[1..]);
      assert rest[1..] == s.written[|s.got| + 1..];
      LoadedFromWire(h, first.num, first.w);
    }
  }

  lemma StreamKeeps(h: Host, s: Stream, op: IntOp)
    requires InOrder(s)
    ensures var t := StreamStep(h, s, op);
            && InOrder(t)
            && |t.got| == |s.got| + (if op.Read? && |s.got| < |s.written| then 1 else 0)
            && |t.written| == |s.written| + (if op.Write? then 1 else 0)
  {
    match op
    case Write(item) => WriteKeeps(h, s, item);
    case Read => ReadKeeps(h, s);
  }

  /** The values a list of operations writes. */
  function Writes(ops: seq<IntOp>): seq<Item> {
    if ops == [] then []
    else
      var last := ops[|ops| - 1];
      Writes(ops[..|ops| - 1]) + if last.Write? then [last.item] else []
  }

  /** How many of the reads find a value, with `waiting` values there at first. */
  function Answered(waiting: nat, ops: seq<IntOp>): nat
    decreases ops
  {
    if ops == [] then 0
    else if ops[0].Write? then Answered(waiting + 1, ops[1..])
    else if waiting == 0 then Answered(0, ops[1..])
    else 1 + Answered(waiting - 1, ops[1..])
  }

  lemma WritesSnoc(items: seq<Item>, ops: seq<IntOp>, n: nat)
    requires n < |ops|
    ensures items + Writes(ops[..n + 1]) ==
            (items + Writes(ops[..n])) + if ops[n].Write? then [ops[n].item] else []
  {
    assert ops[..n + 1][..n] == ops[..n];
  }

  /**
   * Any interleaving of typed writes and reads returns the values in the order they
   * were written, on either host; what is left is the wire form of what was not read.
   */
  lemma {:induction false} IntegersInOrder(h: Host, s: Stream, ops: seq<IntOp>)
    requires InOrder(s)
    ensures InOrder(StreamRun(h, s, ops))
    ensures |StreamRun(h, s, ops).got| == |s.got| + Answered(|s.written| - |s.got|, ops)
    decreases ops
  {
    if ops != [] {
      StreamKeeps(h, s, ops[0]);
      IntegersInOrder(h, StreamStep(h, s, ops[0]), ops[1..]);
    }
  }

  /** After `n` of the operations on a stream that began with `items`. */
  ghost predicate Midway(items: seq<Item>, ops: seq<IntOp>, n: nat, s: Stream)
    requires n <= |ops|
  {
    && InOrder(s) && s.written == items + Writes(ops[..n])
    && |s.got| + Answered(|s.written| - |s.got|, ops[n..]) == Answered(|items|, ops)
  }

  lemma MidwayStarts(items: seq<Item>, ops: seq<IntOp>)
    ensures Midway(items, ops, 0, Stream(Encoded(items), items, []))
  {
    assert items[0..] == items && ops[0..] == ops && items + Writes(ops[..0]) == items;
  }

  lemma MidwayStep(h: Host, items: seq<Item>, ops: seq<IntOp>, n: nat, s: Stream)
    requires n < |ops| && Midway(items, ops, n, s)
    ensures Midway(items, ops, n + 1, StreamStep(h, s, ops[n]))
  {
    assert ops[n..][1..] == ops[n + 1..];
    StreamKeeps(h, s, ops[n]);
    WritesSnoc(items, ops, n);
  }

  lemma MidwayEnds(items: seq<Item>, ops: seq<IntOp>, s: Stream)
    requires Midway(items, ops, |ops|, s)
    ensures InOrder(s) && s.written == items + Writes(ops) && |s.got| == Answered(|items|, ops)
  {
    assert ops[..|ops|] == ops;
  }

  /** Prepend then Read: the value comes back and the earlier content is intact. */
  lemma PrependThenRead(h: Host, num: int, w: Width, content: seq<byte>)
    requires Fits(num, w)
    ensures var bytes := Stored(h, num, w) + content;
            Loaded(h, bytes[..Size(w)], w) == num && bytes[Size(w)..] == content
  {
    StoredIsWire(h, num, w);
    LoadedFromWire(h, num, w);
    var bytes := Stored(h, num, w) + content;
    assert bytes[..Size(w)] == Wire(num, w);
  }
}
