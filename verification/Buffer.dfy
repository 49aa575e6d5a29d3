/**
 * framework/net/src/Buffer.cpp over a real byte array.  Every operation is proved to
 * act on the readable bytes as the plain sequence operation, and on the storage as
 * BufferSpec says.  A call the C++ ends with LOG_FATAL returns `aborted` and does
 * nothing.  Pointers into the storage are offsets from its beginning.
 */
module Buffers {
  import opened Common
  import opened Endian
  import opened BufferSpec

  const SIZE_MAX := 0x1_0000_0000_0000_0000

  /** A pointer difference converted to size_t: a negative one wraps. */
  function ToSizeT(x: int): nat
    requires -SIZE_MAX <= x
  {
    if x < 0 then x + SIZE_MAX else x
  }

  /** What readv gave: an errno, or the bytes it scattered over the two vectors. */
  datatype ReadvResult = Failed(errno: int) | Received(bytes: seq<byte>)

  class Buffer {
    var buffer_: array<byte>
    var reader_index_: nat
    var writer_index_: nat
    const host_: Host

    ghost predicate Valid()
      reads this
    {
      reader_index_ <= writer_index_ <= buffer_.Length && buffer_.Length >= CHEAP_PREPEND
    }

    ghost function Contents(): seq<byte>
      reads this, buffer_
      requires Valid()
    {
      buffer_[reader_index_..writer_index_]
    }

    ghost function Geometry(): (g: Geo)
      reads this
      ensures Valid() ==> Ordered(g)
    {
      Geo(buffer_.Length, reader_index_, writer_index_)
    }

    /** Storage is the old one or a new one: the frame of every operation that may grow it. */
    twostate predicate SameOrFresh()
      reads this
    {
      buffer_ == old(buffer_) || fresh(buffer_)
    }

    constructor (host: Host)
      ensures Valid() && fresh(buffer_) && Contents() == [] && Geometry() == START_GEO
      ensures buffer_.Length == 1032 && HeadRoomRestored()
    {
      host_ := host;
      buffer_ := new byte[CHEAP_PREPEND + INITIAL_SIZE](_ => 0);
      reader_index_, writer_index_ := CHEAP_PREPEND, CHEAP_PREPEND;
    }

    function ReadableBytes(): (n: nat)
      reads this, buffer_
      requires Valid()
      ensures n == |Contents()|
    {
      writer_index_ - reader_index_
    }

    function WritableBytes(): (n: nat)
      reads this
      requires Valid()
      ensures n == Writable(Geometry())
    {
      buffer_.Length - writer_index_
    }

    function PrependableBytes(): nat
      reads this
    {
      reader_index_
    }

    // ---- Making room ----------------------------------------------------------

    /** std::copy of the readable bytes down to `to`; the two ranges may overlap. */
    method CopyDown(to: nat)
      requires Valid() && to < reader_index_
      modifies buffer_
      ensures buffer_[to..to + writer_index_ - reader_index_] == old(Contents())
    {
      var n := writer_index_ - reader_index_;
      ghost var was := buffer_[..];
      for i := 0 to n
        invariant forall k :: to <= k < to + i ==> buffer_[k] == was[k - to + reader_index_]
        invariant forall k :: to + i <= k < buffer_.Length ==> buffer_[k] == was[k]
      {
        buffer_[to + i] := buffer_[reader_index_ + i];
      }
    }

    /** vector::resize to a larger size. */
    method Resize(size: nat)
      requires Valid() && size >= buffer_.Length
      modifies this`buffer_
      ensures Valid() && fresh(buffer_) && buffer_.Length == size && Contents() == old(Contents())
    {
      var bigger := new byte[size](_ => 0);
      forall i | 0 <= i < buffer_.Length {
        bigger[i] := buffer_[i];
      }
      buffer_ := bigger;
    }

    /** Reached only with too little room to write: then both asserts of the source hold. */
    method MakeSpace(len: nat)
      requires Valid() && Writable(Geometry()) < len
      modifies this, buffer_
      ensures Valid() && SameOrFresh()
      ensures Contents() == old(Contents()) && Geometry() == Ensured(old(Geometry()), len)
      ensures if buffer_.Length == old(buffer_.Length) then buffer_ == old(buffer_) && reader_index_ == 8
              else reader_index_ == old(reader_index_) && buffer_.Length == old(writer_index_) + len
    {
      if WritableBytes() + PrependableBytes() < len + CHEAP_PREPEND {
        Resize(writer_index_ + len);
      } else {
        assert CHEAP_PREPEND < reader_index_;
        var readable := ReadableBytes();
        CopyDown(CHEAP_PREPEND);
        reader_index_ := CHEAP_PREPEND;
        writer_index_ := reader_index_ + readable;
        assert readable == ReadableBytes();
      }
    }

    method EnsureWritableBytes(len: nat)
      requires Valid()
      modifies this, buffer_
      ensures Valid() && SameOrFresh()
      ensures Contents() == old(Contents()) && Geometry() == Ensured(old(Geometry()), len)
      ensures old(Writable(Geometry())) >= len ==> Geometry() == old(Geometry())
    {
      if WritableBytes() < len {
        MakeSpace(len);
      }
    }

    // ---- Writing --------------------------------------------------------------

    /** std::copy of `data` to the write position. */
    method CopyIn(data: seq<byte>)
      requires Valid() && |data| <= Writable(Geometry())
      modifies buffer_
      ensures Valid() && Contents() == old(Contents())
      ensures buffer_[writer_index_..writer_index_ + |data|] == data
    {
      for i := 0 to |data|
        invariant forall k :: 0 <= k < i ==> buffer_[writer_index_ + k] == data[k]
        invariant Contents() == old(Contents())
      {
        buffer_[writer_index_ + i] := data[i];
      }
    }

    /** Takes over `len` bytes already stored at the write position. */
    method HasWritten(len: nat) returns (aborted: bool)
      requires Valid()
      modifies this`writer_index_
      ensures aborted <==> len > old(Writable(Geometry()))
      ensures writer_index_ == old(writer_index_) + if aborted then 0 else len
      ensures Valid()
      ensures !aborted ==> Contents() == old(Contents()) + buffer_[old(writer_index_)..old(writer_index_) + len]
    {
      aborted := len > WritableBytes();
      if !aborted {
        writer_index_ := writer_index_ + len;
      }
    }

    method Append(data: seq<byte>)
      requires Valid()
      modifies this, buffer_
      ensures Valid() && SameOrFresh()
      ensures Contents() == old(Contents()) + data
      ensures Geometry() == Appended(old(Geometry()), |data|)
    {
      EnsureWritableBytes(|data|);
      CopyIn(data);
      var aborted := HasWritten(|data|);
    }

    method Unwrite(len: nat) returns (aborted: bool)
      requires Valid()
      modifies this`writer_index_
      ensures Valid() && (aborted <==> len > old(|Contents()|))
      ensures Geometry() == Step(old(Geometry()), BufferSpec.Unwrite(len))
      ensures Contents() == if aborted then old(Contents()) else old(Contents())[..old(|Contents()|) - len]
    {
      aborted := len > ReadableBytes();
      if !aborted {
        writer_index_ := writer_index_ - len;
      }
    }

    method Prepend(data: seq<byte>) returns (aborted: bool)
      requires Valid()
      modifies this`reader_index_, buffer_
      ensures Valid() && (aborted <==> |data| > old(reader_index_))
      ensures Geometry() == Step(old(Geometry()), BufferSpec.Prepend(|data|))
      ensures Contents() == if aborted then old(Contents()) else data + old(Contents())
    {
      aborted := PrependableBytes() < |data|;
      if !aborted {
        reader_index_ := reader_index_ - |data|;
        forall i | 0 <= i < |data| {
          buffer_[reader_index_ + i] := data[i];
        }
        assert buffer_[reader_index_..reader_index_ + |data|] == data;
        assert buffer_[reader_index_ + |data|..writer_index_] == old(Contents());
      }
    }

    // ---- Reading --------------------------------------------------------------

    /** As in a fresh buffer: eight bytes of head room, and the rest writable. */
    predicate HeadRoomRestored()
      reads this
    {
      reader_index_ == 8 && writer_index_ == 8
    }

    method RetrieveAll()
      requires Valid()
      modifies this`reader_index_, this`writer_index_
      ensures Valid() && Contents() == [] && Geometry() == Cleared(old(Geometry())) && HeadRoomRestored()
    {
      reader_index_, writer_index_ := CHEAP_PREPEND, CHEAP_PREPEND;
    }

    method Retrieve(len: nat)
      requires Valid()
      modifies this`reader_index_, this`writer_index_
      ensures Valid() && Geometry() == Retrieved(old(Geometry()), len)
      ensures Contents() == if len < old(|Contents()|) then old(Contents())[len..] else []
      ensures if len < old(|Contents()|)
              then reader_index_ == old(reader_index_) + len && writer_index_ == old(writer_index_)
              else HeadRoomRestored()
    {
      if len < ReadableBytes() {
        reader_index_ := reader_index_ + len;
      } else {
        RetrieveAll();
      }
    }

    /** `end` is an offset in the storage; past the end it empties the buffer, then retrieves once more. */
    method RetrieveUntil(end: nat)
      requires Valid() && end < SIZE_MAX
      modifies this`reader_index_, this`writer_index_
      ensures Valid()
      ensures var n := end - old(reader_index_);
              if n <= 0 then Contents() == old(Contents()) && Geometry() == old(Geometry())
              else
                && Contents() == (if n < old(|Contents()|) then old(Contents())[n..] else [])
                && Geometry() == Retrieved(old(Geometry()), n)
    {
      if end <= reader_index_ {
        return;
      }
      if end >= writer_index_ {
        RetrieveAll();
      }
      Retrieve(ToSizeT(end - reader_index_));
    }

    method RetrieveAsString(len: nat) returns (s: seq<byte>)
      requires Valid()
      modifies this`reader_index_, this`writer_index_
      ensures Valid() && Geometry() == Retrieved(old(Geometry()), len)
      ensures s + Contents() == old(Contents())
      ensures |s| == if len < old(|Contents()|) then len else old(|Contents()|)
    {
      var readLen := len;
      if len >= ReadableBytes() {
        readLen := ReadableBytes();
      }
      s := buffer_[reader_index_..reader_index_ + readLen];
      Retrieve(len);
    }

    method RetrieveAllAsString() returns (s: seq<byte>)
      requires Valid()
      modifies this`reader_index_, this`writer_index_
      ensures Valid() && s == old(Contents()) && Contents() == [] && HeadRoomRestored()
    {
      s := RetrieveAsString(ReadableBytes());
    }

    // ---- Search ---------------------------------------------------------------

    /** `start` is an offset in the storage, and so is the result. */
    method FindCRLF(start: int) returns (r: Option<nat>)
      requires Valid()
      ensures start > writer_index_ ==> r == None
      ensures start <= writer_index_ ==>
                var from := if start < reader_index_ then 0 else start - reader_index_;
                r == match Search(Contents(), from) case None => None case Some(k) => Some(reader_index_ + k)
      ensures r.Some? ==> reader_index_ <= r.value && start <= r.value && r.value + 1 < writer_index_
      ensures r.Some? ==> buffer_[r.value] == 13 && buffer_[r.value + 1] == 10
    {
      var startSearch := start;
      if start < reader_index_ {
        startSearch := reader_index_;
      }
      if start > writer_index_ {
        return None;
      }
      var crlf := Search(buffer_[reader_index_..writer_index_], startSearch - reader_index_);
      r := if crlf.None? then None else Some(reader_index_ + crlf.value);
    }

    /**
     * A search for a line end, taken up again after more bytes have come: one byte before
     * the old end is early enough, wherever the append has moved the storage.
     */
    method AppendAndResume(data: seq<byte>) returns (r: Option<nat>)
      requires Valid() && Search(Contents(), 0) == None
      modifies this, buffer_
      ensures Valid() && SameOrFresh() && Contents() == old(Contents()) + data
      ensures r == match Search(Contents(), 0) case None => None case Some(k) => Some(reader_index_ + k)
    {
      ResumeSearch(Contents(), data);
      var n := ReadableBytes();
      Append(data);
      r := FindCRLF(reader_index_ + if n == 0 then 0 else n - 1);
    }

    // ---- Scatter read ---------------------------------------------------------

    /** readv into the free storage and the extra buffer on the stack, then the bookkeeping. */
    method ReadFd(result: ReadvResult) returns (n: int, savedErrno: int)
      requires Valid()
      requires result.Received? ==> |result.bytes| <= IovTotal(Geometry())
      modifies this, buffer_
      ensures Valid() && SameOrFresh()
      ensures result.Failed? ==> n == -1 && savedErrno == result.errno
      ensures result.Failed? ==> Contents() == old(Contents()) && Geometry() == old(Geometry())
      ensures result.Received? ==> n == |result.bytes| && Contents() == old(Contents()) + result.bytes
      ensures result.Received? ==> Geometry() == AfterReadFd(old(Geometry()), |result.bytes|)
      ensures result.Received? && |result.bytes| <= old(Writable(Geometry())) ==>
                buffer_.Length == old(buffer_.Length) && reader_index_ == old(reader_index_)
    {
      savedErrno := 0;
      var writable := WritableBytes();
      if result.Failed? {
        n, savedErrno := -1, result.errno;
        return;
      }
      n := |result.bytes|;
      var extrabuf := Scatter(result.bytes);
      if n <= writable {
        writer_index_ := writer_index_ + n;
      } else {
        Spill(extrabuf);
      }
    }

    /** The storage is full to the end; the rest is appended from the extra buffer. */
    method Spill(extrabuf: seq<byte>)
      requires Valid()
      modifies this, buffer_
      ensures Valid() && SameOrFresh()
      ensures Contents() == old(buffer_[reader_index_..]) + extrabuf
      ensures Geometry() == Appended(old(Geometry()).(writer := old(buffer_.Length)), |extrabuf|)
    {
      writer_index_ := buffer_.Length;
      Append(extrabuf);
    }

    /** What readv stores: the free storage first, the rest in the extra buffer. */
    method Scatter(bytes: seq<byte>) returns (extrabuf: seq<byte>)
      requires Valid()
      modifies buffer_
      ensures Valid() && Contents() == old(Contents())
      ensures var direct := |bytes| - |extrabuf|;
              && direct == (if |bytes| <= Writable(Geometry()) then |bytes| else Writable(Geometry()))
              && old(Contents()) + bytes == buffer_[reader_index_..writer_index_ + direct] + extrabuf
    {
      var direct := if |bytes| <= WritableBytes() then |bytes| else WritableBytes();
      CopyIn(bytes[..direct]);
      extrabuf := bytes[direct..];
      assert bytes == bytes[..direct] + extrabuf;
      assert buffer_[reader_index_..writer_index_ + direct] == Contents() + bytes[..direct];
    }

    // ---- Integers -------------------------------------------------------------

    /** AppendInt8 to AppendInt64. */
    method AppendInt(num: int, w: Width)
      requires Valid() && Fits(num, w)
      modifies this, buffer_
      ensures Valid() && SameOrFresh()
      ensures Contents() == old(Contents()) + Wire(num, w) && Stored(host_, num, w) == Wire(num, w)
      ensures Geometry() == Appended(old(Geometry()), Size(w))
    {
      StoredIsWire(host_, num, w);
      Append(Stored(host_, num, w));
    }

    /** PrependInt8 to PrependInt64. */
    method PrependInt(num: int, w: Width) returns (aborted: bool)
      requires Valid() && Fits(num, w)
      modifies this`reader_index_, buffer_
      ensures Valid() && (aborted <==> Size(w) > old(reader_index_))
      ensures Contents() == if aborted then old(Contents()) else Wire(num, w) + old(Contents())
      ensures Geometry() == Step(old(Geometry()), BufferSpec.Prepend(Size(w)))
    {
      StoredIsWire(host_, num, w);
      aborted := Prepend(Stored(host_, num, w));
    }

    /** PeekInt8 to PeekInt64: None where the source aborts. */
    method PeekInt(w: Width) returns (r: Option<int>)
      requires Valid()
      ensures r.None? <==> |Contents()| < Size(w)
      ensures r.Some? ==> r.value == Loaded(host_, Contents()[..Size(w)], w)
    {
      if ReadableBytes() < Size(w) {
        return None;
      }
      assert buffer_[reader_index_..reader_index_ + Size(w)] == Contents()[..Size(w)];
      r := Some(Loaded(host_, buffer_[reader_index_..reader_index_ + Size(w)], w));
    }

    /** ReadInt8 to ReadInt64. */
    method ReadInt(w: Width) returns (r: Option<int>)
      requires Valid()
      modifies this`reader_index_, this`writer_index_
      ensures Valid() && (r.None? <==> old(|Contents()|) < Size(w))
      ensures r.None? ==> Contents() == old(Contents())
      ensures r.Some? ==> r.value == Loaded(host_, old(Contents())[..Size(w)], w)
      ensures r.Some? ==> Contents() == old(Contents())[Size(w)..]
      ensures Geometry() == if r.None? then old(Geometry()) else Retrieved(old(Geometry()), Size(w))
    {
      r := PeekInt(w);
      if r.Some? {
        Retrieve(Size(w));
      }
    }

    /**
     * Any interleaving of integers appended and read, with room asked for in between, so
     * that storage is compacted and grown at will; `items` are in the buffer at first.
     * The values come back in the order they were appended, and the rest is in the buffer.
     */
    method Exchange(items: seq<Item>, ops: seq<IntOp>, room: seq<nat>) returns (got: seq<int>)
      requires Valid() && Contents() == Encoded(items)
      modifies this, buffer_
      ensures Valid() && SameOrFresh()
      ensures var all := items + Writes(ops);
              && |got| == Answered(|items|, ops) <= |all| && (forall k :: 0 <= k < |got| ==> got[k] == all[k].num)
              && Contents() == Encoded(all[|got|..])
    {
      got := [];
      var all := items;
      MidwayStarts(items, ops);
      for n := 0 to |ops|
        invariant Valid() && SameOrFresh()
        invariant Midway(items, ops, n, Stream(Contents(), all, got))
      {
        MidwayStep(host_, items, ops, n, Stream(Contents(), all, got));
        all, got := Perform(ops[n], if n < |room| then room[n] else 0, all, got);
      }
      MidwayEnds(items, ops, Stream(Contents(), all, got));
    }

    /** One operation of a client that has appended `all` and read `got`, after asking for room. */
    method Perform(op: IntOp, room: nat, all: seq<Item>, got: seq<int>) returns (all': seq<Item>, got': seq<int>)
      requires Valid()
      modifies this, buffer_
      ensures Valid() && SameOrFresh()
      ensures Stream(Contents(), all', got') == StreamStep(host_, Stream(old(Contents()), all, got), op)
    {
      all', got' := all, got;
      EnsureWritableBytes(room);
      match op {
        case Write(item) =>
          StoredIsWire(host_, item.num, item.w);
          AppendInt(item.num, item.w);
          all' := all + [item];
        case Read =>
          if |got| < |all| {
            var r := ReadInt(all[|got|].w);
            got' := if r.Some? then got + [r.value] else got;
          }
      }
    }
  }
}
