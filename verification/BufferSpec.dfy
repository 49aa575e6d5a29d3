/**
 * framework/net/src/Buffer.cpp without its bytes: where the two indices and the
 * size of the storage go under each operation, and CRLF search on plain sequences.
 */
module BufferSpec {
  import opened Common
  import opened Endian

  const CHEAP_PREPEND := 8
  const INITIAL_SIZE := 1024
  const EXTRA_BUFFER := 65536

  // ---- Geometry ---------------------------------------------------------------

  /** Size of the vector and the two indices; the readable bytes lie between them. */
  datatype Geo = Geo(size: nat, reader: nat, writer: nat)

  predicate Ordered(g: Geo) { g.reader <= g.writer <= g.size }

  function Readable(g: Geo): nat
    requires Ordered(g)
  {
    g.writer - g.reader
  }

  function Writable(g: Geo): nat
    requires Ordered(g)
  {
    g.size - g.writer
  }

  const START_GEO := Geo(CHEAP_PREPEND + INITIAL_SIZE, CHEAP_PREPEND, CHEAP_PREPEND)

  /** Storage grows only when compaction would not make room for `len` bytes. */
  predicate Grows(g: Geo, len: nat)
    requires Ordered(g)
  {
    Writable(g) < len && Writable(g) + g.reader < len + CHEAP_PREPEND
  }

  function Ensured(g: Geo, len: nat): (h: Geo)
    requires Ordered(g)
    ensures Ordered(h) && Readable(h) == Readable(g) && Writable(h) >= len
    ensures h == g || h.reader == 8 || (h.reader == g.reader && Writable(h) == len)
    ensures h.size != g.size <==> Writable(g) < len && g.size < Readable(g) + len + CHEAP_PREPEND
  {
    if Writable(g) >= len then g
    else if Grows(g, len) then g.(size := g.writer + len)
    else Geo(g.size, CHEAP_PREPEND, CHEAP_PREPEND + Readable(g))
  }

  function Appended(g: Geo, len: nat): (h: Geo)
    requires Ordered(g)
    ensures Ordered(h) && Readable(h) == Readable(g) + len
  {
    var e := Ensured(g, len);
    e.(writer := e.writer + len)
  }

  function Cleared(g: Geo): Geo { Geo(g.size, CHEAP_PREPEND, CHEAP_PREPEND) }

  /** After an operation that empties the buffer there is head room for eight bytes, whatever happened before. */
  lemma EmptiedTakesPrepend(g: Geo, len: nat, front: nat)
    requires Ordered(g) && g.size >= CHEAP_PREPEND && len >= Readable(g)
    ensures var h := Step(g, Retrieve(len));
            && Readable(h) == 0 && Writable(h) == g.size - 8
            && (Readable(Step(h, Prepend(front))) == front <==> front <= 8)
  {
  }

  function Retrieved(g: Geo, len: nat): Geo
    requires Ordered(g)
  {
    if len < Readable(g) then g.(reader := g.reader + len) else Cleared(g)
  }

  function AfterReadFd(g: Geo, n: nat): (h: Geo)
    requires Ordered(g)
    ensures Ordered(h) && Readable(h) == Readable(g) + n
  {
    if n <= Writable(g) then g.(writer := g.writer + n)
    else Appended(g.(writer := g.size), n - Writable(g))
  }

  /** The most bytes the iovec of ReadFd can take. */
  function IovTotal(g: Geo): (n: nat)
    requires Ordered(g)
    ensures n >= 65536 && (if Writable(g) >= 65536 then n == Writable(g) else n == Writable(g) + 65536)
  {
    Writable(g) + if Writable(g) < EXTRA_BUFFER then EXTRA_BUFFER else 0
  }

  /** The operations of a run; those the code ends with LOG_FATAL change nothing. */
  datatype Op =
    | Append(len: nat)
    | ReadFd(n: nat)
    | EnsureWritable(len: nat)
    | Retrieve(len: nat)
    | Unwrite(len: nat)
    | Prepend(len: nat)

  function Step(g: Geo, op: Op): (h: Geo)
    requires Ordered(g) && g.size >= CHEAP_PREPEND
    ensures Ordered(h) && h.size >= g.size
  {
    match op
    case Append(len) => Appended(g, len)
    case ReadFd(n) => if n <= IovTotal(g) then AfterReadFd(g, n) else g
    case EnsureWritable(len) => Ensured(g, len)
    case Retrieve(len) => Retrieved(g, len)
    case Unwrite(len) => if len <= Readable(g) then g.(writer := g.writer - len) else g
    case Prepend(len) => if len <= g.reader then g.(reader := g.reader - len) else g
  }

  function Run(g: Geo, ops: seq<Op>): (h: Geo)
    requires Ordered(g) && g.size >= CHEAP_PREPEND
    ensures Ordered(h) && h.size >= g.size
    decreases ops
  {
    if ops == [] then g else Run(Step(g, ops[0]), ops[1..])
  }

  /** How many bytes an operation asks `EnsureWritableBytes` for. */
  function Request(g: Geo, op: Op): nat
    requires Ordered(g)
  {
    match op
    case Append(len) => len
    case EnsureWritable(len) => len
    case ReadFd(n) => if Writable(g) < n <= IovTotal(g) then n - Writable(g) else 0
    case _ => 0
  }

  /** The readable bytes an operation may lead to. */
  function Demand(g: Geo, op: Op): nat
    requires Ordered(g) && g.size >= CHEAP_PREPEND
  {
    if op.EnsureWritable? then Readable(g) + op.len else Readable(Step(g, op))
  }

  predicate Within(g: Geo, ops: seq<Op>, l: nat, r: nat)
    requires Ordered(g) && g.size >= CHEAP_PREPEND
    decreases ops
  {
    ops == [] || (Request(g, ops[0]) <= l && Demand(g, ops[0]) <= r && Within(Step(g, ops[0]), ops[1..], l, r))
  }

  function Max(a: nat, b: nat): nat { if a >= b then a else b }

  lemma StepBound(g: Geo, op: Op, l: nat, r: nat, bound: nat)
    requires Ordered(g) && g.size >= CHEAP_PREPEND
    requires Request(g, op) <= l && Demand(g, op) <= r && bound >= r + l + 7
    requires g.size <= bound
    ensures Step(g, op).size <= bound
  {
  }

  /**
   * Whatever the order of operations, storage never exceeds the larger of its first
   * size and R + L + 7, where no request is over L bytes and no more than R bytes
   * are ever to be readable.
   */
  lemma {:induction false} GrowthBound(g: Geo, ops: seq<Op>, l: nat, r: nat)
    requires Ordered(g) && g.size >= CHEAP_PREPEND && Within(g, ops, l, r)
    ensures Run(g, ops).size <= Max(g.size, r + l + 7)
    decreases ops
  {
    if ops != [] {
      StepBound(g, ops[0], l, r, Max(g.size, r + l + 7));
      GrowthBound(Step(g, ops[0]), ops[1..], l, r);
    }
  }

  lemma FirstStep(g: Geo, op: Op, rest: seq<Op>, l: nat, r: nat)
    requires Ordered(g) && g.size >= CHEAP_PREPEND
    ensures Run(g, [op] + rest) == Run(Step(g, op), rest)
    ensures Within(g, [op] + rest, l, r) <==>
              Request(g, op) <= l && Demand(g, op) <= r && Within(Step(g, op), rest, l, r)
  {
    assert ([op] + rest)[1..] == rest;
  }

  /** For every L of at least 1024 the bound is reached: L bytes in, all but one out, L in. */
  lemma GrowthBoundIsTight(l: nat)
    requires l >= 1024
    ensures var ops := [Append(l)] + ([Retrieve(l - 1)] + ([Append(l)] + []));
            Within(START_GEO, ops, l, 1 + l) && Run(START_GEO, ops).size == (1 + l) + l + 7
  {
    var g1, g2 := Geo(8 + l, 8, 8 + l), Geo(8 + l, 7 + l, 8 + l);
    assert Step(START_GEO, Append(l)) == g1 && Step(g1, Retrieve(l - 1)) == g2;
    FirstStep(g2, Append(l), [], l, 1 + l);
    FirstStep(g1, Retrieve(l - 1), [Append(l)] + [], l, 1 + l);
    FirstStep(START_GEO, Append(l), [Retrieve(l - 1)] + ([Append(l)] + []), l, 1 + l);
  }

  // ---- CRLF search ------------------------------------------------------------

  predicate CRLFAt(s: seq<byte>, k: int) {
    0 <= k && k + 1 < |s| && s[k] == 13 && s[k + 1] == 10
  }

  /** std::search for CR LF at or after `from`. */
  function Search(s: seq<byte>, from: nat): (r: Option<nat>)
    requires from <= |s|
    ensures r.Some? ==> from <= r.value && CRLFAt(s, r.value)
    ensures forall k :: from <= k < (if r.Some? then r.value else |s|) ==> !CRLFAt(s, k)
    decreases |s| - from
  {
    if from == |s| then None
    else if CRLFAt(s, from) then Some(from)
    else Search(s, from + 1)
  }

  /**
   * If there was no CR LF before an append, resuming one byte before the old end finds
   * the same offset as searching from the start, even when CR and LF arrive apart.
   */
  lemma ResumeSearch(s: seq<byte>, t: seq<byte>)
    requires Search(s, 0) == None
    ensures Search(s + t, if |s| == 0 then 0 else |s| - 1) == Search(s + t, 0)
  {
    var from: nat := if |s| == 0 then 0 else |s| - 1;
    forall k | 0 <= k < from
      ensures !CRLFAt(s + t, k)
    {
      assert !CRLFAt(s, k);
    }
    SkipTo(s + t, 0, from);
  }

  lemma {:induction false} SkipTo(s: seq<byte>, from: nat, to: nat)
    requires from <= to <= |s|
    requires forall k :: from <= k < to ==> !CRLFAt(s, k)
    ensures Search(s, from) == Search(s, to)
    decreases (to as int) - from
  {
    if from < to {
      SkipTo(s, from + 1, to);
    }
  }
}
