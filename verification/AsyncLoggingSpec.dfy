/**
 * The double-buffered logger of framework/log/src/AsyncLogging.cpp as a state
 * machine: one step for each critical section and one for the back end's
 * unlocked work.  Any number of front ends share the action `Append`.
 *
 * A buffer carries its identity, so that ownership can be stated; a moved-from
 * unique_ptr is None.  `failed` is set where the C++ would dereference a null
 * buffer or fail an assert.
 */
module AsyncLoggingSpec {
  import opened Common
  import Printing
  import LogStreams
  import opened FixedBuffers

  const MAX_BATCH := 25

  /** The identity of a buffer is the object it is. */
  type Id = object

  datatype Buf = Buf(id: Id, data: seq<char>)

  /** One call of LogFile::append: the drop notice for `dropped` buffers, or a buffer's bytes. */
  datatype Chunk = Notice(dropped: nat) | Piece(data: seq<char>)

  /** Where the back end is in its loop. */
  datatype Phase =
    | Head      // about to test running_
    | Entering  // about to lock
    | Waiting   // in the timed wait, lock released
    | Writing   // lock released, batch in hand
    | Exited

  datatype State = State(
    // shared, under the mutex
    current: Option<Buf>,
    next: Option<Buf>,
    buffers: seq<Buf>,
    // local to the back end
    new1: Option<Buf>,
    new2: Option<Buf>,
    toWrite: seq<Buf>,
    phase: Phase,
    running: bool,
    failed: bool,
    output: seq<Chunk>,
    // history: what the front ends logged, and the batches swapped out
    accepted: seq<char>,
    batches: seq<seq<seq<char>>>)

  datatype Action =
    | Append(line: seq<char>, blank: Id)
    | Stop
    | TestRunning
    | Lock
    | WakeUp
    | Work

  // ---- Steps ------------------------------------------------------------------

  function Datas(bufs: seq<Buf>): (d: seq<seq<char>>)
    ensures |d| == |bufs|
  {
    seq(|bufs|, i requires 0 <= i < |bufs| => bufs[i].data)
  }

  function Pieces(datas: seq<seq<char>>): (c: seq<Chunk>)
    ensures |c| == |datas|
  {
    seq(|datas|, i requires 0 <= i < |datas| => Piece(datas[i]))
  }

  function Taken(buf: Buf, line: seq<char>): Buf {
    buf.(data := Bounded(buf.data, line, LARGE_BUFFER))
  }

  predicate Overflows(s: State, line: seq<char>) {
    s.current.Some? && LARGE_BUFFER - |s.current.value.data| <= |line|
  }

  function AppendStep(s: State, line: seq<char>, blank: Id): State {
    if s.current.None? then s.(failed := true)
    else
      var logged := s.(accepted := s.accepted + if |line| < LARGE_BUFFER then line else []);
      if !Overflows(s, line) then
        logged.(current := Some(Taken(s.current.value, line)))
      else
        var spare := if s.next.Some? then s.next.value else Buf(blank, []);
        logged.(current := Some(Taken(spare, line)), next := None, buffers := s.buffers + [s.current.value])
  }

  function SwapStep(s: State): State {
    if s.current.None? then s.(failed := true)
    else
      var batch := s.buffers + [s.current.value];
      s.(current := s.new1, new1 := None,
         buffers := s.toWrite, toWrite := batch,
         next := if s.next.None? then s.new2 else s.next,
         new2 := if s.next.None? then None else s.new2,
         phase := Writing, batches := s.batches + [Datas(batch)])
  }

  /** The buffers that survive the drop rule. */
  function AfterDrop(bufs: seq<Buf>): seq<Buf> {
    if |bufs| > MAX_BATCH then bufs[..2] else bufs
  }

  function Recycled(buf: Buf): Buf { buf.(data := []) }

  /** `if (!spare) { assert(!bufs.empty()); spare = move(bufs.back()); pop_back; reset }` */
  function Refill(spare: Option<Buf>, bufs: seq<Buf>): (r: (Option<Buf>, seq<Buf>)) {
    if spare.Some? || bufs == [] then (spare, bufs)
    else (Some(Recycled(bufs[|bufs| - 1])), bufs[..|bufs| - 1])
  }

  /** The calls of output.append in one round of the back end. */
  function Appended(bufs: seq<Buf>): seq<Chunk> {
    (if |bufs| > MAX_BATCH then [Notice(|bufs| - 2)] else []) + Pieces(Datas(AfterDrop(bufs)))
  }

  function WorkStep(s: State): State {
    var kept := AfterDrop(s.toWrite);
    var two := if |kept| > 2 then kept[..2] else kept;
    var (n1, left1) := Refill(s.new1, two);
    var (n2, left2) := Refill(s.new2, left1);
    s.(output := s.output + Appended(s.toWrite),
       new1 := n1, new2 := n2, toWrite := [], phase := Head,
       failed := s.failed || n1.None? || n2.None?)
  }

  predicate Enabled(s: State, a: Action) {
    match a
    case Append(line, blank) => Overflows(s, line) && s.next.None? ==> blank !in OwnedIds(s)
    case Stop => true
    case TestRunning => s.phase == Head
    case Lock => s.phase == Entering
    case WakeUp => s.phase == Waiting
    case Work => s.phase == Writing
  }

  /** A step that is not enabled leaves the state alone, so every list of actions is a run. */
  function Step(s: State, a: Action): State {
    if !Enabled(s, a) || s.failed then s
    else
      match a
      case Append(line, blank) => AppendStep(s, line, blank)
      case Stop => s.(running := false)
      case TestRunning => s.(phase := if s.running then Entering else Exited)
      case Lock => if s.buffers == [] then s.(phase := Waiting) else SwapStep(s)
      case WakeUp => SwapStep(s)
      case Work => WorkStep(s)
  }

  function Run(s: State, actions: seq<Action>): State
    decreases actions
  {
    if actions == [] then s else Run(Step(s, actions[0]), actions[1..])
  }

  lemma {:induction false} RunConcat(s: State, a: seq<Action>, b: seq<Action>)
    ensures Run(s, a + b) == Run(Run(s, a), b)
    decreases a
  {
    if a == [] {
      assert a + b == b;
    } else {
      assert (a + b)[1..] == a[1..] + b;
      RunConcat(Step(s, a[0]), a[1..], b);
    }
  }

  lemma RunOne(s: State, a: Action)
    ensures Run(s, [a]) == Step(s, a)
  {
    assert [a][1..] == [];
  }

  function Initial(a: Id, b: Id, c: Id, d: Id): State {
    State(Some(Buf(a, [])), Some(Buf(b, [])), [], Some(Buf(c, [])), Some(Buf(d, [])), [],
          Head, true, false, [], [], [])
  }

  // ---- Ownership --------------------------------------------------------------

  function IdBag(bufs: seq<Buf>): multiset<Id> {
    if bufs == [] then multiset{}
    else IdBag(bufs[..|bufs| - 1]) + multiset{bufs[|bufs| - 1].id}
  }

  function IdOf(b: Option<Buf>): multiset<Id> {
    if b.Some? then multiset{b.value.id} else multiset{}
  }

  /** Every place a unique_ptr to a buffer can be. */
  function OwnedIds(s: State): multiset<Id> {
    IdOf(s.current) + IdOf(s.next) + IdOf(s.new1) + IdOf(s.new2) + IdBag(s.buffers) + IdBag(s.toWrite)
  }

  ghost predicate Unique(bag: multiset<Id>) {
    forall id :: id in bag ==> bag[id] == 1
  }

  /** currentBuffer_ is never null, and the spares are there, empty, whenever the code needs them. */
  predicate Spares(s: State) {
    && !s.failed
    && s.current.Some?
    && (s.next.None? ==> s.buffers != [])
    && (s.next.Some? ==> s.next.value.data == [])
    && (s.new2.Some? ==> s.new2.value.data == [])
    && (if s.phase == Writing then
          s.new1.None? && s.toWrite != [] && (s.new2.None? ==> |s.toWrite| >= 2)
        else
          s.new1.Some? && s.new1.value.data == [] && s.new2.Some? && s.toWrite == [])
  }

  /** No buffer has two owners. */
  ghost predicate Owned(s: State) {
    Unique(OwnedIds(s))
  }

  lemma SparesKept(s: State, a: Action)
    requires Spares(s)
    ensures Spares(Step(s, a))
  {
  }

  lemma IdBagSnoc(bufs: seq<Buf>, b: Buf)
    ensures IdBag(bufs + [b]) == IdBag(bufs) + multiset{b.id}
  {
    assert (bufs + [b])[..|bufs|] == bufs;
  }

  lemma {:induction false} IdBagPrefix(bufs: seq<Buf>, k: nat)
    requires k <= |bufs|
    ensures IdBag(bufs[..k]) <= IdBag(bufs)
  {
    if k == |bufs| {
      assert bufs[..k] == bufs;
    } else {
      assert bufs[..|bufs| - 1][..k] == bufs[..k];
      IdBagPrefix(bufs[..|bufs| - 1], k);
    }
  }

  lemma UniqueSubset(a: multiset<Id>, b: multiset<Id>)
    requires a <= b && Unique(b)
    ensures Unique(a)
  {
    forall id | id in a
      ensures a[id] == 1
    {
      assert a[id] <= b[id];
    }
  }

  lemma OverflowOwnership(s: State, line: seq<char>, blank: Id)
    requires Spares(s) && Overflows(s, line)
    ensures OwnedIds(AppendStep(s, line, blank)) ==
            OwnedIds(s) + if s.next.Some? then multiset{} else multiset{blank}
  {
    IdBagSnoc(s.buffers, s.current.value);
  }

  lemma AppendOwnership(s: State, line: seq<char>, blank: Id)
    requires Spares(s) && Owned(s) && Enabled(s, Append(line, blank))
    ensures Owned(AppendStep(s, line, blank))
  {
    if Overflows(s, line) {
      OverflowOwnership(s, line, blank);
    } else {
      assert OwnedIds(AppendStep(s, line, blank)) == OwnedIds(s);
    }
  }

  lemma SwapOwnership(s: State)
    requires Spares(s)
    ensures OwnedIds(SwapStep(s)) == OwnedIds(s)
  {
    IdBagSnoc(s.buffers, s.current.value);
    BagRotation(IdOf(s.current), IdOf(s.new1), IdBag(s.buffers), IdBag(s.toWrite), IdOf(s.next), IdOf(s.new2));
  }

  lemma BagRotation(c: multiset<Id>, n1: multiset<Id>, b: multiset<Id>, w: multiset<Id>, n: multiset<Id>,
                    n2: multiset<Id>)
    ensures n1 + n + multiset{} + n2 + w + (b + c) == c + n + n1 + n2 + b + w
    ensures n == multiset{} ==> n1 + n2 + multiset{} + multiset{} + w + (b + c) == c + n + n1 + n2 + b + w
  {
  }

  /** Taking a spare from the back moves one id and loses none. */
  lemma RefillOwnership(spare: Option<Buf>, bufs: seq<Buf>)
    ensures IdOf(Refill(spare, bufs).0) + IdBag(Refill(spare, bufs).1) == IdOf(spare) + IdBag(bufs)
  {
  }

  /** The batch is cut down, the spares are drawn from it, and the rest is freed. */
  lemma WorkOwnership(s: State)
    ensures OwnedIds(WorkStep(s)) <= OwnedIds(s)
  {
    var kept := AfterDrop(s.toWrite);
    var two := if |kept| > 2 then kept[..2] else kept;
    IdBagPrefix(s.toWrite, |two|);
    var r1 := Refill(s.new1, two);
    var r2 := Refill(s.new2, r1.1);
    RefillOwnership(s.new1, two);
    RefillOwnership(s.new2, r1.1);
    assert two == s.toWrite[..|two|];
    BagExchange(IdOf(s.new1), IdOf(s.new2), IdBag(two), IdOf(r1.0), IdBag(r1.1), IdOf(r2.0), IdBag(r2.1),
                IdBag(s.toWrite), IdOf(s.current) + IdOf(s.next), IdBag(s.buffers));
  }

  lemma BagExchange(n1: multiset<Id>, n2: multiset<Id>, two: multiset<Id>, m1: multiset<Id>, l1: multiset<Id>,
                    m2: multiset<Id>, l2: multiset<Id>, all: multiset<Id>, front: multiset<Id>, bufs: multiset<Id>)
    requires two <= all && m1 + l1 == n1 + two && m2 + l2 == n2 + l1
    ensures front + m1 + m2 + bufs + multiset{} <= front + n1 + n2 + bufs + all
  {
    forall x
      ensures (front + m1 + m2 + bufs + multiset{})[x] <= (front + n1 + n2 + bufs + all)[x]
    {
      assert (m1 + l1)[x] == (n1 + two)[x] && (m2 + l2)[x] == (n2 + l1)[x] && two[x] <= all[x];
    }
  }

  lemma SwapKeepsOwned(s: State)
    requires Spares(s) && Owned(s)
    ensures Owned(SwapStep(s))
  {
    SwapOwnership(s);
  }

  lemma WorkKeepsOwned(s: State)
    requires Owned(s)
    ensures Owned(WorkStep(s))
  {
    WorkOwnership(s);
    UniqueSubset(OwnedIds(WorkStep(s)), OwnedIds(s));
  }

  /** A step that moves no buffer. */
  lemma QuietKeepsOwned(s: State, a: Action)
    requires Owned(s) && (a == Stop || a == TestRunning || (a == Lock && s.buffers == []))
    ensures Owned(Step(s, a))
  {
    SameOwners(s, Step(s, a));
  }

  lemma SameOwners(s: State, t: State)
    requires t.current == s.current && t.next == s.next && t.buffers == s.buffers
    requires t.new1 == s.new1 && t.new2 == s.new2 && t.toWrite == s.toWrite
    ensures OwnedIds(t) == OwnedIds(s)
  {
  }

  lemma OwnedKept(s: State, a: Action)
    requires Spares(s) && Owned(s)
    ensures Owned(Step(s, a))
  {
    if Enabled(s, a) {
      match a
      case Append(line, blank) => AppendOwnership(s, line, blank);
      case Lock => if s.buffers != [] { SwapKeepsOwned(s); } else { QuietKeepsOwned(s, a); }
      case WakeUp => SwapKeepsOwned(s);
      case Work => WorkKeepsOwned(s);
      case _ => QuietKeepsOwned(s, a);
    }
  }

  // ---- Conservation -----------------------------------------------------------

  /** What is written of one batch: all of it in order, or the notice and its first two buffers. */
  function Rendered(batch: seq<seq<char>>): seq<Chunk> {
    if |batch| > MAX_BATCH then [Notice(|batch| - 2), Piece(batch[0]), Piece(batch[1])] else Pieces(batch)
  }

  function RenderedAll(batches: seq<seq<seq<char>>>): seq<Chunk> {
    if batches == [] then []
    else RenderedAll(batches[..|batches| - 1]) + Rendered(batches[|batches| - 1])
  }

  function BatchBytes(batches: seq<seq<seq<char>>>): seq<char> {
    if batches == [] then []
    else BatchBytes(batches[..|batches| - 1]) + Flatten(batches[|batches| - 1])
  }

  /** Bytes accepted but not yet swapped out. */
  function Unswapped(s: State): seq<char> {
    Flatten(Datas(s.buffers)) + if s.current.Some? then s.current.value.data else []
  }

  /** The batches the back end has finished writing. */
  function Written(s: State): seq<seq<seq<char>>> {
    if s.phase == Writing && s.batches != [] then s.batches[..|s.batches| - 1] else s.batches
  }

  ghost predicate Conserved(s: State) {
    && (s.current.Some? ==> |s.current.value.data| < LARGE_BUFFER)
    && s.accepted == BatchBytes(s.batches) + Unswapped(s)
    && s.output == RenderedAll(Written(s))
    && (s.phase == Writing ==> s.batches != [] && s.batches[|s.batches| - 1] == Datas(s.toWrite))
  }

  lemma DatasSnoc(bufs: seq<Buf>, b: Buf)
    ensures Datas(bufs + [b]) == Datas(bufs) + [b.data]
    ensures Flatten(Datas(bufs + [b])) == Flatten(Datas(bufs)) + b.data
  {
    assert Datas(bufs + [b]) == Datas(bufs) + [b.data];
    FlattenSnoc(Datas(bufs), b.data);
  }

  lemma AppendConserves(s: State, line: seq<char>, blank: Id)
    requires Spares(s) && Conserved(s)
    ensures Conserved(AppendStep(s, line, blank))
  {
    if Overflows(s, line) {
      OverflowUnswapped(s, line, blank);
    } else {
      TakenUnswapped(s, line, blank);
    }
    var kept := if |line| < LARGE_BUFFER then line else [];
    var t := AppendStep(s, line, blank);
    assert kept == [] ==> Unswapped(s) + kept == Unswapped(s);
    assert t.accepted == (BatchBytes(s.batches) + Unswapped(s)) + kept;
    Associate(BatchBytes(s.batches), Unswapped(s), kept);
  }

  lemma Associate(a: seq<char>, b: seq<char>, c: seq<char>)
    ensures (a + b) + c == a + (b + c)
  {
  }

  lemma TakenUnswapped(s: State, line: seq<char>, blank: Id)
    requires Spares(s) && !Overflows(s, line)
    ensures Unswapped(AppendStep(s, line, blank)) == Unswapped(s) + line
  {
    var b, c := Flatten(Datas(s.buffers)), s.current.value.data;
    assert b + (c + line) == (b + c) + line;
  }

  lemma OverflowUnswapped(s: State, line: seq<char>, blank: Id)
    requires Spares(s) && Overflows(s, line)
    ensures Unswapped(AppendStep(s, line, blank)) == Unswapped(s) + if |line| < LARGE_BUFFER then line else []
  {
    DatasSnoc(s.buffers, s.current.value);
    assert [] + line == line;
  }

  lemma SwapConserves(s: State)
    requires Spares(s) && Conserved(s) && s.phase != Writing
    ensures Conserved(SwapStep(s))
  {
    var t := SwapStep(s);
    DatasSnoc(s.buffers, s.current.value);
    assert t.batches[..|t.batches| - 1] == s.batches;
    assert Datas(t.buffers) == [];
    assert Unswapped(t) == [];
  }

  lemma AppendedIsRendered(bufs: seq<Buf>)
    ensures Appended(bufs) == Rendered(Datas(bufs))
  {
  }

  /** More than 25 buffers: the notice and the first two.  Otherwise all of them, in order. */
  lemma AppendedExactly(bufs: seq<Buf>)
    ensures |bufs| > 25 ==> Appended(bufs) == [Notice(|bufs| - 2), Piece(bufs[0].data), Piece(bufs[1].data)]
    ensures |bufs| <= 25 ==> |Appended(bufs)| == |bufs| &&
                             forall i :: 0 <= i < |bufs| ==> Appended(bufs)[i] == Piece(bufs[i].data)
  {
    AppendedIsRendered(bufs);
  }

  lemma WorkConserves(s: State)
    requires Spares(s) && Conserved(s) && s.phase == Writing
    ensures Conserved(WorkStep(s))
  {
    AppendedIsRendered(s.toWrite);
    var t := WorkStep(s);
    assert Unswapped(t) == Unswapped(s);
    assert Written(s) == s.batches[..|s.batches| - 1];
    assert t.output == RenderedAll(s.batches);
  }

  lemma ConservedKept(s: State, a: Action)
    requires Spares(s) && Conserved(s)
    ensures Conserved(Step(s, a))
  {
    if Enabled(s, a) {
      match a
      case Append(line, blank) => AppendConserves(s, line, blank);
      case Stop =>
      case TestRunning =>
      case Lock => if s.buffers != [] { SwapConserves(s); }
      case WakeUp => SwapConserves(s);
      case Work => WorkConserves(s);
    }
  }

  // ---- Main results -----------------------------------------------------------

  ghost predicate Inv(s: State) {
    Spares(s) && Owned(s) && Conserved(s)
  }

  /**
   * Every run from the start keeps the spare-buffer protocol (so no null buffer is
   * used and neither assert fails, and no buffer has two owners) and loses no byte:
   * the accepted bytes are those of the batches swapped out, then what still waits.
   */
  lemma {:induction false} EveryRun(s: State, actions: seq<Action>)
    requires Inv(s)
    ensures Inv(Run(s, actions))
    decreases actions
  {
    if actions != [] {
      StepKeepsInv(s, actions[0]);
      EveryRun(Step(s, actions[0]), actions[1..]);
    }
  }

  predicate Distinct(a: Id, b: Id, c: Id, d: Id) {
    a != b && a != c && a != d && b != c && b != d && c != d
  }

  lemma InitialHolds(a: Id, b: Id, c: Id, d: Id)
    requires Distinct(a, b, c, d)
    ensures Inv(Initial(a, b, c, d))
  {
    var s := Initial(a, b, c, d);
    assert OwnedIds(s) == multiset{a, b, c, d};
  }

  /** The text of the log file. */
  function DropNotice(n: nat): string {
    "Dropped log messages , " + Printing.Decimal(n) + " larger buffers\n"
  }

  /** The number in the notice is the number of buffers dropped. */
  lemma NoticeReadsBack(n: nat)
    ensures var text := DropNotice(n);
            |text| > 39 && text[..23] == "Dropped log messages , " && text[|text| - 16..] == " larger buffers\n"
    ensures var text := DropNotice(n);
            Printing.Parse(text[23..|text| - 16]) == Some(n)
  {
    var text := DropNotice(n);
    Printing.DecimalExact(Printing.Decimal(n), n);
    assert text[23..|text| - 16] == Printing.Decimal(n);
    assert |Printing.Decimal(n)| > 0;
  }

  function FileText(chunks: seq<Chunk>): seq<char> {
    if chunks == [] then []
    else ChunkText(chunks[0]) + FileText(chunks[1..])
  }

  function ChunkText(chunk: Chunk): seq<char> {
    match chunk
    case Notice(n) => DropNotice(n)
    case Piece(data) => data
  }

  lemma {:induction false} FileTextConcat(a: seq<Chunk>, b: seq<Chunk>)
    ensures FileText(a + b) == FileText(a) + FileText(b)
  {
    if a == [] {
      assert a + b == b;
    } else {
      FileTextConcat(a[1..], b);
      assert (a + b)[1..] == a[1..] + b;
      Associate(ChunkText(a[0]), FileText(a[1..]), FileText(b));
    }
  }

  lemma {:induction false} PiecesText(datas: seq<seq<char>>)
    ensures FileText(Pieces(datas)) == Flatten(datas)
  {
    if datas != [] {
      PiecesText(datas[1..]);
      assert Pieces(datas)[1..] == Pieces(datas[1..]);
    }
  }

  predicate NothingDropped(batches: seq<seq<seq<char>>>) {
    forall batch :: batch in batches ==> |batch| <= MAX_BATCH
  }

  lemma {:induction false} NoDropTextIsAll(batches: seq<seq<seq<char>>>)
    requires NothingDropped(batches)
    ensures FileText(RenderedAll(batches)) == BatchBytes(batches)
  {
    if batches != [] {
      var last := |batches| - 1;
      assert batches[last] in batches;
      NoDropTextIsAll(batches[..last]);
      FileTextConcat(RenderedAll(batches[..last]), Rendered(batches[last]));
      PiecesText(batches[last]);
    }
  }

  // ---- What the file lacks after Stop ------------------------------------------

  /** The back end has locked or is about to lock, so it swaps once more before it sees running_. */
  predicate SwapAhead(s: State) { s.phase == Entering || s.phase == Waiting }

  /** No batch was over the limit, and the one still to be swapped out will not be. */
  predicate Dropless(s: State) {
    NothingDropped(s.batches) && (SwapAhead(s) ==> |s.buffers| < MAX_BATCH)
  }

  /** What no later swap will fetch, if nothing more is logged. */
  function Stranded(s: State): seq<char> {
    if SwapAhead(s) then [] else Unswapped(s)
  }

  /** All batches there will be, if nothing more is logged. */
  function AllBatches(s: State): seq<seq<seq<char>>> {
    s.batches + if SwapAhead(s) && s.current.Some? then [Datas(s.buffers + [s.current.value])] else []
  }

  lemma StopStep(s: State, a: Action)
    requires Spares(s) && !s.running && !a.Append?
    ensures var t := Step(s, a);
            !t.running && t.accepted == s.accepted && Stranded(t) == Stranded(s) && AllBatches(t) == AllBatches(s)
  {
    var t := Step(s, a);
    if SwapAhead(s) && !SwapAhead(t) {
      assert t.buffers == [] && t.current.value.data == [];
      assert Flatten(Datas(t.buffers)) == [];
    }
  }

  lemma {:induction false} StopRun(s: State, actions: seq<Action>)
    requires Inv(s) && !s.running && forall a :: a in actions ==> !a.Append?
    ensures var t := Run(s, actions);
            Inv(t) && t.accepted == s.accepted && Stranded(t) == Stranded(s) && AllBatches(t) == AllBatches(s)
    decreases actions
  {
    if actions != [] {
      assert actions[0] in actions && forall a :: a in actions[1..] ==> a in actions;
      StepKeepsInv(s, actions[0]);
      StopStep(s, actions[0]);
      StopRun(Step(s, actions[0]), actions[1..]);
    }
  }

  /**
   * The back end leaves its loop without a last swap.  From any state in which Stop has
   * cleared running_, with nothing logged afterwards, the file ends up as the rendering
   * of all batches, the one still ahead included; what no swap fetches is lost.
   */
  lemma {:induction false} FileAtExit(s: State, actions: seq<Action>)
    requires Inv(s) && !s.running
    requires forall a :: a in actions ==> !a.Append?
    requires Run(s, actions).phase == Exited
    ensures Run(s, actions).output == RenderedAll(AllBatches(s))
    ensures s.accepted == BatchBytes(AllBatches(s)) + Stranded(s)
  {
    StopRun(s, actions);
    var t := Run(s, actions);
    assert AllBatches(t) == t.batches;
  }

  /**
   * So, with no batch dropped, the file holds every accepted byte if and only if the back
   * end had a swap ahead of it or nothing was waiting; and what it lacks otherwise is
   * exactly what was waiting at Stop.
   */
  lemma {:induction false} AtExit(s: State, actions: seq<Action>)
    requires Inv(s) && !s.running && Dropless(s)
    requires forall a :: a in actions ==> !a.Append?
    requires Run(s, actions).phase == Exited
    ensures FileText(Run(s, actions).output) == s.accepted <==> SwapAhead(s) || Unswapped(s) == []
    ensures s.accepted == FileText(Run(s, actions).output) + if SwapAhead(s) then [] else Unswapped(s)
  {
    FileAtExit(s, actions);
    NoDropTextIsAll(AllBatches(s));
  }

  /**
   * With front ends still logging after Stop: once no swap is ahead, none of what they
   * log reaches the file, whatever else happens.
   */
  lemma {:induction false} LateLinesAreLost(s: State, actions: seq<Action>) returns (late: seq<char>)
    requires Inv(s) && !s.running && !SwapAhead(s)
    ensures var t := Run(s, actions);
            && t.accepted == s.accepted + late && Unswapped(t) == Unswapped(s) + late
            && t.batches == s.batches && (t.phase == Exited ==> t.output == RenderedAll(s.batches))
    decreases actions
  {
    if actions == [] {
      late := [];
      AppendNothing(s.accepted);
      AppendNothing(Unswapped(s));
    } else {
      var t := Step(s, actions[0]);
      StepKeepsInv(s, actions[0]);
      var first := LateStep(s, actions[0]);
      var rest := LateLinesAreLost(t, actions[1..]);
      late := first + rest;
      Associate(s.accepted, first, rest);
      Associate(Unswapped(s), first, rest);
    }
  }

  lemma AppendNothing(a: seq<char>)
    ensures a + [] == a
  {
  }

  lemma LateStep(s: State, a: Action) returns (late: seq<char>)
    requires Inv(s) && !s.running && !SwapAhead(s)
    ensures var t := Step(s, a);
            && !t.running && !SwapAhead(t) && t.batches == s.batches
            && t.accepted == s.accepted + late && Unswapped(t) == Unswapped(s) + late
  {
    if a.Append? && Enabled(s, a) {
      late := LateAppend(s, a.line, a.blank);
    } else {
      late := [];
      LateQuiet(s, a);
      AppendNothing(s.accepted);
      AppendNothing(Unswapped(s));
    }
  }

  lemma LateQuiet(s: State, a: Action)
    requires Spares(s) && !s.running && !SwapAhead(s) && (a.Append? ==> !Enabled(s, a))
    ensures var t := Step(s, a);
            && !t.running && !SwapAhead(t) && t.batches == s.batches
            && t.accepted == s.accepted && t.buffers == s.buffers && t.current == s.current
  {
  }

  lemma LateAppend(s: State, line: seq<char>, blank: Id) returns (late: seq<char>)
    requires Spares(s) && Conserved(s)
    ensures var t := AppendStep(s, line, blank);
            && t.running == s.running && t.phase == s.phase && t.batches == s.batches
            && t.accepted == s.accepted + late && Unswapped(t) == Unswapped(s) + late
  {
    late := if |line| < LARGE_BUFFER then line else [];
    if Overflows(s, line) {
      OverflowUnswapped(s, line, blank);
    } else {
      TakenUnswapped(s, line, blank);
    }
  }

  /** It happens: a line logged while the back end is between two rounds, then Stop. */
  lemma LastLineIsLost(a: Id, b: Id, c: Id, d: Id, line: seq<char>)
    requires Distinct(a, b, c, d) && 0 < |line| < LARGE_BUFFER
    ensures var t := Run(Initial(a, b, c, d), [Append(line, a), Stop, TestRunning]);
            t.phase == Exited && t.accepted == line && FileText(t.output) == []
  {
    var s := Initial(a, b, c, d);
    var s1 := Step(s, Append(line, a));
    assert [] + line == line;
    assert s1.accepted == line && s1.phase == Head && s1.output == [] && !s1.failed;
    RunConcat(s, [Append(line, a)], [Stop, TestRunning]);
    RunConcat(s1, [Stop], [TestRunning]);
    RunOne(s, Append(line, a));
    RunOne(s1, Stop);
    RunOne(Step(s1, Stop), TestRunning);
    assert [Append(line, a)] + [Stop, TestRunning] == [Append(line, a), Stop, TestRunning];
    assert [Stop] + [TestRunning] == [Stop, TestRunning];
  }

  // ---- Waiting and stopping -----------------------------------------------------

  /**
   * The back end begins to wait exactly when it locks with no full buffer queued, and
   * exits exactly on a test after Stop.
   */
  lemma PhaseMoves(s: State, a: Action)
    requires Spares(s)
    ensures s.phase != Waiting ==>
              (Step(s, a).phase == Waiting <==> a == Lock && s.phase == Entering && s.buffers == [])
    ensures s.phase != Exited ==>
              (Step(s, a).phase == Exited <==> a == TestRunning && s.phase == Head && !s.running)
  {
  }

  /** A front end can always log, before Stop and after; the allocator gives it a buffer nobody owns. */
  lemma MayAppend(s: State, line: seq<char>, blank: Id)
    requires Spares(s) && blank !in OwnedIds(s)
    ensures Enabled(s, Append(line, blank))
    ensures Step(s, Append(line, blank)).accepted == s.accepted + if |line| < LARGE_BUFFER then line else []
  {
  }

  /**
   * So it does not sleep on full buffers: from the test of running_ on, whatever the
   * front ends do, its lock takes all of them at once if there is one, and the current
   * buffer with them.
   */
  lemma FullBuffersGoOut(s: State, actions: seq<Action>)
    requires Spares(s) && s.phase == Entering && s.buffers != []
    requires forall a :: a in actions ==> !BackEnd(a)
    ensures var t := Run(s, actions);
            var u := Step(t, Lock);
            && u.phase == Writing && u.buffers == [] && s.buffers <= t.buffers <= u.toWrite
            && t.current.Some? && u.toWrite == t.buffers + [t.current.value]
  {
    FrontEndRun(s, actions);
  }

  lemma FrontEndStep(s: State, a: Action)
    requires Spares(s) && !BackEnd(a)
    ensures var t := Step(s, a);
            Spares(t) && t.phase == s.phase && s.buffers <= t.buffers
  {
    SparesKept(s, a);
  }

  /** Front ends queue buffers and take none. */
  lemma {:induction false} FrontEndRun(s: State, actions: seq<Action>)
    requires Spares(s) && forall a :: a in actions ==> !BackEnd(a)
    ensures var t := Run(s, actions);
            Spares(t) && t.phase == s.phase && s.buffers <= t.buffers
    decreases actions
  {
    if actions != [] {
      assert actions[0] in actions && forall a :: a in actions[1..] ==> a in actions;
      FrontEndStep(s, actions[0]);
      FrontEndRun(Step(s, actions[0]), actions[1..]);
    }
  }

  /** Once Stop has run, running_ is false for good, and the next test of it is the exit. */
  lemma StopStays(s: State, actions: seq<Action>)
    requires Spares(s)
    ensures var t := Run(Step(s, Stop), actions);
            !t.running && Spares(t) && (t.phase == Head ==> Step(t, TestRunning).phase == Exited)
  {
    SparesKept(s, Stop);
    StoppedRun(Step(s, Stop), actions);
  }

  lemma {:induction false} StoppedRun(s: State, actions: seq<Action>)
    requires Spares(s) && !s.running
    ensures var t := Run(s, actions);
            !t.running && Spares(t) && (t.phase == Head ==> Step(t, TestRunning).phase == Exited)
    decreases actions
  {
    if actions != [] {
      SparesKept(s, actions[0]);
      StopIsFinal(s, actions[0]);
      StoppedRun(Step(s, actions[0]), actions[1..]);
    }
  }

  /** A finished log line is always taken whole: it is shorter than any buffer the logger uses. */
  lemma LoggerLineIsTaken(s: State, items: seq<LogStreams.Item>, blank: Id)
    requires Inv(s)
    requires forall item :: item in items ==> LogStreams.WellTyped(item)
    requires Enabled(s, Append(LogStreams.Line("", items), blank))
    ensures var line := LogStreams.Line("", items);
            var t := Step(s, Append(line, blank));
            BatchBytes(t.batches) + Unswapped(t) == BatchBytes(s.batches) + Unswapped(s) + line
  {
    LogStreams.LineContent("", items);
    AppendConserves(s, LogStreams.Line("", items), blank);
  }

  /** Steps the back end has left once running_ is false. */
  function Remaining(p: Phase): nat {
    match p
    case Exited => 0
    case Head => 1
    case Writing => 2
    case Waiting => 3
    case Entering => 4
  }

  predicate BackEnd(a: Action) {
    a.TestRunning? || a.Lock? || a.WakeUp? || a.Work?
  }

  /** After Stop every back-end step, timed wait included, brings the exit nearer; nothing else delays it. */
  lemma StopIsFinal(s: State, a: Action)
    requires Spares(s) && !s.running
    ensures !Step(s, a).running
    ensures Remaining(Step(s, a).phase) <= Remaining(s.phase)
    ensures BackEnd(a) && Enabled(s, a) ==> Remaining(Step(s, a).phase) < Remaining(s.phase)
  {
  }

  function BackEndSteps(s: State, actions: seq<Action>): nat
    decreases actions
  {
    if actions == [] then 0
    else (if BackEnd(actions[0]) && Enabled(s, actions[0]) then 1 else 0) +
         BackEndSteps(Step(s, actions[0]), actions[1..])
  }

  /** The back end is never stuck: the wait is timed. */
  lemma NeverStuck(s: State)
    requires s.phase != Exited
    ensures exists a :: BackEnd(a) && Enabled(s, a)
  {
    var a := match s.phase
      case Head => TestRunning
      case Entering => Lock
      case Waiting => WakeUp
      case _ => Work;
    assert BackEnd(a) && Enabled(s, a);
  }

  lemma StepKeepsInv(s: State, a: Action)
    requires Inv(s)
    ensures Inv(Step(s, a))
  {
    SparesKept(s, a);
    OwnedKept(s, a);
    ConservedKept(s, a);
  }

  /** So the join in Stop waits for at most four back-end steps, whatever the front ends do meanwhile. */
  lemma {:induction false} StopTerminates(s: State, actions: seq<Action>)
    requires Spares(s) && !s.running
    ensures BackEndSteps(s, actions) + Remaining(Run(s, actions).phase) <= Remaining(s.phase)
    decreases actions
  {
    if actions != [] {
      SparesKept(s, actions[0]);
      StopIsFinal(s, actions[0]);
      StopTerminates(Step(s, actions[0]), actions[1..]);
    }
  }
}
