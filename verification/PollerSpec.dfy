/**
 * The index kept by framework/net/src/Poller.cpp: a dense array of poll slots, a
 * map from fd to channel, and in each channel the position of its slot.  Here a
 * registered channel is its interest set and its back-pointer.
 */
module PollerSpec {
  import opened Common

  /** struct pollfd. */
  datatype Slot = Slot(fd: int, events: bv16, revents: int)

  datatype Entry = Entry(interest: bv16, index: int)

  datatype Index = Index(slots: seq<Slot>, channels: map<int, Entry>)

  /** `-fd - 1` mutes a slot and is its own inverse. */
  function Flip(fd: int): int { -fd - 1 }

  function Decode(fd: int): int { if fd < 0 then Flip(fd) else fd }

  function Encode(fd: int, interest: bv16): int { if interest == 0 then Flip(fd) else fd }

  // ---- The invariant ----------------------------------------------------------

  /** The slot a registered channel points at is its own. */
  predicate EntryAgrees(x: Index, fd: int)
    requires fd in x.channels
  {
    var e := x.channels[fd];
    && 0 <= fd && 0 <= e.index < |x.slots|
    && var slot := x.slots[e.index];
       Decode(slot.fd) == fd && slot.events == e.interest && (slot.fd < 0 ==> e.interest == 0)
  }

  /** The channel a slot decodes to is registered and points back. */
  predicate SlotAgrees(x: Index, i: nat)
    requires i < |x.slots|
  {
    var fd := Decode(x.slots[i].fd);
    fd in x.channels && x.channels[fd].index == i
  }

  ghost predicate Agrees(x: Index) {
    && (forall fd :: fd in x.channels ==> EntryAgrees(x, fd))
    && (forall i :: 0 <= i < |x.slots| ==> SlotAgrees(x, i))
  }

  // ---- Operations -------------------------------------------------------------

  function Register(x: Index, fd: int, interest: bv16): Index {
    Index(x.slots + [Slot(fd, interest, 0)], x.channels[fd := Entry(interest, |x.slots|)])
  }

  function Modify(x: Index, fd: int, interest: bv16): Index
    requires fd in x.channels && 0 <= x.channels[fd].index < |x.slots|
  {
    var i := x.channels[fd].index;
    Index(x.slots[i := Slot(Encode(fd, interest), interest, 0)], x.channels[fd := Entry(interest, i)])
  }

  /** What UpdateChannel does to the slots when the poller does not hold the channel. */
  function StaleUpdate(x: Index, index: int, fd: int, interest: bv16): Index
    requires 0 <= index < |x.slots|
  {
    x.(slots := x.slots[index := Slot(Encode(fd, interest), interest, 0)])
  }

  /** UpdateChannel, for any channel whose position is no further than the slots. */
  function Update(x: Index, fd: int, index: int, interest: bv16, held: bool): Index
    requires index < |x.slots|
    requires held ==> fd in x.channels && x.channels[fd].index == index
  {
    if index < 0 then Register(x, fd, interest)
    else if held then Modify(x, fd, interest)
    else StaleUpdate(x, index, fd, interest)
  }

  /**
   * RemoveChannel, for any channel whose position is in the slots.  None is the null
   * pointer the map gives for an fd it does not know.
   */
  function Remove(x: Index, fd: int, i: int): Option<Index>
    requires 0 <= i < |x.slots|
  {
    var last := |x.slots| - 1;
    var rest := x.channels - {fd};
    if i == last then Some(Index(x.slots[..last], rest))
    else
      var moved := Decode(x.slots[last].fd);
      if moved !in rest then None
      else Some(Index(x.slots[i := x.slots[last]][..last], rest[moved := rest[moved].(index := i)]))
  }

  /** poll() writes non-negative revents, and none for a muted slot (POSIX.1-2017, poll()). */
  predicate KernelWrote(slots: seq<Slot>) {
    forall i :: 0 <= i < |slots| ==> slots[i].revents >= 0 && (slots[i].fd < 0 ==> slots[i].revents == 0)
  }

  function Polled(x: Index, revents: seq<int>): Index
    requires |revents| == |x.slots|
  {
    x.(slots := seq(|x.slots|, i requires 0 <= i < |x.slots| => x.slots[i].(revents := revents[i])))
  }

  lemma RegisterKeeps(x: Index, fd: int, interest: bv16)
    requires Agrees(x) && fd >= 0 && fd !in x.channels
    ensures Agrees(Register(x, fd, interest))
  {
    var y := Register(x, fd, interest);
    forall g | g in y.channels ensures EntryAgrees(y, g) {
      if g != fd { assert EntryAgrees(x, g); }
    }
    forall i | 0 <= i < |y.slots| ensures SlotAgrees(y, i) {
      if i < |x.slots| { assert SlotAgrees(x, i); }
    }
  }

  lemma ModifyKeeps(x: Index, fd: int, interest: bv16)
    requires Agrees(x) && fd in x.channels
    ensures EntryAgrees(x, fd) && Agrees(Modify(x, fd, interest))
    ensures Modify(x, fd, interest).slots[x.channels[fd].index] ==
            Slot(if interest == 0 then -fd - 1 else fd, interest, 0)
  {
    assert EntryAgrees(x, fd);
    var y := Modify(x, fd, interest);
    forall g | g in y.channels ensures EntryAgrees(y, g) {
      assert EntryAgrees(x, g);
    }
    forall i | 0 <= i < |y.slots| ensures SlotAgrees(y, i) {
      assert SlotAgrees(x, i);
    }
  }

  lemma RemoveKeeps(x: Index, fd: int)
    requires Agrees(x) && fd in x.channels
    ensures 0 <= x.channels[fd].index < |x.slots| && Remove(x, fd, x.channels[fd].index).Some?
    ensures var y := Remove(x, fd, x.channels[fd].index).value;
            Agrees(y) && y.channels.Keys == x.channels.Keys - {fd}
  {
    assert EntryAgrees(x, fd) && SlotAgrees(x, |x.slots| - 1);
    var i, last := x.channels[fd].index, |x.slots| - 1;
    var y := Remove(x, fd, i).value;
    forall g | g in y.channels ensures EntryAgrees(y, g) {
      assert EntryAgrees(x, g) && g != fd;
    }
    forall k | 0 <= k < |y.slots| ensures SlotAgrees(y, k) {
      assert SlotAgrees(x, if k == i then last else k);
    }
  }

  // ---- Exactly which calls keep the agreement -----------------------------------

  /** A channel the poller may be given: a fresh one with a fresh fd, or a registered one. */
  predicate Accepts(x: Index, fd: int, index: int, interest: bv16, held: bool) {
    if index < 0 then fd >= 0 && fd !in x.channels
    else held || (fd in x.channels && x.channels[fd] == Entry(interest, index))
  }

  /** Registering keeps the agreement only for an fd the map does not know. */
  lemma RegisterExactly(x: Index, fd: int, interest: bv16)
    requires Agrees(x)
    ensures Agrees(Register(x, fd, interest)) <==> fd >= 0 && fd !in x.channels
  {
    var y := Register(x, fd, interest);
    if fd < 0 {
      assert !EntryAgrees(y, fd);
    } else if fd in x.channels {
      assert EntryAgrees(x, fd);
      assert !SlotAgrees(y, x.channels[fd].index);
    } else {
      RegisterKeeps(x, fd, interest);
    }
  }

  /** A channel the poller does not hold may only rewrite a slot with what is there. */
  lemma StaleUpdateExactly(x: Index, fd: int, index: int, interest: bv16)
    requires Agrees(x) && 0 <= index < |x.slots| && fd >= 0
    ensures Agrees(StaleUpdate(x, index, fd, interest)) <==>
            fd in x.channels && x.channels[fd] == Entry(interest, index)
  {
    var y := StaleUpdate(x, index, fd, interest);
    if Agrees(y) {
      assert SlotAgrees(y, index) && EntryAgrees(y, fd);
    }
    if fd in x.channels && x.channels[fd] == Entry(interest, index) {
      forall g | g in y.channels ensures EntryAgrees(y, g) { assert EntryAgrees(x, g); }
      forall k | 0 <= k < |y.slots| ensures SlotAgrees(y, k) { assert SlotAgrees(x, k); }
    }
  }

  /** Any update at all, from a state of agreement. */
  lemma UpdateExactly(x: Index, fd: int, index: int, interest: bv16, held: bool)
    requires Agrees(x) && index < |x.slots| && (index >= 0 ==> fd >= 0)
    requires held ==> fd in x.channels && x.channels[fd].index == index
    ensures Agrees(Update(x, fd, index, interest, held)) <==> Accepts(x, fd, index, interest, held)
  {
    if index < 0 {
      RegisterExactly(x, fd, interest);
    } else if held {
      ModifyKeeps(x, fd, interest);
    } else {
      StaleUpdateExactly(x, fd, index, interest);
    }
  }

  /** Any removal: it keeps the agreement only for the fd whose slot it is. */
  lemma RemoveExactly(x: Index, fd: int, i: int)
    requires Agrees(x) && 0 <= i < |x.slots|
    ensures var y := Remove(x, fd, i);
            y.Some? && Agrees(y.value) <==> fd in x.channels && x.channels[fd].index == i
  {
    if fd in x.channels && x.channels[fd].index == i {
      RemoveKeeps(x, fd);
    } else {
      var g := Decode(x.slots[i].fd);
      assert SlotAgrees(x, i) && SlotAgrees(x, |x.slots| - 1);
      assert g in x.channels - {fd};
      if y :| Remove(x, fd, i) == Some(y) {
        assert !EntryAgrees(y, g);
      }
    }
  }

  // ---- Runs -------------------------------------------------------------------

  datatype Op =
    | Add(fd: int, interest: bv16)     // first update of a channel, with a fresh fd
    | Change(fd: int, interest: bv16)  // update of a registered channel
    | Drop(fd: int)                    // removal of a registered channel
    | Poll(revents: seq<int>)

  predicate Legal(x: Index, op: Op) {
    match op
    case Add(fd, _) => fd >= 0 && fd !in x.channels
    case Change(fd, _) => fd in x.channels
    case Drop(fd) => fd in x.channels
    case Poll(revents) => |revents| == |x.slots| && KernelWrote(Polled(x, revents).slots)
  }

  ghost function Step(x: Index, op: Op): (y: Index)
    requires Agrees(x)
    ensures Agrees(y)
  {
    if !Legal(x, op) then x
    else
      match op
      case Add(fd, interest) => RegisterKeeps(x, fd, interest); Register(x, fd, interest)
      case Change(fd, interest) => ModifyKeeps(x, fd, interest); Modify(x, fd, interest)
      case Drop(fd) => RemoveKeeps(x, fd); Remove(x, fd, x.channels[fd].index).value
      case Poll(revents) => PolledKeeps(x, revents); Polled(x, revents)
  }

  lemma PolledKeeps(x: Index, revents: seq<int>)
    requires Agrees(x) && |revents| == |x.slots|
    ensures Agrees(Polled(x, revents))
  {
    var y := Polled(x, revents);
    forall g | g in y.channels ensures EntryAgrees(y, g) { assert EntryAgrees(x, g); }
    forall i | 0 <= i < |y.slots| ensures SlotAgrees(y, i) { assert SlotAgrees(x, i); }
  }

  ghost function Run(x: Index, ops: seq<Op>): (y: Index)
    requires Agrees(x)
    ensures Agrees(y)
    decreases ops
  {
    if ops == [] then x else Run(Step(x, ops[0]), ops[1..])
  }

  // ---- What the index stands for ------------------------------------------------

  /** What the poller watches an fd for.  Only an update mutes: a registration without interest does not. */
  datatype Watch = Watch(interest: bv16, muted: bool)

  /** The operations on a plain map from fd to interest. */
  function WatchStep(m: map<int, Watch>, op: Op): map<int, Watch> {
    match op
    case Add(fd, interest) => if fd >= 0 && fd !in m then m[fd := Watch(interest, false)] else m
    case Change(fd, interest) => if fd in m then m[fd := Watch(interest, interest == 0)] else m
    case Drop(fd) => m - {fd}
    case Poll(_) => m
  }

  function WatchRun(m: map<int, Watch>, ops: seq<Op>): map<int, Watch>
    decreases ops
  {
    if ops == [] then m else WatchRun(WatchStep(m, ops[0]), ops[1..])
  }

  /** The slot poll is given for `fd`: its events, and `-fd - 1` in place of a muted fd. */
  predicate SlotShows(x: Index, fd: int, w: Watch)
    requires fd in x.channels
  {
    var e := x.channels[fd];
    && e.interest == w.interest && 0 <= e.index < |x.slots|
    && x.slots[e.index].fd == (if w.muted then -fd - 1 else fd) && x.slots[e.index].events == w.interest
  }

  ghost predicate Shows(x: Index, m: map<int, Watch>) {
    x.channels.Keys == m.Keys && forall fd :: fd in m ==> SlotShows(x, fd, m[fd])
  }

  lemma RegisterShows(x: Index, fd: int, interest: bv16, m: map<int, Watch>)
    requires Agrees(x) && Shows(x, m) && fd !in m
    ensures Shows(Register(x, fd, interest), m[fd := Watch(interest, false)])
  {
    var y := Register(x, fd, interest);
    forall g | g in m
      ensures SlotShows(y, g, m[g])
    {
      assert SlotShows(x, g, m[g]);
    }
  }

  lemma ModifyShows(x: Index, fd: int, interest: bv16, m: map<int, Watch>)
    requires Agrees(x) && Shows(x, m) && fd in m
    ensures EntryAgrees(x, fd) && Shows(Modify(x, fd, interest), m[fd := Watch(interest, interest == 0)])
  {
    assert EntryAgrees(x, fd);
    var y := Modify(x, fd, interest);
    forall g | g in m && g != fd
      ensures SlotShows(y, g, m[g])
    {
      assert SlotShows(x, g, m[g]) && EntryAgrees(x, g);
    }
  }

  lemma PolledShows(x: Index, revents: seq<int>, m: map<int, Watch>)
    requires Shows(x, m) && |revents| == |x.slots|
    ensures Shows(Polled(x, revents), m)
  {
    var y := Polled(x, revents);
    forall g | g in m
      ensures SlotShows(y, g, m[g])
    {
      assert SlotShows(x, g, m[g]);
    }
  }

  lemma RemoveShows(x: Index, fd: int, m: map<int, Watch>)
    requires Agrees(x) && Shows(x, m) && fd in x.channels
    requires 0 <= x.channels[fd].index < |x.slots| && Remove(x, fd, x.channels[fd].index).Some?
    ensures Shows(Remove(x, fd, x.channels[fd].index).value, m - {fd})
  {
    var y := Remove(x, fd, x.channels[fd].index).value;
    var last := |x.slots| - 1;
    assert EntryAgrees(x, fd) && SlotAgrees(x, last);
    forall g | g in m - {fd}
      ensures SlotShows(y, g, m[g])
    {
      assert SlotShows(x, g, m[g]) && EntryAgrees(x, g);
    }
  }

  lemma StepShows(x: Index, op: Op, m: map<int, Watch>)
    requires Agrees(x) && Shows(x, m)
    ensures Shows(Step(x, op), WatchStep(m, op))
  {
    match op
    case Add(fd, interest) => if fd !in m { RegisterShows(x, fd, interest, m); }
    case Change(fd, interest) => if fd in m { ModifyShows(x, fd, interest, m); }
    case Drop(fd) =>
      if fd in m {
        RemoveKeeps(x, fd);
        RemoveShows(x, fd, m);
      } else {
        assert m - {fd} == m;
      }
    case Poll(revents) => if Legal(x, op) { PolledShows(x, revents, m); }
  }

  predicate HasSlot(x: Index, fd: int) {
    exists i :: 0 <= i < |x.slots| && Decode(x.slots[i].fd) == fd
  }

  /** The fds registered are those some slot is for. */
  lemma SlotForEach(x: Index, fd: int, m: map<int, Watch>)
    requires Agrees(x) && Shows(x, m)
    ensures fd in m <==> HasSlot(x, fd)
  {
    assert fd in x.channels.Keys <==> fd in m.Keys;
    if fd in x.channels {
      assert EntryAgrees(x, fd);
      assert Decode(x.slots[x.channels[fd].index].fd) == fd;
    }
    if i :| 0 <= i < |x.slots| && Decode(x.slots[i].fd) == fd {
      assert SlotAgrees(x, i);
    }
  }

  lemma {:induction false} RunShows(x: Index, ops: seq<Op>, m: map<int, Watch>)
    requires Agrees(x) && Shows(x, m)
    ensures Agrees(Run(x, ops)) && Shows(Run(x, ops), WatchRun(m, ops))
    decreases ops
  {
    if ops != [] {
      StepShows(x, ops[0], m);
      RunShows(Step(x, ops[0]), ops[1..], WatchStep(m, ops[0]));
    }
  }

  /**
   * Any sequence of operations keeps the index in agreement, and the index stands for
   * the plain map: the same fds are registered, each has a slot, and each slot gives poll
   * the interest last set for its fd, or hides the fd if that interest was none.
   */
  lemma EveryRunAgrees(x: Index, ops: seq<Op>, m: map<int, Watch>)
    requires Agrees(x) && Shows(x, m)
    ensures Agrees(Run(x, ops)) && Shows(Run(x, ops), WatchRun(m, ops))
    ensures forall fd :: fd in WatchRun(m, ops) <==> HasSlot(Run(x, ops), fd)
  {
    RunShows(x, ops, m);
    forall fd
      ensures fd in WatchRun(m, ops) <==> HasSlot(Run(x, ops), fd)
    {
      SlotForEach(Run(x, ops), fd, WatchRun(m, ops));
    }
  }

  lemma StepKeepsKernel(x: Index, op: Op)
    requires Agrees(x) && KernelWrote(x.slots)
    ensures KernelWrote(Step(x, op).slots)
  {
    if op.Drop? && op.fd in x.channels {
      RemoveKeeps(x, op.fd);
    }
  }

  /** Any answer poll may give is a step: it sets the revents and nothing else. */
  lemma PollSetsRevents(x: Index, revents: seq<int>)
    requires Agrees(x) && |revents| == |x.slots|
    requires forall i :: 0 <= i < |revents| ==> revents[i] >= 0 && (x.slots[i].fd < 0 ==> revents[i] == 0)
    ensures var y := Step(x, Poll(revents));
            && y.channels == x.channels && |y.slots| == |x.slots|
            && forall i :: 0 <= i < |y.slots| ==> y.slots[i] == Slot(x.slots[i].fd, x.slots[i].events, revents[i])
  {
    assert KernelWrote(Polled(x, revents).slots);
  }

  predicate Touches(op: Op, fd: int) { (op.Change? || op.Drop?) && op.fd == fd }

  /** The slot of `fd` hides it from poll, and is not ready. */
  predicate Silent(x: Index, fd: int) {
    forall i :: 0 <= i < |x.slots| && Decode(x.slots[i].fd) == fd ==>
      x.slots[i].fd == -fd - 1 && x.slots[i].revents == 0
  }

  /** A channel without interest is left alone: until its fd is updated or removed, no poll makes its slot ready. */
  lemma MutedIsSilent(x: Index, fd: int, ops: seq<Op>, m: map<int, Watch>)
    requires Agrees(x) && Shows(x, m) && KernelWrote(x.slots) && fd in m
    requires forall op :: op in ops ==> !Touches(op, fd)
    ensures Silent(Run(Step(x, Change(fd, 0)), ops), fd)
  {
    var z := Step(x, Change(fd, 0));
    StepShows(x, Change(fd, 0), m);
    StepKeepsKernel(x, Change(fd, 0));
    StaysMuted(z, fd, ops, WatchStep(m, Change(fd, 0)));
  }

  lemma {:induction false} StaysMuted(x: Index, fd: int, ops: seq<Op>, m: map<int, Watch>)
    requires Agrees(x) && Shows(x, m) && KernelWrote(x.slots) && fd in m && m[fd].muted
    requires forall op :: op in ops ==> !Touches(op, fd)
    ensures Silent(Run(x, ops), fd)
    decreases ops
  {
    if ops == [] {
      forall i | 0 <= i < |x.slots| && Decode(x.slots[i].fd) == fd
        ensures x.slots[i].fd == -fd - 1 && x.slots[i].revents == 0
      {
        assert SlotAgrees(x, i) && EntryAgrees(x, fd) && SlotShows(x, fd, m[fd]);
      }
    } else {
      assert ops[0] in ops && forall op :: op in ops[1..] ==> op in ops;
      StepShows(x, ops[0], m);
      StepKeepsKernel(x, ops[0]);
      StaysMuted(Step(x, ops[0]), fd, ops[1..], WatchStep(m, ops[0]));
    }
  }

  // ---- After a removal ----------------------------------------------------------

  /**
   * RemoveChannel does not reset poll_index_.  Updating the channel afterwards, as
   * TcpConnection::HandleClose does, never keeps the index: either its slot was
   * the last and the write is past the end, or it takes over another's slot.
   * Removing it once more breaks the index too, or meets a null pointer.
   */
  lemma StaleUseBreaks(x: Index, fd: int, interest: bv16)
    requires Agrees(x) && fd in x.channels
    ensures var i := x.channels[fd].index;
            && 0 <= i < |x.slots| && Remove(x, fd, i).Some?
            && var y := Remove(x, fd, i).value;
               if i == |x.slots| - 1 then i >= |y.slots|
               else
                 && i < |y.slots| && !Agrees(StaleUpdate(y, i, fd, interest))
                 && !(Remove(y, fd, i).Some? && Agrees(Remove(y, fd, i).value))
  {
    RemoveKeeps(x, fd);
    assert EntryAgrees(x, fd);
    var i := x.channels[fd].index;
    var y := Remove(x, fd, i).value;
    if i < |y.slots| {
      StaleUpdateExactly(y, fd, i, interest);
      RemoveExactly(y, fd, i);
    }
  }

  // ---- Scanning for ready slots -----------------------------------------------

  /** The ready slots, in slot order. */
  function Ready(slots: seq<Slot>): seq<Slot> {
    if slots == [] then []
    else (if slots[0].revents > 0 then [slots[0]] else []) + Ready(slots[1..])
  }

  /** The scan of FillActiveChannels, which stops after `n` ready slots. */
  function Scan(slots: seq<Slot>, n: int): seq<Slot> {
    if slots == [] || n <= 0 then []
    else if slots[0].revents > 0 then [slots[0]] + Scan(slots[1..], n - 1)
    else Scan(slots[1..], n)
  }

  /** `found` are the ready slots before `i`, and `left` more are looked for. */
  predicate Scanned(slots: seq<Slot>, n: int, i: nat, left: int, found: seq<Slot>) {
    i <= |slots| && found + Scan(slots[i..], left) == Scan(slots, n)
  }

  lemma ScanBegins(slots: seq<Slot>, n: int)
    ensures Scanned(slots, n, 0, n, [])
  {
    assert slots[0..] == slots;
  }

  lemma ScanStep(slots: seq<Slot>, n: int, i: nat, left: int, found: seq<Slot>)
    requires Scanned(slots, n, i, left, found) && i < |slots| && left > 0
    ensures if slots[i].revents > 0 then Scanned(slots, n, i + 1, left - 1, found + [slots[i]])
            else Scanned(slots, n, i + 1, left, found)
  {
    assert slots[i..][1..] == slots[i + 1..];
    if slots[i].revents > 0 {
      var rest := Scan(slots[i + 1..], left - 1);
      assert (found + [slots[i]]) + rest == found + ([slots[i]] + rest);
    }
  }

  lemma ScanEnds(slots: seq<Slot>, n: int, i: nat, left: int, found: seq<Slot>)
    requires Scanned(slots, n, i, left, found) && (i == |slots| || left <= 0)
    ensures found == Scan(slots, n)
  {
  }

  /** The early exit finds the first `n` ready slots; with the count poll returned, all of them. */
  lemma {:induction false} ScanIsPrefix(slots: seq<Slot>, n: int)
    ensures Scan(slots, n) == if n <= 0 then [] else if n <= |Ready(slots)| then Ready(slots)[..n] else Ready(slots)
  {
    if slots != [] && n > 0 {
      var rest := Ready(slots[1..]);
      if slots[0].revents > 0 {
        ScanIsPrefix(slots[1..], n - 1);
        assert ([slots[0]] + rest)[..1] == [slots[0]];
        if n - 1 <= |rest| {
          assert ([slots[0]] + rest)[..n] == [slots[0]] + rest[..n - 1];
        }
      } else {
        ScanIsPrefix(slots[1..], n);
        assert Ready(slots) == rest;
      }
    }
  }

  /** Every ready slot belongs to a registered channel, so the lookup by its fd succeeds. */
  lemma ReadyIsRegistered(x: Index, i: nat)
    requires Agrees(x) && KernelWrote(x.slots) && i < |x.slots| && x.slots[i].revents > 0
    ensures x.slots[i].fd in x.channels && x.channels[x.slots[i].fd].index == i
  {
    assert SlotAgrees(x, i);
  }
}
