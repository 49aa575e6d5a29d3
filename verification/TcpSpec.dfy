/**
 * The send and shutdown path of framework/net/src/TcpConnection.cpp as a state
 * machine.  The poller is reduced to the channel's interest flags, the socket to
 * the bytes on the wire and a half-close flag, and write(2) to its result.
 * Callbacks are recorded, not run: they are taken not to re-enter the connection.
 */
module TcpSpec {
  import opened Common
  import opened Endian

  datatype Status = CONNECTING | CONNECTED | DISCONNECTING | DISCONNECTED

  const EAGAIN := 11

  /** write(2): a count no larger than what it was given, or -1 and an errno. */
  datatype WriteResult = Wrote(n: nat) | Failed(errno: int)

  datatype Event = WriteComplete | HighWater(backlog: nat) | ConnectionChanged | Closed

  /** The connection proper, as the loop thread sees it. */
  datatype Core = Core(
    status: Status,
    reading: bool,             // channel interest
    writing: bool,
    output: seq<byte>,         // readable bytes of output_buffer_
    wire: seq<byte>,           // bytes the socket took
    shut: bool,                // SHUT_WR was issued
    late: bool,                // a write was attempted after SHUT_WR
    accepted: seq<seq<byte>>,  // history: the messages SendInLoop took
    events: seq<Event>)

  /** Tasks other threads queue for the loop thread. */
  datatype Task = SendTask(message: seq<byte>) | ShutdownTask | ForceCloseTask

  /**
   * Other threads in the middle of a call: `toSend` are the messages whose status check is
   * done; `toShut` and `toClose` count threads between the status check and the
   * assignment, `shutting` and `closing` those between the assignment and the queueing.
   */
  datatype State = State(core: Core, tasks: seq<Task>, toSend: multiset<seq<byte>>,
                         toShut: nat, shutting: nat, toClose: nat, closing: nat)

  /** No other thread is calling, and nothing is queued. */
  function Alone(c: Core): State { State(c, [], multiset{}, 0, 0, 0, 0) }

  // ---- Steps of the loop thread -----------------------------------------------

  function Written(c: Core, bytes: seq<byte>): Core {
    c.(wire := c.wire + bytes, late := c.late || c.shut)
  }

  predicate Plausible(r: WriteResult, len: nat) { r.Wrote? ==> r.n <= len }

  /** SendInLoop tries the socket only when nothing is queued before the message. */
  predicate TriesSocket(c: Core) {
    c.status != DISCONNECTED && !c.writing && c.output == []
  }

  function SendInLoop(c: Core, message: seq<byte>, r: WriteResult, mark: nat): Core
    requires Plausible(r, |message|)
  {
    if !TriesSocket(c) then c
    else if r.Failed? then Written(c, [])
    else
      var w := Written(c, message[..r.n]).(accepted := c.accepted + [message]);
      var remaining := |message| - r.n;
      if remaining == 0 then w.(events := c.events + [WriteComplete])
      else
        w.(events := c.events + (if remaining >= mark then [HighWater(remaining)] else []),
           output := c.output + message[r.n..], writing := true)
  }

  function ShutdownInLoop(c: Core): Core {
    if c.writing then c else c.(shut := true)
  }

  function HandleWrite(c: Core, r: WriteResult): Core
    requires Plausible(r, |c.output|)
  {
    if !c.writing then c
    else if r.Failed? || r.n == 0 then Written(c, [])
    else
      var w := Written(c, c.output[..r.n]).(output := c.output[r.n..]);
      if w.output != [] then w
      else
        var done := w.(writing := false, events := c.events + [WriteComplete]);
        if c.status == DISCONNECTING then ShutdownInLoop(done) else done
  }

  function ConnectDestroyed(c: Core): Core {
    if c.status != CONNECTED then c
    else c.(status := DISCONNECTED, reading := false, writing := false, events := c.events + [ConnectionChanged])
  }

  function HandleClose(c: Core): Core {
    var d := ConnectDestroyed(c);
    d.(status := DISCONNECTED, reading := false, writing := false, events := d.events + [ConnectionChanged, Closed])
  }

  function ForceCloseInLoop(c: Core): Core {
    if c.status == CONNECTED || c.status == DISCONNECTING then HandleClose(c) else c
  }

  // ---- Runs -------------------------------------------------------------------

  datatype Action =
    // the loop thread
    | Establish
    | Destroy
    | Send(message: seq<byte>, r: WriteResult)
    | Writable(r: WriteResult)
    | Close
    | Shutdown
    | ForceClose
    | RunTask(r: WriteResult)
    // other threads
    | CheckSend(message: seq<byte>)
    | PushSend(message: seq<byte>)
    | CheckShutdown
    | SetShutdown
    | PushShutdown
    | CheckForceClose
    | SetForceClose
    | PushForceClose

  function RunOne(c: Core, task: Task, r: WriteResult, mark: nat): Core {
    match task
    case SendTask(message) => if Plausible(r, |message|) then SendInLoop(c, message, r, mark) else c
    case ShutdownTask => ShutdownInLoop(c)
    case ForceCloseTask => ForceCloseInLoop(c)
  }

  function Step(s: State, a: Action, mark: nat): State {
    var c := s.core;
    match a
    case Establish =>
      if c.status == CONNECTING then
        s.(core := c.(status := CONNECTED, reading := true, events := c.events + [ConnectionChanged]))
      else s
    case Destroy => s.(core := ConnectDestroyed(c))
    case Send(message, r) =>
      if c.status == CONNECTED && Plausible(r, |message|) then s.(core := SendInLoop(c, message, r, mark)) else s
    case Writable(r) => if Plausible(r, |c.output|) then s.(core := HandleWrite(c, r)) else s
    case Close => s.(core := HandleClose(c))
    case Shutdown =>
      if c.status == CONNECTED then s.(core := ShutdownInLoop(c.(status := DISCONNECTING))) else s
    case ForceClose =>
      if c.status == CONNECTED || c.status == DISCONNECTING then
        s.(core := ForceCloseInLoop(c.(status := DISCONNECTING)))
      else s
    case RunTask(r) =>
      if s.tasks == [] then s else s.(core := RunOne(c, s.tasks[0], r, mark), tasks := s.tasks[1..])
    case CheckSend(message) => if c.status == CONNECTED then s.(toSend := s.toSend + multiset{message}) else s
    case PushSend(message) =>
      if message in s.toSend then s.(toSend := s.toSend - multiset{message}, tasks := s.tasks + [SendTask(message)])
      else s
    case CheckShutdown => if c.status == CONNECTED then s.(toShut := s.toShut + 1) else s
    case SetShutdown =>
      if s.toShut == 0 then s
      else s.(toShut := s.toShut - 1, core := c.(status := DISCONNECTING), shutting := s.shutting + 1)
    case PushShutdown =>
      if s.shutting == 0 then s else s.(shutting := s.shutting - 1, tasks := s.tasks + [ShutdownTask])
    case CheckForceClose =>
      if c.status == CONNECTED || c.status == DISCONNECTING then s.(toClose := s.toClose + 1) else s
    case SetForceClose =>
      if s.toClose == 0 then s
      else s.(toClose := s.toClose - 1, core := c.(status := DISCONNECTING), closing := s.closing + 1)
    case PushForceClose =>
      if s.closing == 0 then s else s.(closing := s.closing - 1, tasks := s.tasks + [ForceCloseTask])
  }

  function Run(s: State, actions: seq<Action>, mark: nat): State
    decreases actions
  {
    if actions == [] then s else Run(Step(s, actions[0], mark), actions[1..], mark)
  }

  const NEW_CORE := Core(CONNECTING, false, false, [], [], false, false, [], [])
  const NEW_STATE := Alone(NEW_CORE)

  lemma NewStateHolds()
    ensures InOrder(NEW_CORE) && InterestAgrees(NEW_CORE) && EarlyAgrees(NEW_STATE)
    ensures Ready(NEW_STATE) && HalfClosed(NEW_CORE)
  {
  }

  // ---- Stream order -----------------------------------------------------------

  /** What reached the wire, then the backlog, is the accepted messages, whole and in order. */
  predicate InOrder(c: Core) {
    c.wire + c.output == Flatten(c.accepted)
  }

  lemma SendKeepsOrder(c: Core, message: seq<byte>, r: WriteResult, mark: nat)
    requires InOrder(c) && Plausible(r, |message|)
    ensures InOrder(SendInLoop(c, message, r, mark))
  {
    if TriesSocket(c) && r.Wrote? {
      FlattenSnoc(c.accepted, message);
      assert message == message[..r.n] + message[r.n..];
      assert c.wire + c.output == c.wire;
      assert (c.wire + message[..r.n]) + message[r.n..] == c.wire + message;
      assert c.output + message[r.n..] == message[r.n..];
      if r.n == |message| { assert message[..r.n] == message; }
    }
  }

  lemma WriteKeepsOrder(c: Core, r: WriteResult)
    requires InOrder(c) && Plausible(r, |c.output|)
    ensures InOrder(HandleWrite(c, r))
  {
    if c.writing {
      if r.Wrote? && r.n > 0 {
        Resplit(c.wire, c.output, r.n);
      } else {
        assert c.wire + [] == c.wire;
      }
    }
  }

  lemma Resplit(wire: seq<byte>, out: seq<byte>, n: nat)
    requires n <= |out|
    ensures (wire + out[..n]) + out[n..] == wire + out
  {
  }

  /** For any partial counts, errors, closes and calls from other threads. */
  lemma {:induction false} StreamOrder(s: State, actions: seq<Action>, mark: nat)
    requires InOrder(s.core)
    ensures InOrder(Run(s, actions, mark).core)
    decreases actions
  {
    if actions != [] {
      StepKeepsOrder(s, actions[0], mark);
      StreamOrder(Step(s, actions[0], mark), actions[1..], mark);
    }
  }

  lemma TaskKeepsOrder(c: Core, task: Task, r: WriteResult, mark: nat)
    requires InOrder(c)
    ensures InOrder(RunOne(c, task, r, mark))
  {
    if task.SendTask? && Plausible(r, |task.message|) {
      SendKeepsOrder(c, task.message, r, mark);
    }
  }

  lemma StepKeepsOrder(s: State, a: Action, mark: nat)
    requires InOrder(s.core)
    ensures InOrder(Step(s, a, mark).core)
  {
    match a
    case Send(message, r) => if Plausible(r, |message|) { SendKeepsOrder(s.core, message, r, mark); }
    case Writable(r) => if Plausible(r, |s.core.output|) { WriteKeepsOrder(s.core, r); }
    case RunTask(r) => if s.tasks != [] { TaskKeepsOrder(s.core, s.tasks[0], r, mark); }
    case _ =>
  }

  // ---- Writing exactly while there is a backlog --------------------------------

  /** While not DISCONNECTED the channel is writing exactly when there is a backlog. */
  predicate InterestAgrees(c: Core) {
    if c.status == DISCONNECTED then !c.writing else c.writing <==> c.output != []
  }

  /** Another thread's late assignment of the status. */
  predicate ForeignStatus(a: Action) { a.SetShutdown? || a.SetForceClose? }

  lemma SendKeepsInterest(c: Core, message: seq<byte>, r: WriteResult, mark: nat)
    requires InterestAgrees(c) && Plausible(r, |message|)
    ensures InterestAgrees(SendInLoop(c, message, r, mark))
  {
  }

  lemma WriteKeepsInterest(c: Core, r: WriteResult)
    requires InterestAgrees(c) && Plausible(r, |c.output|)
    ensures InterestAgrees(HandleWrite(c, r))
  {
  }

  lemma TaskKeepsInterest(c: Core, task: Task, r: WriteResult, mark: nat)
    requires InterestAgrees(c)
    ensures InterestAgrees(RunOne(c, task, r, mark))
  {
    if task.SendTask? && Plausible(r, |task.message|) {
      SendKeepsInterest(c, task.message, r, mark);
    }
  }

  lemma StepKeepsInterest(s: State, a: Action, mark: nat)
    requires InterestAgrees(s.core) && !ForeignStatus(a)
    ensures InterestAgrees(Step(s, a, mark).core)
  {
    var c := s.core;
    match a
    case Send(message, r) => if Plausible(r, |message|) { SendKeepsInterest(c, message, r, mark); }
    case Writable(r) => if Plausible(r, |c.output|) { WriteKeepsInterest(c, r); }
    case RunTask(r) => if s.tasks != [] { TaskKeepsInterest(c, s.tasks[0], r, mark); }
    case _ =>
  }

  /** A late assignment that meets a connection closed with a backlog. */
  predicate RevivesBacklog(s: State, a: Action) {
    && ((a.SetShutdown? && s.toShut > 0) || (a.SetForceClose? && s.toClose > 0))
    && s.core.status == DISCONNECTED && s.core.output != []
  }

  /**
   * Shutdown and ForceClose from another thread check the status and set it later.
   * A step breaks the agreement exactly when it is such an assignment and the connection
   * was closed with a backlog in between.
   */
  lemma ForeignStatusExactly(s: State, a: Action, mark: nat)
    requires InterestAgrees(s.core)
    ensures InterestAgrees(Step(s, a, mark).core) <==> !RevivesBacklog(s, a)
  {
    if !ForeignStatus(a) {
      StepKeepsInterest(s, a, mark);
    }
  }

  predicate InterestThroughout(s: State, actions: seq<Action>, mark: nat)
    decreases actions
  {
    && InterestAgrees(s.core)
    && (actions == [] || InterestThroughout(Step(s, actions[0], mark), actions[1..], mark))
  }

  predicate NoneRevives(s: State, actions: seq<Action>, mark: nat)
    decreases actions
  {
    actions == [] || (!RevivesBacklog(s, actions[0]) && NoneRevives(Step(s, actions[0], mark), actions[1..], mark))
  }

  /** So the agreement holds throughout a run, with calls from any threads, exactly when there is no such step. */
  lemma {:induction false} InterestFollowsBacklog(s: State, actions: seq<Action>, mark: nat)
    requires InterestAgrees(s.core)
    ensures InterestThroughout(s, actions, mark) <==> NoneRevives(s, actions, mark)
    decreases actions
  {
    if actions != [] {
      var t := Step(s, actions[0], mark);
      ForeignStatusExactly(s, actions[0], mark);
      if InterestAgrees(t.core) {
        InterestFollowsBacklog(t, actions[1..], mark);
      } else {
        assert !InterestThroughout(t, actions[1..], mark);
      }
    }
  }

  /** Until the connection is on its way down nobody can assign the status late. */
  predicate EarlyAgrees(s: State) {
    && (s.core.status == CONNECTING ==> s.toShut == 0 && s.toClose == 0)
    && (s.core.status == CONNECTING || s.core.status == CONNECTED ==> InterestAgrees(s.core))
  }

  lemma StepKeepsEarly(s: State, a: Action, mark: nat)
    requires EarlyAgrees(s)
    ensures EarlyAgrees(Step(s, a, mark))
  {
    if (s.core.status == CONNECTING || s.core.status == CONNECTED) && !ForeignStatus(a) {
      StepKeepsInterest(s, a, mark);
    }
    StatusMoves(s, a, mark);
  }

  /** CONNECTED comes from CONNECTING only, and nothing leads back to CONNECTING. */
  lemma StatusMoves(s: State, a: Action, mark: nat)
    ensures var t := Step(s, a, mark);
            && (t.core.status == CONNECTING ==>
                  s.core.status == CONNECTING && t.toShut == s.toShut && t.toClose == s.toClose)
            && (t.core.status == CONNECTED ==> s.core.status == CONNECTING || s.core.status == CONNECTED)
            && (ForeignStatus(a) && t != s ==> t.core.status == DISCONNECTING)
  {
  }

  lemma {:induction false} RunKeepsEarly(s: State, actions: seq<Action>, mark: nat)
    requires EarlyAgrees(s)
    ensures EarlyAgrees(Run(s, actions, mark))
    decreases actions
  {
    if actions != [] {
      StepKeepsEarly(s, actions[0], mark);
      RunKeepsEarly(Step(s, actions[0], mark), actions[1..], mark);
    }
  }

  /**
   * A message sent is not always delivered.  At any point of a run on a CONNECTED
   * connection it is taken, whole and behind everything before it, if and only if there
   * is no backlog and its direct write does not fail; otherwise nothing of it is kept.
   */
  lemma AcceptedExactly(actions: seq<Action>, message: seq<byte>, r: WriteResult, mark: nat)
    requires Run(NEW_STATE, actions, mark).core.status == CONNECTED && Plausible(r, |message|)
    ensures var c := Run(NEW_STATE, actions, mark).core;
            var d := Run(NEW_STATE, actions + [Send(message, r)], mark).core;
            && (d.accepted == c.accepted + [message] <==> c.output == [] && r.Wrote?)
            && d.wire + d.output == c.wire + c.output + if c.output == [] && r.Wrote? then message else []
  {
    var s := Run(NEW_STATE, actions, mark);
    NewStateHolds();
    RunKeepsEarly(NEW_STATE, actions, mark);
    RunConcat(NEW_STATE, actions, [Send(message, r)], mark);
    RunCons(s, Send(message, r), [], mark);
    assert [Send(message, r)] == [Send(message, r)] + [];
    TakenExactly(s.core, message, r, mark);
  }

  /** For SendInLoop itself, in any state: a message is taken whole, or wire and backlog stay as they are. */
  lemma TakenExactly(c: Core, message: seq<byte>, r: WriteResult, mark: nat)
    requires Plausible(r, |message|)
    ensures var d := SendInLoop(c, message, r, mark);
            if TriesSocket(c) && r.Wrote? then
              d.accepted == c.accepted + [message] && d.wire + d.output == c.wire + c.output + message
            else
              d.accepted == c.accepted && d.wire == c.wire && d.output == c.output
    ensures InterestAgrees(c) ==> (TriesSocket(c) <==> c.status != DISCONNECTED && c.output == [])
  {
    if TriesSocket(c) && r.Wrote? {
      assert message[..r.n] + message[r.n..] == message;
      assert (c.wire + message[..r.n]) + message[r.n..] == c.wire + message;
      if r.n == |message| { assert message[..r.n] == message; }
    }
  }

  /** It happens: the second of two messages is sent while the first is still queued, and is lost. */
  lemma SecondMessageIsLost(first: seq<byte>, second: seq<byte>, r: WriteResult, mark: nat)
    requires first != [] && second != [] && Plausible(r, |second|)
    ensures var c := Run(NEW_STATE, [Establish, Send(first, Wrote(0)), Send(second, r)], mark).core;
            c.accepted == [first] && c.wire + c.output == first
  {
    var s1 := Step(NEW_STATE, Establish, mark);
    var s2 := Step(s1, Send(first, Wrote(0)), mark);
    assert [] + first == first && s2.core.output == first && s2.core.wire == [];
    assert Step(s2, Send(second, r), mark) == s2;
    RunThree(NEW_STATE, Establish, Send(first, Wrote(0)), Send(second, r), mark);
  }

  /** And with no backlog, when the socket answers EAGAIN. */
  lemma EagainLosesMessage(message: seq<byte>, mark: nat)
    requires message != []
    ensures var c := Run(NEW_STATE, [Establish, Send(message, Failed(EAGAIN))], mark).core;
            c.status == CONNECTED && c.accepted == [] && c.wire == [] && c.output == []
  {
    RunTwo(NEW_STATE, Establish, Send(message, Failed(EAGAIN)), mark);
  }

  /** Connected, with `message` in the backlog. */
  function Backlogged(message: seq<byte>, mark: nat): State {
    Alone(Core(CONNECTED, true, true, message, [], false, false, [message],
               [ConnectionChanged] + if |message| >= mark then [HighWater(|message|)] else []))
  }

  lemma BacklogHappens(message: seq<byte>, mark: nat)
    requires message != []
    ensures Run(NEW_STATE, [Establish, Send(message, Wrote(0))], mark) == Backlogged(message, mark)
  {
    RunTwo(NEW_STATE, Establish, Send(message, Wrote(0)), mark);
    assert [] + message == message;
  }

  /** Such a run: checked while connected, closed with a backlog, then set. */
  lemma ForeignStatusHappens(message: seq<byte>, mark: nat)
    requires message != []
    ensures var s := Run(NEW_STATE, [Establish, Send(message, Wrote(0))] + [CheckShutdown, Close, SetShutdown], mark);
            !InterestAgrees(s.core) && s.core.status == DISCONNECTING
  {
    BacklogHappens(message, mark);
    RunConcat(NEW_STATE, [Establish, Send(message, Wrote(0))], [CheckShutdown, Close, SetShutdown], mark);
    RunThree(Backlogged(message, mark), CheckShutdown, Close, SetShutdown, mark);
  }

  lemma RunCons(s: State, a: Action, rest: seq<Action>, mark: nat)
    ensures Run(s, [a] + rest, mark) == Run(Step(s, a, mark), rest, mark)
  {
    assert ([a] + rest)[0] == a && ([a] + rest)[1..] == rest;
  }

  lemma RunTwo(s: State, a: Action, b: Action, mark: nat)
    ensures Run(s, [a, b], mark) == Step(Step(s, a, mark), b, mark)
  {
    assert [a, b] == [a] + [b] && [b] == [b] + [];
    RunCons(s, a, [b], mark);
    RunCons(Step(s, a, mark), b, [], mark);
  }

  lemma RunThree(s: State, a: Action, b: Action, c: Action, mark: nat)
    ensures Run(s, [a, b, c], mark) == Step(Step(Step(s, a, mark), b, mark), c, mark)
  {
    assert [a, b, c] == [a] + [b, c];
    RunCons(s, a, [b, c], mark);
    RunTwo(Step(s, a, mark), b, c, mark);
  }

  lemma {:induction false} RunConcat(s: State, a: seq<Action>, b: seq<Action>, mark: nat)
    ensures Run(s, a + b, mark) == Run(Run(s, a, mark), b, mark)
    decreases a
  {
    if a == [] {
      assert a + b == b;
    } else {
      assert (a + b)[1..] == a[1..] + b;
      RunConcat(Step(s, a[0], mark), a[1..], b, mark);
    }
  }

  // ---- Half-close -------------------------------------------------------------

  predicate OnLoopThread(a: Action) {
    a.Establish? || a.Destroy? || a.Send? || a.Writable? || a.Close? || a.Shutdown? || a.ForceClose? || a.RunTask?
  }

  /** SHUT_WR was issued only with an empty backlog, and no write was tried after it. */
  predicate HalfClosed(c: Core) {
    !c.late && (c.shut ==> c.output == [])
  }

  predicate GoingDown(c: Core) { c.status == DISCONNECTING || c.status == DISCONNECTED }

  /** What holds in every run, the half-close kept or not. */
  predicate Ready(s: State) {
    && (s.core.writing ==> s.core.output != [])
    && (s.core.output != [] && !s.core.writing ==> GoingDown(s.core))
    && (s.core.shut || ShutdownTask in s.tasks || s.shutting > 0 ==> GoingDown(s.core))
  }

  /** The steps that break the half-close: a queued Send or Shutdown of another thread, run too late. */
  predicate BreaksHalfClose(s: State, a: Action) {
    var c := s.core;
    a.RunTask? && s.tasks != [] &&
    match s.tasks[0]
    case SendTask(message) => Plausible(a.r, |message|) && c.shut && TriesSocket(c)
    case ShutdownTask => !c.writing && c.output != []
    case ForceCloseTask => false
  }

  lemma SendStaysReady(c: Core, message: seq<byte>, r: WriteResult, mark: nat)
    requires (c.writing ==> c.output != []) && Plausible(r, |message|)
    ensures var d := SendInLoop(c, message, r, mark);
            && (d.writing ==> d.output != []) && (d.output != [] && !d.writing ==> c.output != [] && !c.writing)
            && d.status == c.status && d.shut == c.shut && d.late == (c.late || (c.shut && TriesSocket(c)))
            && (c.output != [] ==> d.output == c.output)
            && (d.output != [] && c.output == [] ==> TriesSocket(c))
  {
  }

  lemma WriteStaysReady(c: Core, r: WriteResult)
    requires (c.writing ==> c.output != []) && Plausible(r, |c.output|)
    ensures var d := HandleWrite(c, r);
            && (d.writing ==> d.output != []) && (d.output != [] && !d.writing ==> c.output != [] && !c.writing)
            && d.status == c.status && (c.shut ==> d.shut) && (d.shut && !c.shut ==> d.output == [] && GoingDown(d))
            && d.late == (c.late || (c.shut && c.writing)) && (c.output == [] ==> d.output == [])
  {
  }

  lemma TaskStepsExactly(s: State, r: WriteResult, mark: nat)
    requires Ready(s) && s.tasks != []
    ensures Ready(Step(s, RunTask(r), mark))
    ensures HalfClosed(s.core) ==>
              (HalfClosed(Step(s, RunTask(r), mark).core) <==> !BreaksHalfClose(s, RunTask(r)))
  {
    var task := s.tasks[0];
    assert task in s.tasks && forall x :: x in s.tasks[1..] ==> x in s.tasks;
    if task.SendTask? && Plausible(r, |task.message|) {
      SendStaysReady(s.core, task.message, r, mark);
    }
  }

  /**
   * A step breaks the half-close exactly if it runs a queued Send that goes to the socket
   * after SHUT_WR, or a queued Shutdown that finds the backlog a close has left behind.
   */
  lemma StepBreaksExactly(s: State, a: Action, mark: nat)
    requires Ready(s)
    ensures Ready(Step(s, a, mark))
    ensures HalfClosed(s.core) ==> (HalfClosed(Step(s, a, mark).core) <==> !BreaksHalfClose(s, a))
  {
    match a
    case Send(message, r) => if Plausible(r, |message|) { SendStaysReady(s.core, message, r, mark); }
    case Writable(r) => if Plausible(r, |s.core.output|) { WriteStaysReady(s.core, r); }
    case RunTask(r) => if s.tasks != [] { TaskStepsExactly(s, r, mark); }
    case _ =>
  }

  predicate HalfClosedThroughout(s: State, actions: seq<Action>, mark: nat)
    decreases actions
  {
    && HalfClosed(s.core)
    && (actions == [] || HalfClosedThroughout(Step(s, actions[0], mark), actions[1..], mark))
  }

  predicate NoneBreaks(s: State, actions: seq<Action>, mark: nat)
    decreases actions
  {
    actions == [] || (!BreaksHalfClose(s, actions[0]) && NoneBreaks(Step(s, actions[0], mark), actions[1..], mark))
  }

  /**
   * So in a whole run, with any calls from any threads, the half-close holds in every
   * state if and only if the run has no such step.
   */
  lemma {:induction false} HalfCloseBreaksExactly(s: State, actions: seq<Action>, mark: nat)
    requires Ready(s) && HalfClosed(s.core)
    ensures HalfClosedThroughout(s, actions, mark) <==> NoneBreaks(s, actions, mark)
    decreases actions
  {
    if actions != [] {
      var t := Step(s, actions[0], mark);
      StepBreaksExactly(s, actions[0], mark);
      if HalfClosed(t.core) {
        HalfCloseBreaksExactly(t, actions[1..], mark);
      } else {
        assert !HalfClosedThroughout(t, actions[1..], mark);
      }
    }
  }

  /**
   * With every call made on the loop thread, SHUT_WR is issued only with an empty
   * backlog and every accepted byte on the wire, and no write is tried after it.
   */
  lemma {:induction false} GracefulHalfClose(s: State, actions: seq<Action>, mark: nat)
    requires Ready(s) && HalfClosed(s.core) && InOrder(s.core) && s.tasks == []
    requires forall a :: a in actions ==> OnLoopThread(a)
    ensures HalfClosedThroughout(s, actions, mark)
    ensures var c := Run(s, actions, mark).core;
            !c.late && (c.shut ==> c.output == [] && c.wire == Flatten(c.accepted))
    decreases actions
  {
    if actions == [] {
      assert s.core.output == [] ==> s.core.wire + s.core.output == s.core.wire;
    } else {
      assert actions[0] in actions;
      StepBreaksExactly(s, actions[0], mark);
      StepKeepsOrder(s, actions[0], mark);
      GracefulHalfClose(Step(s, actions[0], mark), actions[1..], mark);
    }
  }

  /** The first kind happens: Shutdown on the loop thread overtakes another thread's Send. */
  lemma LateWriteHappens(message: seq<byte>, mark: nat)
    ensures Run(NEW_STATE, [Establish, CheckSend(message), Shutdown] +
                           [PushSend(message), RunTask(Failed(32))], mark).core.late
  {
    var s := Step(Step(Step(NEW_STATE, Establish, mark), CheckSend(message), mark), Shutdown, mark);
    RunThree(NEW_STATE, Establish, CheckSend(message), Shutdown, mark);
    RunTwo(s, PushSend(message), RunTask(Failed(32)), mark);
    RunConcat(NEW_STATE, [Establish, CheckSend(message), Shutdown], [PushSend(message), RunTask(Failed(32))], mark);
  }

  /** The backlog, with another thread in the middle of Shutdown. */
  function ShuttingDown(message: seq<byte>, mark: nat): State {
    var s := Backlogged(message, mark);
    s.(core := s.core.(status := DISCONNECTING), shutting := 1)
  }

  lemma ShuttingDownHappens(message: seq<byte>, mark: nat)
    ensures Run(Backlogged(message, mark), [CheckShutdown, SetShutdown], mark) == ShuttingDown(message, mark)
  {
    RunTwo(Backlogged(message, mark), CheckShutdown, SetShutdown, mark);
  }

  lemma ShutsAfterClose(message: seq<byte>, r: WriteResult, mark: nat)
    ensures var c := Run(ShuttingDown(message, mark), [PushShutdown, Close, RunTask(r)], mark).core;
            c.shut && c.output == message && c.wire == []
  {
    RunThree(ShuttingDown(message, mark), PushShutdown, Close, RunTask(r), mark);
  }

  /** So does the second: another thread's Shutdown runs after a close, and half-closes over the backlog. */
  lemma ShutdownOverBacklogHappens(message: seq<byte>, r: WriteResult, mark: nat)
    requires message != []
    ensures var c := Run(NEW_STATE, [Establish, Send(message, Wrote(0))] +
                                    ([CheckShutdown, SetShutdown] + [PushShutdown, Close, RunTask(r)]), mark).core;
            c.shut && c.output == message && c.wire == []
  {
    BacklogHappens(message, mark);
    ShuttingDownHappens(message, mark);
    ShutsAfterClose(message, r, mark);
    RunConcat(NEW_STATE, [Establish, Send(message, Wrote(0))],
              [CheckShutdown, SetShutdown] + [PushShutdown, Close, RunTask(r)], mark);
    RunConcat(Backlogged(message, mark), [CheckShutdown, SetShutdown], [PushShutdown, Close, RunTask(r)], mark);
  }

  // ---- Events -----------------------------------------------------------------

  /**
   * What SendInLoop reports: completion exactly when the socket took all, high water
   * exactly when the rest reaches the mark.
   */
  lemma SendReports(c: Core, message: seq<byte>, r: WriteResult, mark: nat)
    requires Plausible(r, |message|)
    ensures var d := SendInLoop(c, message, r, mark);
            && d.status == c.status && d.reading == c.reading && d.shut == c.shut
            && (TriesSocket(c) && r.Wrote? ==>
                  && d.wire == c.wire + message[..r.n] && d.output == message[r.n..]
                  && d.writing == (r.n < |message|)
                  && d.events == c.events + (if r.n == |message| then [WriteComplete]
                                             else if |message| - r.n >= mark then [HighWater(|message| - r.n)]
                                             else []))
            && (!(TriesSocket(c) && r.Wrote?) ==> d == c.(late := d.late))
  {
    if TriesSocket(c) && r.Wrote? {
      assert c.output + message[r.n..] == message[r.n..];
    } else {
      assert c.wire + [] == c.wire;
    }
  }

  /** What HandleWrite reports: completion exactly when it writes the last of the backlog. */
  lemma WriteReports(c: Core, r: WriteResult)
    requires Plausible(r, |c.output|)
    ensures var d := HandleWrite(c, r);
            var last := c.writing && r.Wrote? && r.n == |c.output| > 0;
            && d.status == c.status && d.reading == c.reading && d.accepted == c.accepted
            && d.events == c.events + (if last then [WriteComplete] else [])
            && d.writing == (c.writing && !last)
            && d.shut == (c.shut || (last && c.status == DISCONNECTING))
            && (c.writing && r.Wrote? ==> d.wire == c.wire + c.output[..r.n] && d.output == c.output[r.n..])
            && (!(c.writing && r.Wrote?) ==> d.wire == c.wire && d.output == c.output)
  {
    assert c.wire + [] == c.wire && c.events + [] == c.events;
  }

  /** `now` is `was` closed, and `reported` what its callbacks were told. */
  predicate ClosedFrom(was: Core, now: Core, reported: seq<Event>) {
    && now.status == DISCONNECTED && !now.reading && !now.writing
    && now.output == was.output && now.wire == was.wire && now.accepted == was.accepted
    && now.shut == was.shut && now.late == was.late && now.events == was.events + reported
  }

  /** A close, and a forced one on a connection that is up, closes; the close callback comes last. */
  lemma CloseCloses(c: Core)
    ensures ClosedFrom(c, HandleClose(c), if c.status == CONNECTED then [ConnectionChanged, ConnectionChanged, Closed]
                                          else [ConnectionChanged, Closed])
    ensures c.status == CONNECTED || c.status == DISCONNECTING ==> ForceCloseInLoop(c) == HandleClose(c)
    ensures c.status == CONNECTING || c.status == DISCONNECTED ==> ForceCloseInLoop(c) == c
    ensures if c.status == CONNECTED then ClosedFrom(c, ConnectDestroyed(c), [ConnectionChanged])
            else ConnectDestroyed(c) == c
  {
  }

  // ---- Calls from other threads -------------------------------------------------

  /** The task a step queues. */
  function TaskFrom(s: State, a: Action): seq<Task> {
    match a
    case PushSend(message) => if message in s.toSend then [SendTask(message)] else []
    case PushShutdown => if s.shutting > 0 then [ShutdownTask] else []
    case PushForceClose => if s.closing > 0 then [ForceCloseTask] else []
    case _ => []
  }

  /** Tasks are run first in, first out, and none is dropped. */
  lemma TasksInOrder(s: State, a: Action, mark: nat)
    ensures Step(s, a, mark).tasks ==
            (if a.RunTask? && s.tasks != [] then s.tasks[1..] else s.tasks) + TaskFrom(s, a)
  {
    assert s.tasks + [] == s.tasks;
    if s.tasks != [] {
      assert s.tasks[1..] + [] == s.tasks[1..];
    }
  }

  /** Another thread's call on a connection not in the status it asks for is refused at its check. */
  lemma RefusedCalls(s: State, message: seq<byte>, mark: nat)
    ensures s.core.status != CONNECTED ==>
              Step(s, CheckSend(message), mark) == s && Step(s, CheckShutdown, mark) == s
    ensures s.core.status == CONNECTING || s.core.status == DISCONNECTED ==> Step(s, CheckForceClose, mark) == s
  {
  }

  lemma RunFour(s: State, a: Action, b: Action, c: Action, d: Action, mark: nat)
    ensures Run(s, [a, b, c, d], mark) == Step(Step(Step(Step(s, a, mark), b, mark), c, mark), d, mark)
  {
    assert [a, b, c, d] == [a] + [b, c, d];
    RunCons(s, a, [b, c, d], mark);
    RunThree(Step(s, a, mark), b, c, d, mark);
  }

  /** Left undisturbed, a call from another thread does what it does on the loop thread. */
  lemma SendFromThread(s: State, message: seq<byte>, r: WriteResult, mark: nat)
    requires s.tasks == [] && s.core.status == CONNECTED && Plausible(r, |message|)
    ensures Run(s, [CheckSend(message), PushSend(message), RunTask(r)], mark) == Step(s, Send(message, r), mark)
  {
    RunThree(s, CheckSend(message), PushSend(message), RunTask(r), mark);
    assert s.toSend + multiset{message} - multiset{message} == s.toSend;
    assert [SendTask(message)][1..] == [];
  }

  lemma ShutdownFromThread(s: State, r: WriteResult, mark: nat)
    requires s.tasks == [] && s.core.status == CONNECTED
    ensures Run(s, [CheckShutdown, SetShutdown, PushShutdown, RunTask(r)], mark) == Step(s, Shutdown, mark)
  {
    RunFour(s, CheckShutdown, SetShutdown, PushShutdown, RunTask(r), mark);
    assert [ShutdownTask][1..] == [];
  }

  lemma ForceCloseFromThread(s: State, r: WriteResult, mark: nat)
    requires s.tasks == [] && (s.core.status == CONNECTED || s.core.status == DISCONNECTING)
    ensures Run(s, [CheckForceClose, SetForceClose, PushForceClose, RunTask(r)], mark) == Step(s, ForceClose, mark)
    ensures ClosedFrom(s.core, Step(s, ForceClose, mark).core, [ConnectionChanged, Closed])
  {
    RunFour(s, CheckForceClose, SetForceClose, PushForceClose, RunTask(r), mark);
    assert [ForceCloseTask][1..] == [];
  }

  /** A queued ForceClose that finds the connection up closes it. */
  lemma ForceCloseTaskCloses(s: State, r: WriteResult, mark: nat)
    requires s.tasks != [] && s.tasks[0] == ForceCloseTask
    requires s.core.status == CONNECTED || s.core.status == DISCONNECTING
    ensures ClosedFrom(s.core, Step(s, RunTask(r), mark).core,
                       if s.core.status == CONNECTED then [ConnectionChanged, ConnectionChanged, Closed]
                       else [ConnectionChanged, Closed])
  {
    CloseCloses(s.core);
  }

  /** Short of a late status assignment a closed connection stays closed, and moves no byte. */
  lemma {:induction false} StaysClosed(s: State, actions: seq<Action>, mark: nat)
    requires s.core.status == DISCONNECTED && !s.core.writing
    requires forall a :: a in actions ==> !ForeignStatus(a)
    ensures var c := Run(s, actions, mark).core;
            && c.status == DISCONNECTED && !c.writing
            && c.wire == s.core.wire && c.output == s.core.output && c.accepted == s.core.accepted
    decreases actions
  {
    if actions != [] {
      assert actions[0] in actions && forall a :: a in actions[1..] ==> a in actions;
      ClosedStep(s, actions[0], mark);
      StaysClosed(Step(s, actions[0], mark), actions[1..], mark);
    }
  }

  lemma ClosedStep(s: State, a: Action, mark: nat)
    requires s.core.status == DISCONNECTED && !s.core.writing && !ForeignStatus(a)
    ensures var c := Step(s, a, mark).core;
            && c.status == DISCONNECTED && !c.writing
            && c.wire == s.core.wire && c.output == s.core.output && c.accepted == s.core.accepted
  {
  }

  // ---- Draining ---------------------------------------------------------------

  predicate Draining(c: Core) {
    c.status == DISCONNECTING && c.writing && c.output != [] && !c.shut
  }

  /** What the socket takes of the backlog in one step. */
  function TakenBy(c: Core, a: Action): nat {
    if a.Writable? && a.r.Wrote? && c.writing && a.r.n <= |c.output| then a.r.n else 0
  }

  function TakenIn(s: State, actions: seq<Action>, mark: nat): nat
    decreases actions
  {
    if actions == [] then 0
    else TakenBy(s.core, actions[0]) + TakenIn(Step(s, actions[0], mark), actions[1..], mark)
  }

  /** `k` bytes of the backlog of `was` are on the wire; SHUT_WR came with the last of them. */
  predicate DrainedBy(was: Core, k: nat, c: Core) {
    && k <= |was.output|
    && c.output == was.output[k..] && c.wire == was.wire + was.output[..k] && c.late == was.late
    && (c.shut <==> k == |was.output|)
    && (c.status == DISCONNECTED || c.status == DISCONNECTING)
    && (c.writing <==> c.status == DISCONNECTING && k < |was.output|)
  }

  lemma DrainStep(was: Core, k: nat, s: State, a: Action, mark: nat)
    requires DrainedBy(was, k, s.core) && was.output != [] && s.tasks == [] && OnLoopThread(a)
    ensures var t := Step(s, a, mark);
            DrainedBy(was, k + TakenBy(s.core, a), t.core) && t.tasks == []
  {
    var c, d := s.core, Step(s, a, mark).core;
    if a.Writable? && a.r.Wrote? && c.writing && 0 < a.r.n <= |c.output| {
      var n := a.r.n;
      assert d.wire == c.wire + c.output[..n] && d.output == c.output[n..];
      SplitTwice(was.wire, was.output, k, n);
    } else {
      assert c.wire + [] == c.wire;
    }
  }

  lemma {:induction false} DrainRun(was: Core, k: nat, s: State, actions: seq<Action>, mark: nat)
    requires DrainedBy(was, k, s.core) && was.output != [] && s.tasks == []
    requires forall a :: a in actions ==> OnLoopThread(a)
    ensures DrainedBy(was, k + TakenIn(s, actions, mark), Run(s, actions, mark).core)
    decreases actions
  {
    if actions != [] {
      assert actions[0] in actions;
      DrainStep(was, k, s, actions[0], mark);
      DrainRun(was, k + TakenBy(s.core, actions[0]), Step(s, actions[0], mark), actions[1..], mark);
    }
  }

  /**
   * From DISCONNECTING with a backlog, in any run on the loop thread, failed and empty
   * writes, closes and further calls included: exactly the bytes taken by the writes
   * leave the backlog for the wire; SHUT_WR comes with the write that empties it, and
   * not before; and until then the channel is writing, unless the connection was closed.
   */
  lemma DrainsThenShuts(s: State, actions: seq<Action>, mark: nat)
    requires Draining(s.core) && s.tasks == []
    requires forall a :: a in actions ==> OnLoopThread(a)
    ensures DrainedBy(s.core, TakenIn(s, actions, mark), Run(s, actions, mark).core)
  {
    assert s.core.output[0..] == s.core.output && s.core.wire + s.core.output[..0] == s.core.wire;
    DrainRun(s.core, 0, s, actions, mark);
  }

  lemma SplitTwice(wire: seq<byte>, out: seq<byte>, n: nat, m: nat)
    requires n + m <= |out|
    ensures out[n..][m..] == out[n + m..]
    ensures (wire + out[..n]) + out[n..][..m] == wire + out[..n + m]
  {
  }
}
