/**
 * Queued tasks and the wake-up protocol of framework/net/src/EventLoop.cpp, one step
 * for each access to shared state.  Any number of other threads push a task (or set
 * quit_) and only then write the eventfd; the loop thread polls without a timeout,
 * reads the eventfd, swaps the queue out and runs the batch.
 */
module EventLoopSpec {

  type Tid = nat

  type Task = nat

  /** What poll reported ready: the wake-up channel, or a channel of the application. */
  datatype Event = WakeReady | OtherReady

  /** Where the loop thread is. */
  datatype Phase =
    | Idle                               // not in Loop
    | Testing                            // about to test quit_
    | Polling                            // in poll, with an infinite timeout
    | Dispatching(events: seq<Event>)    // handlers still to be called
    | Running(batch: seq<Task>, i: nat)  // in DoPendingTask, `i` tasks of the batch started

  datatype State = State(
    counter: nat,        // of the eventfd
    queue: seq<Task>,    // task_
    quit: bool,
    looping: bool,
    doing: bool,
    phase: Phase,
    owes: bool,          // the loop thread pushed or quit and has its WakeUP to do
    waking: set<Tid>,    // the other threads that have theirs to do
    // history
    queued: seq<Task>,   // all tasks, in lock order
    executed: seq<Task>)

  datatype Action =
    // other threads
    | Push(tid: Tid, task: Task)
    | QuitFrom(tid: Tid)
    | Wake(tid: Tid)
    // the loop thread, outside Loop
    | QueueEarly(task: Task)
    | EnterLoop
    // the loop thread, in Loop
    | Test
    | PollReturns(events: seq<Event>)
    | Handle
    | Swap
    | RunNext
    | EndBatch
    // calls made by a handler or a task
    | LoopQueue(task: Task)
    | LoopQuit
    | LoopWake

  /** write(2) on the eventfd fails with EAGAIN rather than pass this value; the counter stays positive. */
  const EVENTFD_MAX := 0xffff_ffff_ffff_fffe

  function Bump(counter: nat): (c: nat)
    ensures c > 0 && (c == counter + 1 || (c == counter && counter > 0xffff_ffff_ffff_fffd))
  {
    if counter < EVENTFD_MAX then counter + 1 else counter
  }

  /** poll is level-triggered and lists each descriptor once; on an error it lists none. */
  predicate PollAllows(s: State, events: seq<Event>) {
    || events == []
    || ((WakeReady in events <==> s.counter > 0) &&
        forall i, j :: 0 <= i < j < |events| && events[i] == WakeReady ==> events[j] == OtherReady)
  }

  /** A handler or a task is on the loop thread's stack, and it owes no WakeUP. */
  predicate MayCall(s: State) {
    !s.owes && (s.phase.Dispatching? || (s.phase.Running? && s.phase.i > 0))
  }

  predicate Enabled(s: State, a: Action) {
    match a
    case Push(tid, _) => tid !in s.waking
    case QuitFrom(tid) => tid !in s.waking
    case Wake(tid) => tid in s.waking
    case QueueEarly(_) => s.phase.Idle?
    case EnterLoop => s.phase.Idle?
    case Test => s.phase.Testing?
    case PollReturns(events) => s.phase.Polling? && PollAllows(s, events)
    case Handle => s.phase.Dispatching? && !s.owes && s.phase.events != []
    case Swap => s.phase.Dispatching? && !s.owes && s.phase.events == []
    case RunNext => s.phase.Running? && !s.owes && s.phase.i < |s.phase.batch|
    case EndBatch => s.phase.Running? && !s.owes && s.phase.i >= |s.phase.batch|
    case LoopQueue(_) => MayCall(s)
    case LoopQuit => MayCall(s)
    case LoopWake => s.owes
  }

  function Pushed(s: State, task: Task): State {
    s.(queue := s.queue + [task], queued := s.queued + [task])
  }

  /** A step that is not enabled leaves the state alone, so every list of actions is a run. */
  function Step(s: State, a: Action): State {
    if !Enabled(s, a) then s
    else
      match a
      case Push(tid, task) => Pushed(s, task).(waking := s.waking + {tid})
      case QuitFrom(tid) => s.(quit := true, waking := s.waking + {tid})
      case Wake(tid) => s.(counter := Bump(s.counter), waking := s.waking - {tid})
      case QueueEarly(task) => Pushed(s, task)
      case EnterLoop => s.(looping := true, quit := false, phase := Testing)
      case Test => if s.quit then s.(looping := false, phase := Idle) else s.(phase := Polling)
      case PollReturns(events) => s.(phase := Dispatching(events))
      case Handle =>
        s.(phase := Dispatching(s.phase.events[1..]),
           counter := if s.phase.events[0] == WakeReady then 0 else s.counter)
      case Swap => s.(doing := true, queue := [], phase := Running(s.queue, 0))
      case RunNext =>
        s.(executed := s.executed + [s.phase.batch[s.phase.i]], phase := Running(s.phase.batch, s.phase.i + 1))
      case EndBatch => s.(doing := false, phase := Testing)
      case LoopQueue(task) => Pushed(s, task).(owes := s.doing)
      case LoopQuit => s.(quit := true, owes := true)
      case LoopWake => s.(counter := Bump(s.counter), owes := false)
  }

  function Run(s: State, actions: seq<Action>): State
    decreases actions
  {
    if actions == [] then s else Run(Step(s, actions[0]), actions[1..])
  }

  lemma {:induction false} RunConcat(s: State, a: seq<Action>, b: seq<Action>)
    ensures Run(s, a + b) == Run(Run(s, a), b)
    decreases a
  {
    if a == [] {
      assert a + b == b;
    } else {
      assert (a + b)[1..] == a[1..] + b;
      RunConcat(Step(s, a[0]), a[1..], b);
    }
  }

  lemma RunOne(s: State, a: Action)
    ensures Run(s, [a]) == Step(s, a)
  {
    assert [a][1..] == [];
  }

  lemma RunTwo(s: State, a: Action, b: Action)
    ensures Run(s, [a, b]) == Step(Step(s, a), b)
  {
    assert [a, b] == [a] + [b];
    RunConcat(s, [a], [b]);
    RunOne(s, a);
    RunOne(Step(s, a), b);
  }

  lemma RunThree(s: State, a: Action, b: Action, c: Action)
    ensures Run(s, [a, b, c]) == Step(Step(Step(s, a), b), c)
  {
    assert [a, b, c] == [a, b] + [c];
    RunConcat(s, [a, b], [c]);
    RunTwo(s, a, b);
    RunOne(Step(Step(s, a), b), c);
  }

  const START := State(0, [], false, false, false, Idle, false, {}, [], [])

  // ---- No lost wake-up --------------------------------------------------------

  /** A wake-up is in the eventfd or on its way there. */
  predicate WakeComing(s: State) {
    s.counter > 0 || s.waking != {} || s.owes
  }

  /** While the loop is in poll, work to do or a quit to see means a wake-up is there or coming. */
  predicate NoLostWakeUp(s: State) {
    s.phase.Polling? && (s.queue != [] || s.quit) ==> s.counter > 0 || s.waking != {}
  }

  predicate Inv(s: State) {
    && (s.doing <==> s.phase.Running?)
    && (s.looping <==> !s.phase.Idle?)
    && (s.owes ==> s.phase.Dispatching? || s.phase.Running?)
    && match s.phase
       case Idle => s.queue != [] ==> WakeComing(s)
       case Testing => s.queue != [] ==> WakeComing(s)
       case Polling => s.queue != [] || s.quit ==> WakeComing(s)
       case Dispatching(events) => WakeReady in events ==> s.counter > 0
       case Running(batch, i) => i <= |batch| && (s.queue != [] ==> WakeComing(s))
  }

  /** A descriptor is listed once, so after the wake-up channel's read it is not handled again. */
  predicate ListedOnce(s: State) {
    s.phase.Dispatching? ==>
      forall i, j :: 0 <= i < j < |s.phase.events| && s.phase.events[i] == WakeReady ==>
        s.phase.events[j] == OtherReady
  }

  lemma StepKeepsInv(s: State, a: Action)
    requires Inv(s) && ListedOnce(s)
    requires a.QueueEarly? ==> s.queue != [] || WakeComing(s)
    ensures Inv(Step(s, a)) && ListedOnce(Step(s, a))
  {
    if Enabled(s, a) {
      if a.Handle? {
        var rest := s.phase.events[1..];
        assert forall k :: 0 <= k < |rest| ==> rest[k] == s.phase.events[k + 1];
      }
    }
  }

  lemma StartHolds()
    ensures Inv(START) && ListedOnce(START) && Fifo(START)
  {
  }

  /** The loop thread queues only from inside Loop. */
  predicate NoneEarly(actions: seq<Action>) {
    forall a :: a in actions ==> !a.QueueEarly?
  }

  /**
   * In every reachable state, whatever the number of threads and the interleaving, no
   * wake-up is lost; and the wake-up handler never finds the eventfd empty.
   */
  lemma {:induction false} NeverLost(s: State, actions: seq<Action>)
    requires Inv(s) && ListedOnce(s)
    requires NoneEarly(actions)
    ensures var t := Run(s, actions);
            Inv(t) && ListedOnce(t) && NoLostWakeUp(t)
    ensures var t := Run(s, actions);
            Enabled(t, Handle) && t.phase.events[0] == WakeReady ==> t.counter > 0
    decreases actions
  {
    if actions != [] {
      assert actions[0] in actions;
      StepKeepsInv(s, actions[0]);
      NeverLost(Step(s, actions[0]), actions[1..]);
    }
  }

  /**
   * Calls to QueueInLoop on the loop thread before Loop issue no wake-up.  Entering Loop
   * is safe from then on exactly when nothing is queued or a wake-up is there or coming.
   */
  lemma SafeEntryExactly(s: State)
    requires s.phase.Idle? && !s.doing && !s.owes
    ensures (forall actions :: NoneEarly(actions) ==>
               NoLostWakeUp(Run(Step(s, EnterLoop), actions)))
            <==> (s.queue == [] || s.counter > 0 || s.waking != {})
  {
    var t := Step(s, EnterLoop);
    if s.queue == [] || s.counter > 0 || s.waking != {} {
      forall actions | NoneEarly(actions)
        ensures NoLostWakeUp(Run(t, actions))
      {
        NeverLost(t, actions);
      }
    } else {
      RunOne(t, Test);
      assert NoneEarly([Test]) && !NoLostWakeUp(Run(t, [Test]));
    }
  }

  /** The unsafe entry is reachable: one early task and nothing else. */
  lemma EarlyTaskIsStranded(task: Task)
    ensures var s := Run(START, [QueueEarly(task), EnterLoop, Test]);
            s.phase == Polling && s.queue == [task] && s.counter == 0 && s.waking == {}
  {
    RunThree(START, QueueEarly(task), EnterLoop, Test);
  }

  // ---- Quit -------------------------------------------------------------------

  /** The steps that set quit_, by another thread or on the loop thread. */
  predicate Quits(s: State, a: Action) {
    (a.QuitFrom? || a == LoopQuit) && Enabled(s, a)
  }

  lemma StepKeepsQuit(s: State, a: Action)
    requires s.quit && a != EnterLoop
    ensures Step(s, a).quit && (Enabled(s, Test) ==> Step(s, Test) == s.(looping := false, phase := Idle))
  {
  }

  lemma {:induction false} QuitStays(s: State, actions: seq<Action>)
    requires s.quit && EnterLoop !in actions
    ensures var t := Run(s, actions);
            t.quit && (Enabled(t, Test) ==> Step(t, Test) == t.(looping := false, phase := Idle))
    decreases actions
  {
    if actions == [] {
      StepKeepsQuit(s, Test);
    } else {
      assert actions[0] in actions;
      StepKeepsQuit(s, actions[0]);
      QuitStays(Step(s, actions[0]), actions[1..]);
    }
  }

  /**
   * A quit is not forgotten: whatever happens after it, short of entering Loop anew, the
   * next test of quit_ leaves the loop.
   */
  lemma QuitEndsLoop(s: State, a: Action, actions: seq<Action>)
    requires Quits(s, a) && EnterLoop !in actions
    ensures var t := Run(Step(s, a), actions);
            t.quit && (Enabled(t, Test) ==> Step(t, Test).phase == Idle && !Step(t, Test).looping)
  {
    QuitStays(Step(s, a), actions);
  }

  /** But Loop clears quit_ as it begins, so a quit before that is lost. */
  lemma EarlyQuitIsForgotten(tid: Tid)
    ensures var s := Run(START, [QuitFrom(tid), Wake(tid)] + [EnterLoop, Test]);
            s.phase == Polling && !s.quit
  {
    RunTwo(START, QuitFrom(tid), Wake(tid));
    var s := Run(START, [QuitFrom(tid), Wake(tid)]);
    RunTwo(s, EnterLoop, Test);
    RunConcat(START, [QuitFrom(tid), Wake(tid)], [EnterLoop, Test]);
  }

  // ---- The loop does not hang --------------------------------------------------

  /** `n` tasks in a row. */
  function RunMany(n: nat): seq<Action> {
    if n == 0 then [] else [RunNext] + RunMany(n - 1)
  }

  lemma RunManyFirst(s: State, n: nat)
    requires n > 0 && Enabled(s, RunNext)
    ensures var b, i := s.phase.batch, s.phase.i;
            var next := s.(executed := s.executed + [b[i]], phase := Running(b, i + 1));
            Run(s, RunMany(n)) == Run(next, RunMany(n - 1))
  {
    assert RunMany(n)[1..] == RunMany(n - 1);
  }

  lemma {:induction false} RunManyRuns(s: State, n: nat)
    requires s.phase.Running? && !s.owes && s.phase.i + n <= |s.phase.batch|
    ensures var t := Run(s, RunMany(n));
            t == s.(executed := s.executed + s.phase.batch[s.phase.i..s.phase.i + n],
                    phase := Running(s.phase.batch, s.phase.i + n))
    decreases n
  {
    var b, i := s.phase.batch, s.phase.i;
    if n == 0 {
      assert s.executed + b[i..i] == s.executed;
    } else {
      var next := s.(executed := s.executed + [b[i]], phase := Running(b, i + 1));
      RunManyFirst(s, n);
      RunManyRuns(next, n - 1);
      Slice(s.executed, b, i, i + n);
    }
  }

  /** One turn of the loop that finds the eventfd readable. */
  function Turn(n: nat): seq<Action> {
    [PollReturns([WakeReady]), Handle, Swap] + RunMany(n) + [EndBatch, Test]
  }

  lemma TurnBegins(s: State)
    requires Inv(s) && s.phase.Polling? && s.counter > 0
    ensures Run(s, [PollReturns([WakeReady]), Handle, Swap]) ==
            s.(counter := 0, queue := [], doing := true, phase := Running(s.queue, 0))
  {
    RunThree(s, PollReturns([WakeReady]), Handle, Swap);
    assert [WakeReady][1..] == [];
  }

  lemma TurnEnds(s: State)
    requires s.phase.Running? && !s.owes && s.phase.i == |s.phase.batch|
    ensures var t := Run(s, [EndBatch, Test]);
            && t.executed == s.executed && t.queue == s.queue && t.counter == s.counter && t.quit == s.quit
            && t.phase == if s.quit then Idle else Polling
  {
    RunTwo(s, EndBatch, Test);
  }

  lemma TurnRuns(s: State)
    requires Inv(s) && s.phase.Polling? && s.counter > 0
    ensures var t := Run(s, Turn(|s.queue|));
            && t.executed == s.executed + s.queue && t.queue == [] && t.counter == 0 && t.quit == s.quit
            && t.phase == if s.quit then Idle else Polling
  {
    var n := |s.queue|;
    var first := [PollReturns([WakeReady]), Handle, Swap];
    RunConcat(s, first + RunMany(n), [EndBatch, Test]);
    RunConcat(s, first, RunMany(n));
    TurnBegins(s);
    RunManyRuns(Run(s, first), n);
    assert s.queue[0..n] == s.queue;
    TurnEnds(Run(Run(s, first), RunMany(n)));
  }

  /** New work: anything but the loop's own turn and a wake-up already owed. */
  predicate NewWork(a: Action) {
    a.Push? || a.QuitFrom? || a.QueueEarly? || a.LoopQueue? || a.LoopQuit?
  }

  /**
   * From poll with work or a quit pending, the loop thread and one thread that already
   * owes its wake-up are enough: every queued task is run, and a quit ends the loop.
   */
  lemma LoopMakesProgress(s: State) returns (actions: seq<Action>)
    requires Inv(s) && s.phase.Polling? && (s.queue != [] || s.quit)
    ensures forall a :: a in actions ==> !NewWork(a)
    ensures var t := Run(s, actions);
            && t.executed == s.executed + s.queue && t.queue == []
            && t.phase == if s.quit then Idle else Polling
  {
    RunManyOnly(|s.queue|);
    if s.counter > 0 {
      TurnRuns(s);
      actions := Turn(|s.queue|);
    } else {
      var tid :| tid in s.waking;
      var t := Step(s, Wake(tid));
      RunOne(s, Wake(tid));
      TurnRuns(t);
      actions := [Wake(tid)] + Turn(|s.queue|);
      RunConcat(s, [Wake(tid)], Turn(|s.queue|));
    }
  }

  lemma RunManyOnly(n: nat)
    ensures forall a :: a in RunMany(n) ==> a == RunNext
  {
  }

  // ---- Exactly once, in order -------------------------------------------------

  /** The tasks of the current batch not started yet. */
  function Rest(s: State): seq<Task> {
    if s.phase.Running? && s.phase.i <= |s.phase.batch| then s.phase.batch[s.phase.i..] else []
  }

  predicate Fifo(s: State) {
    && s.executed + Rest(s) + s.queue == s.queued
    && (s.phase.Running? ==> s.phase.i <= |s.phase.batch|)
  }

  lemma StepKeepsFifo(s: State, a: Action)
    requires Fifo(s)
    ensures Fifo(Step(s, a))
  {
    if Enabled(s, a) {
      match a
      case Push(_, task) => Tail(s.executed + Rest(s), s.queue, task);
      case QueueEarly(task) => Tail(s.executed + Rest(s), s.queue, task);
      case LoopQueue(task) => Tail(s.executed + Rest(s), s.queue, task);
      case Swap =>
        assert s.queue[0..] == s.queue;
        assert s.executed + [] + s.queue == s.executed + s.queue + [];
      case RunNext =>
        var b, i := s.phase.batch, s.phase.i;
        assert b[i..] == [b[i]] + b[i + 1..];
        assert s.executed + b[i..] == (s.executed + [b[i]]) + b[i + 1..];
      case EndBatch => assert Rest(s) == [];
      case _ =>
    }
  }

  lemma Tail(front: seq<Task>, queue: seq<Task>, task: Task)
    ensures front + (queue + [task]) == (front + queue) + [task]
  {
  }

  /** Executed, then the rest of the batch, then the queue: always all tasks, in lock order. */
  lemma {:induction false} ExactlyOnceInOrder(s: State, actions: seq<Action>)
    requires Fifo(s)
    ensures Fifo(Run(s, actions))
    decreases actions
  {
    if actions != [] {
      StepKeepsFifo(s, actions[0]);
      ExactlyOnceInOrder(Step(s, actions[0]), actions[1..]);
    }
  }

  /** The task a step queues, by whichever thread. */
  function SubmittedBy(s: State, a: Action): seq<Task> {
    if !Enabled(s, a) then []
    else if a.Push? || a.QueueEarly? || a.LoopQueue? then [a.task]
    else []
  }

  function Submitted(s: State, actions: seq<Action>): seq<Task>
    decreases actions
  {
    if actions == [] then [] else SubmittedBy(s, actions[0]) + Submitted(Step(s, actions[0]), actions[1..])
  }

  lemma StepSubmits(s: State, a: Action)
    ensures Step(s, a).queued == s.queued + SubmittedBy(s, a)
  {
    assert s.queued + [] == s.queued;
  }

  /** And all queued tasks are all that were handed to QueueInLoop: none is refused or dropped. */
  lemma {:induction false} QueuedExactly(s: State, actions: seq<Action>)
    ensures Run(s, actions).queued == s.queued + Submitted(s, actions)
    decreases actions
  {
    if actions == [] {
      assert s.queued + [] == s.queued;
    } else {
      var t := Step(s, actions[0]);
      StepSubmits(s, actions[0]);
      QueuedExactly(t, actions[1..]);
      assert (s.queued + SubmittedBy(s, actions[0])) + Submitted(t, actions[1..]) ==
             s.queued + (SubmittedBy(s, actions[0]) + Submitted(t, actions[1..]));
    }
  }

  /** A task queued by a handler needs no wake-up: the DoPendingTask of the same round runs it. */
  lemma HandlerTaskRunsThisRound(s: State, task: Task)
    requires Inv(s) && s.phase == Dispatching([]) && !s.owes
    ensures Run(s, [LoopQueue(task), Swap]).phase == Running(s.queue + [task], 0)
    ensures Run(s, [LoopQueue(task), Swap]).queue == []
  {
    RunTwo(s, LoopQueue(task), Swap);
  }

  /** The run stays in one DoPendingTask. */
  predicate InOneBatch(s: State, actions: seq<Action>)
    decreases actions
  {
    s.phase.Running? && (actions == [] || InOneBatch(Step(s, actions[0]), actions[1..]))
  }

  function Count(actions: seq<Action>, s: State): nat
    decreases actions
  {
    if actions == [] then 0
    else (if actions[0] == RunNext && Enabled(s, RunNext) then 1 else 0) + Count(actions[1..], Step(s, actions[0]))
  }

  lemma BatchStep(s: State, a: Action)
    requires s.phase.Running? && s.phase.i <= |s.phase.batch| && Step(s, a).phase.Running?
    ensures var t := Step(s, a);
            if a == RunNext && Enabled(s, RunNext) then
              t.phase == Running(s.phase.batch, s.phase.i + 1) && s.phase.i < |s.phase.batch| &&
              t.executed == s.executed + [s.phase.batch[s.phase.i]]
            else
              t.phase == s.phase && t.executed == s.executed
  {
  }

  /**
   * Whatever is queued meanwhile, one DoPendingTask runs only the batch it swapped out,
   * in order, and can end only when all of it has been run.
   */
  lemma {:induction false} BatchIsFixed(s: State, actions: seq<Action>)
    requires s.phase.Running? && s.phase.i <= |s.phase.batch| && InOneBatch(s, actions)
    ensures var t := Run(s, actions);
            var j := s.phase.i + Count(actions, s);
            && j <= |s.phase.batch| && t.phase == Running(s.phase.batch, j)
            && t.executed == s.executed + s.phase.batch[s.phase.i..j]
            && (Enabled(t, EndBatch) ==> j == |s.phase.batch|)
    decreases actions
  {
    var b, i := s.phase.batch, s.phase.i;
    if actions == [] {
      assert s.executed + b[i..i] == s.executed;
    } else {
      var next := Step(s, actions[0]);
      BatchStep(s, actions[0]);
      BatchIsFixed(next, actions[1..]);
      if actions[0] == RunNext && Enabled(s, RunNext) {
        Slice(s.executed, b, i, i + Count(actions, s));
      }
    }
  }

  lemma Slice(front: seq<Task>, b: seq<Task>, i: nat, j: nat)
    requires i < j <= |b|
    ensures (front + [b[i]]) + b[i + 1..j] == front + b[i..j]
  {
  }
}
