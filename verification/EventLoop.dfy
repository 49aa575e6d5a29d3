/**
 * framework/net/src/EventLoop.cpp over the fields of the object.  Between two of its
 * own accesses to shared state a method lets any list of other steps happen
 * (`Meanwhile`); each method is proved to be a run of EventLoopSpec, and
 * DoPendingTask to run exactly the tasks that were queued when it swapped.
 */
module EventLoops {
  import opened EventLoopSpec

  /** Steps of other threads, and calls made by the handler or task now on the loop thread. */
  predicate Elsewhere(a: Action) {
    a.Push? || a.QuitFrom? || a.Wake? || a.LoopQueue? || a.LoopQuit? || a.LoopWake?
  }

  predicate AllElsewhere(actions: seq<Action>) {
    forall a :: a in actions ==> Elsewhere(a)
  }

  lemma ElsewhereStep(s: State, a: Action)
    requires Elsewhere(a)
    ensures var t := Step(s, a);
            t.phase == s.phase && t.executed == s.executed && t.doing == s.doing && t.looping == s.looping
  {
  }

  lemma {:induction false} ElsewhereKeepsPlace(s: State, actions: seq<Action>)
    requires AllElsewhere(actions)
    ensures var t := Run(s, actions);
            t.phase == s.phase && t.executed == s.executed && t.doing == s.doing && t.looping == s.looping
    ensures Handled(s, actions) == []
    decreases actions
  {
    if actions != [] {
      assert actions[0] in actions && forall a :: a in actions[1..] ==> a in actions;
      ElsewhereStep(s, actions[0]);
      ElsewhereKeepsPlace(Step(s, actions[0]), actions[1..]);
    }
  }

  /** The events whose handlers a run calls, in order. */
  function Handled(s: State, actions: seq<Action>): seq<Event>
    decreases actions
  {
    if actions == [] then []
    else
      (if actions[0] == Handle && Enabled(s, Handle) then [s.phase.events[0]] else []) +
      Handled(Step(s, actions[0]), actions[1..])
  }

  lemma {:induction false} HandledConcat(s: State, a: seq<Action>, b: seq<Action>)
    ensures Handled(s, a + b) == Handled(s, a) + Handled(Run(s, a), b)
    decreases a
  {
    if a == [] {
      assert a + b == b;
    } else {
      assert (a + b)[1..] == a[1..] + b;
      HandledConcat(Step(s, a[0]), a[1..], b);
    }
  }

  /** One call of a handler: the event at the head, then steps that handle none. */
  lemma HandlesOne(s: State, elsewhere: seq<Action>)
    requires Enabled(s, Handle) && AllElsewhere(elsewhere)
    ensures Handled(s, [Handle] + elsewhere) == [s.phase.events[0]]
  {
    assert ([Handle] + elsewhere)[1..] == elsewhere;
    ElsewhereKeepsPlace(Step(s, Handle), elsewhere);
  }

  lemma {:induction false} OwedUntilWake(s: State, actions: seq<Action>, tid: Tid)
    requires tid in s.waking && Wake(tid) !in actions
    ensures tid in Run(s, actions).waking
    decreases actions
  {
    if actions != [] {
      assert actions[0] in actions && forall a :: a in actions[1..] ==> a in actions;
      OwedUntilWake(Step(s, actions[0]), actions[1..], tid);
    }
  }

  class EventLoop {
    var task_: seq<Task>
    var doing_task_: bool
    var quit_: bool
    var loop_: bool
    var counter: nat              // of wakeup_fd_
    // where the threads are, and the history
    var phase: Phase
    var owes: bool
    var waking: set<Tid>
    var queued: seq<Task>
    var executed: seq<Task>

    function Abs(): State
      reads this
    {
      State(counter, task_, quit_, loop_, doing_task_, phase, owes, waking, queued, executed)
    }

    constructor ()
      ensures Abs() == START
    {
      task_, doing_task_, quit_, loop_, counter := [], false, false, false, 0;
      phase, owes, waking, queued, executed := Idle, false, {}, [], [];
    }

    /** The rest of the world between two accesses of a method to shared state. */
    method Meanwhile(actions: seq<Action>)
      modifies this
      ensures Abs() == Run(old(Abs()), actions)
    {
      var t := Run(Abs(), actions);
      counter, task_, quit_, loop_, doing_task_ := t.counter, t.queue, t.quit, t.looping, t.doing;
      phase, owes, waking, queued, executed := t.phase, t.owes, t.waking, t.queued, t.executed;
    }

    /** ::write(wakeup_fd_, 1), which fails rather than overflow the counter. */
    method WakeUP()
      modifies this`counter
      ensures counter == Bump(old(counter)) && (old(counter) < EVENTFD_MAX ==> counter == old(counter) + 1)
    {
      if counter < EVENTFD_MAX {
        counter := counter + 1;
      }
    }

    /** ::read(wakeup_fd_), called by the loop thread for the wake-up channel. */
    method HandleRead()
      requires Enabled(Abs(), Handle) && phase.events[0] == WakeReady
      modifies this`counter, this`phase
      ensures Abs() == Step(old(Abs()), Handle)
      ensures counter == 0 && phase == old(Dispatching(phase.events[1..]))
    {
      counter := 0;
      phase := Dispatching(phase.events[1..]);
    }

    /** The locked push_back of QueueInLoop. */
    method PushBack(task: Task)
      modifies this`task_, this`queued
      ensures Abs() == Pushed(old(Abs()), task) && task_ == old(task_) + [task] && queued == old(queued) + [task]
    {
      task_ := task_ + [task];
      queued := queued + [task];
    }

    /** QueueInLoop (or RunInLoop) from another thread; anything at all may happen before its WakeUP. */
    method QueueInLoop(tid: Tid, task: Task, between: seq<Action>)
      requires tid !in waking && Wake(tid) !in between
      modifies this
      ensures Abs() == Run(old(Abs()), [Push(tid, task)] + between + [Wake(tid)])
      ensures counter > 0 && tid !in waking
      ensures |queued| > |old(queued)| && queued[..|old(queued)| + 1] == old(queued) + [task]
    {
      ghost var s := Abs();
      PushBack(task);
      waking := waking + {tid};
      ghost var pushed := Abs();
      RunOne(s, Push(tid, task));
      RunConcat(s, [Push(tid, task)], between);
      OwedUntilWake(pushed, between, tid);
      QueuedExactly(pushed, between);
      Meanwhile(between);
      RunOne(Abs(), Wake(tid));
      RunConcat(s, [Push(tid, task)] + between, [Wake(tid)]);
      WakeUP();
      waking := waking - {tid};
    }

    /** QueueInLoop from a handler or a task of the loop thread. */
    method QueueFromLoop(task: Task)
      requires MayCall(Abs()) && (doing_task_ <==> phase.Running?)
      modifies this
      ensures Abs() == Run(old(Abs()), [LoopQueue(task), LoopWake])
      ensures task_ == old(task_) + [task] && queued == old(queued) + [task] && phase == old(phase) && !owes
      ensures if phase.Running? then counter > 0 else counter == old(counter)
    {
      RunTwo(Abs(), LoopQueue(task), LoopWake);
      PushBack(task);
      if doing_task_ {
        WakeUP();
      }
    }

    /** Quit from another thread; unless Loop is entered before its WakeUP, quit_ is set when it returns. */
    method Quit(tid: Tid, between: seq<Action>)
      requires tid !in waking && Wake(tid) !in between
      modifies this
      ensures Abs() == Run(old(Abs()), [QuitFrom(tid)] + between + [Wake(tid)])
      ensures counter > 0 && tid !in waking
      ensures EnterLoop !in between ==> quit_
    {
      ghost var s := Abs();
      quit_ := true;
      waking := waking + {tid};
      RunOne(s, QuitFrom(tid));
      RunConcat(s, [QuitFrom(tid)], between);
      OwedUntilWake(Abs(), between, tid);
      if EnterLoop !in between {
        QuitStays(Abs(), between);
      }
      Meanwhile(between);
      RunOne(Abs(), Wake(tid));
      RunConcat(s, [QuitFrom(tid)] + between, [Wake(tid)]);
      WakeUP();
      waking := waking - {tid};
    }

    /** Quit from a handler or a task of the loop thread. */
    method QuitFromLoop()
      requires MayCall(Abs())
      modifies this
      ensures Abs() == Run(old(Abs()), [LoopQuit, LoopWake])
      ensures quit_ && counter > 0 && task_ == old(task_) && phase == old(phase) && !owes
    {
      RunTwo(Abs(), LoopQuit, LoopWake);
      quit_ := true;
      WakeUP();
    }

    /** Whoever called QueueInLoop or Quit on the loop thread goes on only after the WakeUP. */
    method CompleteCall() returns (ghost trace: seq<Action>)
      modifies this`counter, this`owes
      ensures Abs() == Run(old(Abs()), trace) && !owes && AllElsewhere(trace)
    {
      trace := [];
      if owes {
        RunOne(Abs(), LoopWake);
        trace := [LoopWake];
        WakeUP();
        owes := false;
      }
    }

    /** The calls a handler or a task makes, and what other threads do meanwhile. */
    method MakeCalls(during: seq<Action>) returns (ghost trace: seq<Action>)
      requires AllElsewhere(during)
      modifies this
      ensures Abs() == Run(old(Abs()), trace) && AllElsewhere(trace) && !owes
      ensures phase == old(phase) && executed == old(executed) && doing_task_ == old(doing_task_)
    {
      ghost var s := Abs();
      ElsewhereKeepsPlace(s, during);
      Meanwhile(during);
      trace := CompleteCall();
      RunConcat(s, during, trace);
      trace := during + trace;
    }

    /** `task[i]()`, with the calls it makes and what other threads do meanwhile. */
    method CallTask(during: seq<Action>) returns (ghost trace: seq<Action>)
      requires Enabled(Abs(), RunNext) && doing_task_ && AllElsewhere(during)
      modifies this
      ensures Abs() == Run(old(Abs()), trace)
      ensures phase == old(Running(phase.batch, phase.i + 1)) && !owes && doing_task_
      ensures executed == old(executed + [phase.batch[phase.i]])
    {
      ghost var s := Abs();
      executed := executed + [phase.batch[phase.i]];
      phase := Running(phase.batch, phase.i + 1);
      RunOne(s, RunNext);
      ghost var calls := MakeCalls(during);
      RunConcat(s, [RunNext], calls);
      trace := [RunNext] + calls;
    }

    /** The locked swap. */
    method SwapOut() returns (task: seq<Task>)
      requires Enabled(Abs(), Swap)
      modifies this
      ensures task == old(task_) && phase == Running(task, 0) && !owes && doing_task_ && executed == old(executed)
      ensures Abs() == Run(old(Abs()), [Swap])
    {
      RunOne(Abs(), Swap);
      doing_task_ := true;
      task := [];
      task, task_ := task_, task;
      phase := Running(task, 0);
    }

    /** The end of DoPendingTask. */
    method LeaveBatch()
      requires Enabled(Abs(), EndBatch)
      modifies this
      ensures Abs() == Run(old(Abs()), [EndBatch])
      ensures phase == Testing && !doing_task_ && !owes && executed == old(executed)
    {
      RunOne(Abs(), EndBatch);
      doing_task_ := false;
      phase := Testing;
    }

    /**
     * `during[i]` is what other threads, and the calls of task[i] itself, do while task[i]
     * runs.  Whatever it is, the tasks run are those queued at the swap, in order.
     */
    method DoPendingTask(during: seq<seq<Action>>) returns (ghost trace: seq<Action>)
      requires Enabled(Abs(), Swap)
      requires forall k :: 0 <= k < |during| ==> AllElsewhere(during[k])
      modifies this
      ensures Abs() == Run(old(Abs()), trace)
      ensures executed == old(executed) + old(task_)
      ensures phase == Testing && !doing_task_ && !owes
    {
      ghost var s := Abs();
      var task := SwapOut();
      trace := [Swap];
      for i := 0 to |task|
        invariant Abs() == Run(s, trace)
        invariant phase == Running(task, i) && !owes && doing_task_
        invariant executed == s.executed + task[..i]
      {
        ghost var own := CallTask(if i < |during| then during[i] else []);
        RunConcat(s, trace, own);
        trace := trace + own;
      }
      LeaveBatch();
      RunConcat(s, trace, [EndBatch]);
      trace := trace + [EndBatch];
    }

    // ---- The loop -------------------------------------------------------------

    /** `channel->HandleEvent()` for the first ready channel; `calls` is what its handler does, and others meanwhile. */
    method HandleEvent(calls: seq<Action>) returns (ghost trace: seq<Action>)
      requires Enabled(Abs(), Handle) && AllElsewhere(calls)
      modifies this
      ensures Abs() == Run(old(Abs()), trace)
      ensures Handled(old(Abs()), trace) == [old(phase.events[0])]
      ensures phase == old(Dispatching(phase.events[1..])) && !owes
    {
      ghost var s := Abs();
      RunOne(s, Handle);
      if phase.events[0] == WakeReady {
        HandleRead();
      } else {
        phase := Dispatching(phase.events[1..]);
      }
      ghost var made := MakeCalls(calls);
      RunConcat(s, [Handle], made);
      HandlesOne(s, made);
      trace := [Handle] + made;
    }

    /** The for loop of Loop over the active channels: the handler of each is called once, in order. */
    method HandleAll(handlers: seq<seq<Action>>) returns (ghost trace: seq<Action>)
      requires phase.Dispatching? && !owes
      requires forall k :: 0 <= k < |handlers| ==> AllElsewhere(handlers[k])
      modifies this
      ensures Abs() == Run(old(Abs()), trace)
      ensures Handled(old(Abs()), trace) == old(phase.events)
      ensures phase == Dispatching([]) && !owes
    {
      ghost var s := Abs();
      trace := [];
      var active := phase.events;
      for k := 0 to |active|
        invariant Abs() == Run(s, trace) && Handled(s, trace) == active[..k]
        invariant phase == Dispatching(active[k..]) && !owes
      {
        assert active[k..] != [] && active[k..][1..] == active[k + 1..];
        ghost var own := HandleEvent(if k < |handlers| then handlers[k] else []);
        RunConcat(s, trace, own);
        HandledConcat(s, trace, own);
        trace := trace + own;
      }
    }

    /** Somebody else's steps while the loop thread itself makes no call. */
    method Pause(actions: seq<Action>)
      requires AllElsewhere(actions) && !owes && (phase == Testing || phase == Polling || phase == Dispatching([]))
      modifies this
      ensures Abs() == Run(old(Abs()), Foreign(actions))
      ensures phase == old(phase) && !owes && executed == old(executed)
    {
      ForeignStays(Abs(), actions);
      Meanwhile(Foreign(actions));
    }

    /** One round of `while (!quit_)` after the test. */
    method Turn(turn: TurnScript) returns (ghost trace: seq<Action>)
      requires phase == Polling && !owes && turn.Legal()
      modifies this
      ensures Abs() == Run(old(Abs()), trace)
      ensures phase == Testing && !owes
    {
      ghost var s := Abs();
      Pause(turn.inPoll);
      trace := Foreign(turn.inPoll);
      var events := if PollAllows(Abs(), turn.events) then turn.events else [];
      RunOne(Abs(), PollReturns(events));
      RunConcat(s, trace, [PollReturns(events)]);
      trace := trace + [PollReturns(events)];
      phase := Dispatching(events);
      ghost var handled := HandleAll(turn.handlers);
      RunConcat(s, trace, handled);
      trace := trace + handled;
      Pause(turn.beforeSwap);
      RunConcat(s, trace, Foreign(turn.beforeSwap));
      trace := trace + Foreign(turn.beforeSwap);
      ghost var done := DoPendingTask(turn.during);
      RunConcat(s, trace, done);
      trace := trace + done;
    }

    /** One round of `while (!quit_)`, from the test that lets it in to the next test. */
    method Round(turn: TurnScript) returns (ghost trace: seq<Action>)
      requires phase == Testing && !owes && !quit_ && turn.Legal()
      modifies this
      ensures Abs() == Run(old(Abs()), trace)
      ensures phase == Testing && !owes
    {
      ghost var s := Abs();
      RunOne(s, Test);
      phase := Polling;
      trace := Turn(turn);
      RunConcat(s, [Test], trace);
      trace := [Test] + trace;
      Pause(turn.atTest);
      RunConcat(s, trace, Foreign(turn.atTest));
      trace := trace + Foreign(turn.atTest);
    }

    /** Loop, for as many rounds as `turns` tells of; it is left for good only when quit_ is seen. */
    method Loop(turns: seq<TurnScript>) returns (ghost trace: seq<Action>)
      requires phase == Idle && !owes
      requires forall k :: 0 <= k < |turns| ==> turns[k].Legal()
      modifies this
      ensures Abs() == Run(old(Abs()), trace)
      ensures phase == Idle || phase == Testing
      ensures if phase == Idle then quit_ && !loop_ else !quit_
    {
      ghost var s := Abs();
      RunOne(s, EnterLoop);
      loop_ := true;
      quit_ := false;
      phase := Testing;
      trace := [EnterLoop];
      var k := 0;
      while !quit_ && k < |turns|
        invariant 0 <= k <= |turns|
        invariant Abs() == Run(s, trace)
        invariant phase == Testing && !owes
      {
        ghost var own := Round(turns[k]);
        RunConcat(s, trace, own);
        trace := trace + own;
        k := k + 1;
      }
      if quit_ {
        RunOne(Abs(), Test);
        RunConcat(s, trace, [Test]);
        trace := trace + [Test];
        loop_ := false;
        phase := Idle;
      }
    }
  }

  /** What the rest of the world does during one round of the loop. */
  datatype TurnScript = TurnScript(
    inPoll: seq<Action>, events: seq<Event>, handlers: seq<seq<Action>>,
    beforeSwap: seq<Action>, during: seq<seq<Action>>, atTest: seq<Action>)
  {
    predicate Legal() {
      && AllElsewhere(inPoll) && AllElsewhere(beforeSwap) && AllElsewhere(atTest)
      && (forall k :: 0 <= k < |handlers| ==> AllElsewhere(handlers[k]))
      && (forall k :: 0 <= k < |during| ==> AllElsewhere(during[k]))
    }
  }

  /** The steps of other threads among `actions`. */
  function Foreign(actions: seq<Action>): seq<Action> {
    if actions == [] then []
    else
      (if actions[0].Push? || actions[0].QuitFrom? || actions[0].Wake? then [actions[0]] else []) +
      Foreign(actions[1..])
  }

  lemma {:induction false} ForeignStays(s: State, actions: seq<Action>)
    requires !s.owes
    ensures var t := Run(s, Foreign(actions));
            t.phase == s.phase && !t.owes && t.executed == s.executed
    decreases actions
  {
    if actions != [] {
      var a, rest := actions[0], Foreign(actions[1..]);
      if a.Push? || a.QuitFrom? || a.Wake? {
        assert Foreign(actions) == [a] + rest && ([a] + rest)[1..] == rest;
        ForeignStays(Step(s, a), actions[1..]);
      } else {
        assert Foreign(actions) == rest;
        ForeignStays(s, actions[1..]);
      }
    }
  }
}
