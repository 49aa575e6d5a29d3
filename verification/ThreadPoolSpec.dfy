/**
 * The monitor of framework/thread/src/ThreadPool.cpp, one step for each critical
 * section: a bounded queue, two condition variables with single signals, spurious
 * wake-ups, and threads that take the lock ahead of a woken one.  `cap` is
 * max_queue_size_; zero means unbounded.
 */
module ThreadPoolSpec {
  import opened Common

  type Task = nat

  /** Where a worker is in runInThread. */
  datatype Worker =
    | AtTest                       // about to read running_
    | Entering                     // about to lock in take
    | Asleep                       // in notEmpty_.wait
    | Woken                        // out of the wait, about to lock again
    | Busy(task: Option<Task>)     // back from take
    | Exited

  /** Where another thread is in runTask. */
  datatype Producer =
    | Outside
    | Arriving(task: Task)         // about to lock
    | Blocked(task: Task)          // in notFull_.wait
    | Retrying(task: Task)         // out of the wait, about to lock again

  datatype State = State(
    cap: nat,
    queue: seq<Task>,
    running: bool,
    workers: seq<Worker>,
    producers: seq<Producer>,
    // history
    submitted: seq<Task>,          // pushed, in lock order
    taken: seq<Task>,              // popped, in lock order
    inline: seq<Task>)             // run by the caller: there are no workers

  /** `pick` is the sleeper a signal wakes; any sleeper may be picked. */
  datatype Action =
    | TestRunning(w: nat)
    | TakeLock(w: nat, pick: nat)
    | Finish(w: nat)
    | WorkerSpurious(w: nat)
    | RunTask(p: nat, task: Task)
    | PushLock(p: nat, pick: nat)
    | ProducerSpurious(p: nat)
    | Stop

  predicate IsFull(s: State) { s.cap > 0 && |s.queue| >= s.cap }

  predicate WorkerAsleep(s: State) { exists i :: 0 <= i < |s.workers| && s.workers[i] == Asleep }

  predicate ProducerBlocked(s: State) { exists i :: 0 <= i < |s.producers| && s.producers[i].Blocked? }

  /** notEmpty_.notify(): one sleeping worker, if there is one. */
  function SignalWorker(s: State, pick: nat): State {
    if pick < |s.workers| && s.workers[pick] == Asleep then s.(workers := s.workers[pick := Woken]) else s
  }

  function SignalProducer(s: State, pick: nat): State {
    if pick < |s.producers| && s.producers[pick].Blocked? then
      s.(producers := s.producers[pick := Retrying(s.producers[pick].task)])
    else s
  }

  /** The critical section of take, from locking to waiting or returning. */
  function Take(s: State, w: nat, pick: nat): State
    requires w < |s.workers|
  {
    if s.queue == [] then
      s.(workers := s.workers[w := if s.running then Asleep else Busy(None)])
    else
      var t := s.(workers := s.workers[w := Busy(Some(s.queue[0]))], queue := s.queue[1..],
                  taken := s.taken + [s.queue[0]]);
      if s.cap > 0 then SignalProducer(t, pick) else t
  }

  /** The critical section of runTask. */
  function Push(s: State, p: nat, task: Task, pick: nat): State
    requires p < |s.producers|
  {
    if IsFull(s) then s.(producers := s.producers[p := Blocked(task)])
    else
      SignalWorker(s.(producers := s.producers[p := Outside], queue := s.queue + [task],
                      submitted := s.submitted + [task]), pick)
  }

  function WakeAll(workers: seq<Worker>): (r: seq<Worker>)
    ensures |r| == |workers|
    ensures forall i {:trigger r[i]} :: 0 <= i < |r| ==> r[i] == if workers[i] == Asleep then Woken else workers[i]
  {
    seq(|workers|, i requires 0 <= i < |workers| => if workers[i] == Asleep then Woken else workers[i])
  }

  predicate Enabled(s: State, a: Action) {
    match a
    case TestRunning(w) => w < |s.workers| && s.workers[w] == AtTest
    case TakeLock(w, pick) =>
      w < |s.workers| && (s.workers[w] == Entering || s.workers[w] == Woken) &&
      (s.queue != [] && ProducerBlocked(s) ==> pick < |s.producers| && s.producers[pick].Blocked?)
    case Finish(w) => w < |s.workers| && s.workers[w].Busy?
    case WorkerSpurious(w) => w < |s.workers| && s.workers[w] == Asleep
    case RunTask(p, _) => p < |s.producers| && s.producers[p].Outside?
    case PushLock(p, pick) =>
      p < |s.producers| && (s.producers[p].Arriving? || s.producers[p].Retrying?) &&
      (!IsFull(s) && WorkerAsleep(s) ==> pick < |s.workers| && s.workers[pick] == Asleep)
    case ProducerSpurious(p) => p < |s.producers| && s.producers[p].Blocked?
    case Stop => true
  }

  /** A step that is not enabled leaves the state alone, so every list of actions is a run. */
  function Step(s: State, a: Action): State {
    if !Enabled(s, a) then s
    else
      match a
      case TestRunning(w) => s.(workers := s.workers[w := if s.running then Entering else Exited])
      case TakeLock(w, pick) => Take(s, w, pick)
      case Finish(w) => s.(workers := s.workers[w := AtTest])
      case WorkerSpurious(w) => s.(workers := s.workers[w := Woken])
      case RunTask(p, task) =>
        if s.workers == [] then s.(inline := s.inline + [task])
        else s.(producers := s.producers[p := Arriving(task)])
      case PushLock(p, pick) => Push(s, p, s.producers[p].task, pick)
      case ProducerSpurious(p) => s.(producers := s.producers[p := Retrying(s.producers[p].task)])
      case Stop => s.(running := false, workers := WakeAll(s.workers))
  }

  function Run(s: State, actions: seq<Action>): State
    decreases actions
  {
    if actions == [] then s else Run(Step(s, actions[0]), actions[1..])
  }

  /** After start(workers), with any number of threads that will call runTask. */
  function Started(cap: nat, workers: nat, producers: nat): State {
    State(cap, [], true, seq(workers, _ => AtTest), seq(producers, _ => Outside), [], [], [])
  }

  // ---- Counting ---------------------------------------------------------------

  function WokenWorkers(workers: seq<Worker>): nat {
    if workers == [] then 0 else (if workers[0] == Woken then 1 else 0) + WokenWorkers(workers[1..])
  }

  function WokenProducers(producers: seq<Producer>): nat {
    if producers == [] then 0 else (if producers[0].Retrying? then 1 else 0) + WokenProducers(producers[1..])
  }

  lemma {:induction false} WorkerMoves(workers: seq<Worker>, i: nat, to: Worker)
    requires i < |workers|
    ensures WokenWorkers(workers[i := to]) ==
            WokenWorkers(workers) - (if workers[i] == Woken then 1 else 0) + (if to == Woken then 1 else 0)
    ensures workers[i] == Woken ==> WokenWorkers(workers) > 0
  {
    if i == 0 {
      assert workers[0 := to][1..] == workers[1..];
    } else {
      assert workers[i := to][1..] == workers[1..][i - 1 := to];
      WorkerMoves(workers[1..], i - 1, to);
    }
  }

  lemma {:induction false} ProducerMoves(producers: seq<Producer>, i: nat, to: Producer)
    requires i < |producers|
    ensures WokenProducers(producers[i := to]) ==
            WokenProducers(producers) - (if producers[i].Retrying? then 1 else 0) + (if to.Retrying? then 1 else 0)
    ensures producers[i].Retrying? ==> WokenProducers(producers) > 0
  {
    if i == 0 {
      assert producers[0 := to][1..] == producers[1..];
    } else {
      assert producers[i := to][1..] == producers[1..][i - 1 := to];
      ProducerMoves(producers[1..], i - 1, to);
    }
  }

  lemma {:induction false} NoneWoken(workers: seq<Worker>, producers: seq<Producer>)
    ensures WokenWorkers(workers) > 0 ==> exists i :: 0 <= i < |workers| && workers[i] == Woken
    ensures WokenProducers(producers) > 0 ==> exists i :: 0 <= i < |producers| && producers[i].Retrying?
    decreases |workers| + |producers|
  {
    if workers != [] {
      NoneWoken(workers[1..], []);
      if WokenWorkers(workers[1..]) > 0 {
        var i :| 0 <= i < |workers[1..]| && workers[1..][i] == Woken;
        assert workers[i + 1] == Woken;
      }
    }
    if producers != [] {
      NoneWoken([], producers[1..]);
      if WokenProducers(producers[1..]) > 0 {
        var i :| 0 <= i < |producers[1..]| && producers[1..][i].Retrying?;
        assert producers[i + 1].Retrying?;
      }
    }
  }

  // ---- No lost signal ---------------------------------------------------------

  /**
   * While a worker sleeps, every queued task has a woken worker coming for it; while a
   * producer sleeps, every free slot has a woken producer coming for it.
   */
  predicate SignalsHeld(s: State) {
    && (WorkerAsleep(s) ==> |s.queue| <= WokenWorkers(s.workers))
    && (ProducerBlocked(s) ==> s.cap > 0 && s.cap - |s.queue| <= WokenProducers(s.producers))
    && (s.cap > 0 ==> |s.queue| <= s.cap)
    && (!s.running ==> !WorkerAsleep(s))
  }

  lemma TakeHolds(s: State, w: nat, pick: nat)
    requires SignalsHeld(s) && Enabled(s, TakeLock(w, pick))
    ensures SignalsHeld(Take(s, w, pick))
  {
    var t := Take(s, w, pick);
    if s.queue == [] {
      WorkerMoves(s.workers, w, if s.running then Asleep else Busy(None));
      if !s.running {
        forall i | 0 <= i < |t.workers|
          ensures t.workers[i] != Asleep
        {
          assert s.workers[i] != Asleep;
        }
      }
    } else {
      WorkerMoves(s.workers, w, Busy(Some(s.queue[0])));
      if WorkerAsleep(t) {
        var i :| 0 <= i < |t.workers| && t.workers[i] == Asleep;
        assert s.workers[i] == Asleep;
      }
      if s.cap > 0 && ProducerBlocked(s) {
        ProducerMoves(s.producers, pick, Retrying(s.producers[pick].task));
      }
      if ProducerBlocked(t) {
        var i :| 0 <= i < |t.producers| && t.producers[i].Blocked?;
        assert s.producers[i].Blocked?;
      }
    }
  }

  lemma PushHolds(s: State, p: nat, pick: nat)
    requires SignalsHeld(s) && Enabled(s, PushLock(p, pick))
    ensures SignalsHeld(Push(s, p, s.producers[p].task, pick))
  {
    var task := s.producers[p].task;
    var t := Push(s, p, task, pick);
    if IsFull(s) {
      ProducerMoves(s.producers, p, Blocked(task));
    } else {
      ProducerMoves(s.producers, p, Outside);
      if WorkerAsleep(s) {
        WorkerMoves(s.workers, pick, Woken);
      }
      if WorkerAsleep(t) {
        var i :| 0 <= i < |t.workers| && t.workers[i] == Asleep;
        assert s.workers[i] == Asleep;
      }
      if ProducerBlocked(t) {
        var i :| 0 <= i < |t.producers| && t.producers[i].Blocked?;
        assert s.producers[i].Blocked?;
      }
    }
  }

  /** A worker moving outside the lock, to anywhere but sleep. */
  lemma WorkerMoveHolds(s: State, w: nat, to: Worker)
    requires SignalsHeld(s) && w < |s.workers| && to != Asleep
    requires s.workers[w] != Woken
    ensures SignalsHeld(s.(workers := s.workers[w := to]))
  {
    var t := s.(workers := s.workers[w := to]);
    WorkerMoves(s.workers, w, to);
    if WorkerAsleep(t) {
      var i :| 0 <= i < |t.workers| && t.workers[i] == Asleep;
      assert s.workers[i] == Asleep;
    }
    assert ProducerBlocked(t) <==> ProducerBlocked(s);
  }

  lemma ProducerMoveHolds(s: State, p: nat, to: Producer)
    requires SignalsHeld(s) && p < |s.producers| && !to.Blocked?
    requires !s.producers[p].Retrying?
    ensures SignalsHeld(s.(producers := s.producers[p := to]))
  {
    var t := s.(producers := s.producers[p := to]);
    ProducerMoves(s.producers, p, to);
    if ProducerBlocked(t) {
      var i :| 0 <= i < |t.producers| && t.producers[i].Blocked?;
      assert s.producers[i].Blocked?;
    }
    assert WorkerAsleep(t) <==> WorkerAsleep(s);
  }

  lemma StepHolds(s: State, a: Action)
    requires SignalsHeld(s)
    ensures SignalsHeld(Step(s, a))
  {
    if Enabled(s, a) {
      match a
      case TestRunning(w) => WorkerMoveHolds(s, w, if s.running then Entering else Exited);
      case TakeLock(w, pick) => TakeHolds(s, w, pick);
      case Finish(w) => WorkerMoveHolds(s, w, AtTest);
      case WorkerSpurious(w) => WorkerMoveHolds(s, w, Woken);
      case RunTask(p, task) =>
        if s.workers != [] { ProducerMoveHolds(s, p, Arriving(task)); }
        else { assert ProducerBlocked(Step(s, a)) <==> ProducerBlocked(s); }
      case PushLock(p, pick) => PushHolds(s, p, pick);
      case ProducerSpurious(p) => ProducerMoveHolds(s, p, Retrying(s.producers[p].task));
      case Stop =>
        assert !WorkerAsleep(Step(s, a));
        assert ProducerBlocked(Step(s, a)) <==> ProducerBlocked(s);
    }
  }

  lemma {:induction false} EveryRunHolds(s: State, actions: seq<Action>)
    requires SignalsHeld(s)
    ensures SignalsHeld(Run(s, actions))
    decreases actions
  {
    if actions != [] {
      StepHolds(s, actions[0]);
      EveryRunHolds(Step(s, actions[0]), actions[1..]);
    }
  }

  lemma StartHolds(cap: nat, workers: nat, producers: nat)
    ensures SignalsHeld(Started(cap, workers, producers)) && Conserved(Started(cap, workers, producers))
  {
  }

  // ---- No deadlock ------------------------------------------------------------

  predicate Spurious(a: Action) { a.WorkerSpurious? || a.ProducerSpurious? }

  /** A step of a thread that is neither asleep nor outside, and not a spurious wake-up. */
  predicate Progress(s: State, a: Action) {
    Enabled(s, a) && !Spurious(a) && !a.RunTask? && a != Stop
  }

  /**
   * Before stop, with at least one worker, no reachable state has a queued task or a
   * blocked producer and nobody to move it: some thread is awake and can act, without
   * counting on a spurious wake-up.
   */
  lemma NoDeadlock(cap: nat, workers: nat, producers: nat, actions: seq<Action>) returns (a: Action)
    requires workers > 0
    requires var s := Run(Started(cap, workers, producers), actions);
             s.running && (s.queue != [] || ProducerBlocked(s))
    ensures Progress(Run(Started(cap, workers, producers), actions), a)
  {
    var start := Started(cap, workers, producers);
    var s := Run(start, actions);
    StartHolds(cap, workers, producers);
    EveryRunHolds(start, actions);
    CrewStays(start, actions);
    a := SomeoneActs(s);
  }

  /** Threads neither appear nor vanish, and workers exit only after stop. */
  lemma {:induction false} CrewStays(s: State, actions: seq<Action>)
    requires s.running ==> Exited !in s.workers
    ensures var t := Run(s, actions);
            |t.workers| == |s.workers| && |t.producers| == |s.producers| && t.cap == s.cap &&
            (t.running ==> Exited !in t.workers)
    decreases actions
  {
    if actions != [] {
      CrewStep(s, actions[0]);
      CrewStays(Step(s, actions[0]), actions[1..]);
    }
  }

  lemma CrewStep(s: State, a: Action)
    requires s.running ==> Exited !in s.workers
    ensures var t := Step(s, a);
            |t.workers| == |s.workers| && |t.producers| == |s.producers| && t.cap == s.cap &&
            (t.running ==> Exited !in t.workers)
  {
  }

  lemma PickProducer(s: State) returns (pick: nat)
    ensures ProducerBlocked(s) ==> pick < |s.producers| && s.producers[pick].Blocked?
  {
    if ProducerBlocked(s) {
      pick :| 0 <= pick < |s.producers| && s.producers[pick].Blocked?;
    } else {
      pick := 0;
    }
  }

  lemma PickWorker(s: State) returns (pick: nat)
    ensures WorkerAsleep(s) ==> pick < |s.workers| && s.workers[pick] == Asleep
  {
    if WorkerAsleep(s) {
      pick :| 0 <= pick < |s.workers| && s.workers[pick] == Asleep;
    } else {
      pick := 0;
    }
  }

  lemma SomeoneActs(s: State) returns (a: Action)
    requires SignalsHeld(s) && s.workers != [] && Exited !in s.workers
    requires s.queue != [] || ProducerBlocked(s)
    ensures Progress(s, a)
  {
    if i :| 0 <= i < |s.workers| && s.workers[i] != Asleep {
      assert s.workers[i] in s.workers;
      a := WorkerActs(s, i);
    } else {
      assert s.workers[0] == Asleep;
      NoneWoken(s.workers, s.producers);
      var p :| 0 <= p < |s.producers| && s.producers[p].Retrying?;
      var pick := PickWorker(s);
      a := PushLock(p, pick);
    }
  }

  lemma WorkerActs(s: State, i: nat) returns (a: Action)
    requires i < |s.workers| && s.workers[i] != Asleep && s.workers[i] != Exited
    ensures Progress(s, a) && Mine(s, a, i)
  {
    var pick := PickProducer(s);
    a := match s.workers[i]
      case AtTest => TestRunning(i)
      case Busy(_) => Finish(i)
      case _ => TakeLock(i, pick);
  }

  /** More than that: within three steps of one awake worker, the oldest queued task is taken. */
  lemma QueuedTaskIsTaken(s: State) returns (actions: seq<Action>)
    requires SignalsHeld(s) && s.running && s.workers != [] && Exited !in s.workers && s.queue != []
    ensures |actions| <= 3 && forall a :: a in actions ==> !Spurious(a) && !a.RunTask? && a != Stop
    ensures Run(s, actions).taken == s.taken + [s.queue[0]]
  {
    NoneWoken(s.workers, s.producers);
    assert s.workers[0] == Asleep ==> WorkerAsleep(s);
    var i :| 0 <= i < |s.workers| && s.workers[i] != Asleep;
    assert s.workers[i] in s.workers;
    var pick := PickProducer(s);
    var last := TakeLock(i, pick);
    if s.workers[i] == Entering || s.workers[i] == Woken {
      actions := [last];
      RunThree(s, last, None, None);
    } else if s.workers[i] == AtTest {
      actions := [TestRunning(i), last];
      RunThree(s, TestRunning(i), Some(last), None);
    } else {
      actions := [Finish(i), TestRunning(i), last];
      RunThree(s, Finish(i), Some(TestRunning(i)), Some(last));
    }
  }

  lemma RunThree(s: State, a: Action, b: Option<Action>, c: Option<Action>)
    ensures Run(s, [a]) == Step(s, a)
    ensures b.Some? ==> Run(s, [a, b.value]) == Step(Step(s, a), b.value)
    ensures b.Some? && c.Some? ==> Run(s, [a, b.value, c.value]) == Step(Step(Step(s, a), b.value), c.value)
    decreases if c.Some? then 1 else 0
  {
    assert [a][1..] == [];
    if b.Some? {
      assert [a, b.value][1..] == [b.value] && [b.value][1..] == [];
      assert Run(Step(s, a), [b.value]) == Step(Step(s, a), b.value);
      if c.Some? {
        assert [a, b.value, c.value][1..] == [b.value, c.value] && [b.value, c.value][1..] == [c.value];
        RunThree(Step(s, a), b.value, c, None);
      }
    }
  }

  lemma {:induction false} RunConcat(s: State, a: seq<Action>, b: seq<Action>)
    ensures Run(s, a + b) == Run(Run(s, a), b)
    decreases a
  {
    if a == [] {
      assert a + b == b;
    } else {
      assert (a + b)[1..] == a[1..] + b;
      RunConcat(Step(s, a[0]), a[1..], b);
    }
  }

  // ---- Task conservation ------------------------------------------------------

  predicate Conserved(s: State) {
    s.submitted == s.taken + s.queue
  }

  /** The task a step submits: of a producer that gets past the bound. */
  function SubmittedBy(s: State, a: Action): seq<Task> {
    if Enabled(s, a) && a.PushLock? && !IsFull(s) then [s.producers[a.p].task] else []
  }

  /** The task a step takes: the oldest, by a worker that gets the lock. */
  function TakenBy(s: State, a: Action): seq<Task> {
    if Enabled(s, a) && a.TakeLock? && s.queue != [] then [s.queue[0]] else []
  }

  /** No other step touches the queue, stop included. */
  lemma QueueMoves(s: State, a: Action)
    ensures var t := Step(s, a);
            && t.submitted == s.submitted + SubmittedBy(s, a) && t.taken == s.taken + TakenBy(s, a)
            && TakenBy(s, a) + t.queue == s.queue + SubmittedBy(s, a)
  {
    assert s.submitted + [] == s.submitted && s.taken + [] == s.taken;
    if TakenBy(s, a) != [] {
      assert s.queue == [s.queue[0]] + s.queue[1..] && s.queue + [] == s.queue;
    }
  }

  /** What a step does to the thread that takes it. */
  lemma OwnMove(s: State, a: Action)
    requires Enabled(s, a)
    ensures a.TakeLock? ==> Step(s, a).workers[a.w] ==
                            (if s.queue != [] then Busy(Some(s.queue[0])) else if s.running then Asleep else Busy(None))
    ensures a.PushLock? ==>
              Step(s, a).producers[a.p] == (if IsFull(s) then Blocked(s.producers[a.p].task) else Outside)
    ensures a.TestRunning? ==> Step(s, a).workers[a.w] == if s.running then Entering else Exited
  {
  }

  /** Each critical section signals at most one thread, the one it picks. */
  lemma SignalsOne(s: State, a: Action)
    requires Enabled(s, a)
    ensures a.PushLock? ==>
              |Step(s, a).workers| == |s.workers| &&
              forall i :: 0 <= i < |s.workers| && i != a.pick ==> Step(s, a).workers[i] == s.workers[i]
    ensures a.TakeLock? ==>
              |Step(s, a).producers| == |s.producers| &&
              forall i :: 0 <= i < |s.producers| && i != a.pick ==> Step(s, a).producers[i] == s.producers[i]
  {
  }

  /** Any sleeper may wake up for no reason, at any time. */
  lemma MayWake(s: State, i: nat)
    ensures i < |s.workers| && s.workers[i] == Asleep ==> Step(s, WorkerSpurious(i)).workers[i] == Woken
    ensures i < |s.producers| && s.producers[i].Blocked? ==>
              Step(s, ProducerSpurious(i)).producers[i] == Retrying(s.producers[i].task)
  {
  }

  lemma StepConserves(s: State, a: Action)
    requires Conserved(s)
    ensures Conserved(Step(s, a))
  {
    if Enabled(s, a) {
      match a
      case TakeLock(w, pick) =>
        if s.queue != [] {
          assert s.queue == [s.queue[0]] + s.queue[1..];
          assert (s.taken + [s.queue[0]]) + s.queue[1..] == s.taken + s.queue;
        }
      case PushLock(p, pick) =>
        var task := s.producers[p].task;
        assert (s.taken + s.queue) + [task] == s.taken + (s.queue + [task]);
      case _ =>
    }
  }

  /** In lock order, what was submitted is what was taken, then what is queued; and the bound holds. */
  lemma {:induction false} TasksConserved(s: State, actions: seq<Action>)
    requires Conserved(s) && SignalsHeld(s)
    ensures var t := Run(s, actions);
            Conserved(t) && (t.cap > 0 ==> |t.queue| <= t.cap)
    decreases actions
  {
    if actions != [] {
      StepConserves(s, actions[0]);
      StepHolds(s, actions[0]);
      TasksConserved(Step(s, actions[0]), actions[1..]);
    }
  }

  // ---- Shutdown ---------------------------------------------------------------

  /** Steps a worker has left after stop. */
  function Rank(w: Worker): nat {
    match w
    case Exited => 0
    case AtTest => 1
    case Busy(_) => 2
    case Entering => 3
    case Woken => 3
    case Asleep => 4
  }

  /** The steps worker `w` itself takes in a run, and how many of them are takes. */
  predicate Mine(s: State, a: Action, w: nat) {
    Enabled(s, a) && (a == TestRunning(w) || a == Finish(w) || (a.TakeLock? && a.w == w))
  }

  function OwnSteps(s: State, actions: seq<Action>, w: nat): nat
    decreases actions
  {
    if actions == [] then 0
    else (if Mine(s, actions[0], w) then 1 else 0) + OwnSteps(Step(s, actions[0]), actions[1..], w)
  }

  function Takes(s: State, actions: seq<Action>, w: nat): nat
    decreases actions
  {
    if actions == [] then 0
    else (if Mine(s, actions[0], w) && actions[0].TakeLock? then 1 else 0) +
         Takes(Step(s, actions[0]), actions[1..], w)
  }

  lemma StoppedStep(s: State, a: Action, w: nat)
    requires !s.running && SignalsHeld(s) && w < |s.workers|
    ensures var t := Step(s, a);
            && !t.running && |t.workers| == |s.workers|
            && Rank(t.workers[w]) + (if Mine(s, a, w) then 1 else 0) <= Rank(s.workers[w]) <= 3
            && (Mine(s, a, w) && a.TakeLock? ==> Rank(s.workers[w]) == 3)
  {
    assert s.workers[w] == Asleep ==> WorkerAsleep(s);
  }

  /**
   * Once stopped, no worker sleeps again, each takes at most one more task, and each
   * has at most three steps of its own before it exits, whatever the others do.
   */
  lemma {:induction false} WorkersExit(s: State, actions: seq<Action>, w: nat)
    requires !s.running && SignalsHeld(s) && w < |s.workers|
    ensures var t := Run(s, actions);
            && |t.workers| == |s.workers| && !WorkerAsleep(t)
            && OwnSteps(s, actions, w) + Rank(t.workers[w]) <= Rank(s.workers[w]) <= 3
            && Takes(s, actions, w) <= (if Rank(s.workers[w]) == 3 then 1 else 0)
    decreases actions
  {
    if actions == [] {
      assert s.workers[w] == Asleep ==> WorkerAsleep(s);
    } else {
      StepHolds(s, actions[0]);
      StoppedStep(s, actions[0], w);
      WorkersExit(Step(s, actions[0]), actions[1..], w);
    }
  }

  /** And a worker that has not exited always has its next step. */
  lemma WorkerNeverStuck(s: State, w: nat) returns (a: Action)
    requires !s.running && SignalsHeld(s) && w < |s.workers| && s.workers[w] != Exited
    ensures Mine(s, a, w)
  {
    assert s.workers[w] == Asleep ==> WorkerAsleep(s);
    a := WorkerActs(s, w);
  }

  // ---- Producers left behind ---------------------------------------------------

  /** `p` is still in the runTask it was blocked in. */
  predicate StillIn(s: State, p: nat, task: Task) {
    p < |s.producers| && (s.producers[p] == Blocked(task) || s.producers[p] == Retrying(task))
  }

  /** Worker `w` is out of its test of running_ or its wait, on its way to one more task. */
  predicate Taker(s: State, w: nat) {
    w < |s.workers| && (s.workers[w] == Entering || s.workers[w] == Woken)
  }

  ghost predicate SomeTaker(s: State) {
    exists w: nat :: Taker(s, w)
  }

  /** After stop no worker becomes a taker, so nothing is taken and notFull_ is signalled no more. */
  lemma NoTakerStep(s: State, a: Action, p: nat, task: Task)
    requires !s.running && SignalsHeld(s) && s.workers != [] && !SomeTaker(s) && StillIn(s, p, task)
    ensures var t := Step(s, a);
            && !t.running && t.workers != [] && !SomeTaker(t) && t.cap == s.cap && |t.queue| >= |s.queue|
            && (s.producers[p] == Blocked(task) && a != ProducerSpurious(p) ==>
                p < |t.producers| && t.producers[p] == Blocked(task))
            && (IsFull(s) ==> StillIn(t, p, task))
  {
    var t := Step(s, a);
    assert a.TakeLock? ==> !Taker(s, a.w);
    forall w: nat | w < |t.workers|
      ensures !Taker(t, w)
    {
      assert !Taker(s, w);
      assert s.workers[w] == Asleep ==> WorkerAsleep(s);
    }
  }

  lemma {:induction false} StaysBlocked(s: State, actions: seq<Action>, p: nat, task: Task)
    requires !s.running && SignalsHeld(s) && s.workers != [] && !SomeTaker(s)
    requires p < |s.producers| && s.producers[p] == Blocked(task) && ProducerSpurious(p) !in actions
    ensures StillIn(Run(s, actions), p, task)
    decreases actions
  {
    if actions != [] {
      assert actions[0] in actions;
      StepHolds(s, actions[0]);
      NoTakerStep(s, actions[0], p, task);
      StaysBlocked(Step(s, actions[0]), actions[1..], p, task);
    }
  }

  lemma {:induction false} FullForEver(s: State, actions: seq<Action>, p: nat, task: Task)
    requires !s.running && SignalsHeld(s) && s.workers != [] && !SomeTaker(s) && IsFull(s) && StillIn(s, p, task)
    ensures StillIn(Run(s, actions), p, task)
    decreases actions
  {
    if actions != [] {
      StepHolds(s, actions[0]);
      NoTakerStep(s, actions[0], p, task);
      FullForEver(Step(s, actions[0]), actions[1..], p, task);
    }
  }

  /** A taker with something to take frees a slot and can wake `p`, which then submits and returns. */
  lemma TakerFrees(s: State, w: nat, p: nat)
    requires !s.running && SignalsHeld(s) && Taker(s, w) && s.queue != []
    requires p < |s.producers| && s.producers[p].Blocked?
    ensures !StillIn(Run(s, [TakeLock(w, p), PushLock(p, 0)]), p, s.producers[p].task)
  {
    assert Enabled(s, TakeLock(w, p));
    var t := Step(s, TakeLock(w, p));
    StepHolds(s, TakeLock(w, p));
    assert ProducerBlocked(s);
    assert t.producers[p].Retrying? && !IsFull(t) && !WorkerAsleep(t);
    RunThree(s, TakeLock(w, p), Some(PushLock(p, 0)), None);
  }

  /** With nothing queued another producer has been woken already; once it has pushed, the taker has something. */
  lemma PusherFeeds(s: State, w: nat, p: nat) returns (first: Action)
    requires !s.running && SignalsHeld(s) && Taker(s, w) && s.queue == []
    requires p < |s.producers| && s.producers[p].Blocked?
    ensures first.PushLock?
    ensures var t := Step(s, first);
            && !t.running && SignalsHeld(t) && Taker(t, w) && t.queue != []
            && p < |t.producers| && t.producers[p] == s.producers[p]
  {
    assert ProducerBlocked(s);
    NoneWoken(s.workers, s.producers);
    var q :| 0 <= q < |s.producers| && s.producers[q].Retrying?;
    first := PushLock(q, 0);
    StepHolds(s, first);
  }

  /**
   * From any state after stop: a producer blocked in runTask can ever return without a
   * spurious wake-up of its own if and only if some worker is on its way to one more
   * task.  With one it can also return when the queue is not full.
   */
  lemma {:induction false} BlockedReturnsExactly(s: State, p: nat)
    requires !s.running && SignalsHeld(s) && s.workers != [] && p < |s.producers| && s.producers[p].Blocked?
    ensures var task := s.producers[p].task;
            (exists actions: seq<Action> :: ProducerSpurious(p) !in actions && !StillIn(Run(s, actions), p, task))
            <==> SomeTaker(s)
    ensures var task := s.producers[p].task;
            (exists actions :: !StillIn(Run(s, actions), p, task)) <==> SomeTaker(s) || !IsFull(s)
  {
    var task := s.producers[p].task;
    if SomeTaker(s) {
      var actions := TakerLetsGo(s, p);
      assert ProducerSpurious(p) !in actions && !StillIn(Run(s, actions), p, task);
    } else {
      forall actions | ProducerSpurious(p) !in actions
        ensures StillIn(Run(s, actions), p, task)
      {
        StaysBlocked(s, actions, p, task);
      }
      BlockedWithoutTaker(s, p);
    }
  }

  lemma TakerLetsGo(s: State, p: nat) returns (actions: seq<Action>)
    requires !s.running && SignalsHeld(s) && SomeTaker(s) && p < |s.producers| && s.producers[p].Blocked?
    ensures ProducerSpurious(p) !in actions && !StillIn(Run(s, actions), p, s.producers[p].task)
  {
    var w :| Taker(s, w);
    if s.queue != [] {
      TakerFrees(s, w, p);
      actions := [TakeLock(w, p), PushLock(p, 0)];
    } else {
      var first := PusherFeeds(s, w, p);
      var rest := [TakeLock(w, p), PushLock(p, 0)];
      TakerFrees(Step(s, first), w, p);
      actions := [first] + rest;
      assert actions[1..] == rest;
    }
  }

  lemma BlockedWithoutTaker(s: State, p: nat)
    requires !s.running && SignalsHeld(s) && s.workers != [] && !SomeTaker(s)
    requires p < |s.producers| && s.producers[p].Blocked?
    ensures (exists actions :: !StillIn(Run(s, actions), p, s.producers[p].task)) <==> !IsFull(s)
  {
    var task := s.producers[p].task;
    if IsFull(s) {
      forall actions
        ensures StillIn(Run(s, actions), p, task)
      {
        FullForEver(s, actions, p, task);
      }
    } else {
      var t := Step(s, ProducerSpurious(p));
      assert !WorkerAsleep(t);
      RunThree(s, ProducerSpurious(p), Some(PushLock(p, 0)), None);
      assert !StillIn(Run(s, [ProducerSpurious(p), PushLock(p, 0)]), p, task);
    }
  }

  predicate AllExited(s: State) {
    forall i :: 0 <= i < |s.workers| ==> s.workers[i] == Exited
  }

  /** In particular, once every worker has exited it never returns, the queue full or not. */
  lemma AbandonedForEver(s: State, actions: seq<Action>, p: nat, task: Task)
    requires !s.running && SignalsHeld(s) && s.workers != [] && AllExited(s)
    requires p < |s.producers| && s.producers[p] == Blocked(task) && ProducerSpurious(p) !in actions
    ensures StillIn(Run(s, actions), p, task)
  {
    assert !SomeTaker(s);
    StaysBlocked(s, actions, p, task);
  }

  lemma Submits(s: State, p: nat, task: Task)
    requires p < |s.producers| && s.producers[p] == Outside && s.workers != [] && !WorkerAsleep(s)
    ensures Run(s, [RunTask(p, task), PushLock(p, 0)]) ==
            if IsFull(s) then s.(producers := s.producers[p := Blocked(task)])
            else s.(queue := s.queue + [task], submitted := s.submitted + [task])
  {
    RunThree(s, RunTask(p, task), Some(PushLock(p, 0)), None);
    var t := Step(s, RunTask(p, task));
    assert t.workers == s.workers;
    assert s.producers[p := Arriving(task)][p := Outside] == s.producers;
  }

  function Submission(task: Task): seq<Action> { [RunTask(0, task), PushLock(0, 0)] }

  const TAKING := [TestRunning(0), TakeLock(0, 0)]

  lemma FirstSubmitted(busy: Task)
    ensures Run(Started(1, 1, 1), Submission(busy)) == State(1, [busy], true, [AtTest], [Outside], [busy], [], [])
  {
    Submits(Started(1, 1, 1), 0, busy);
  }

  lemma FirstTaken(busy: Task)
    ensures Run(State(1, [busy], true, [AtTest], [Outside], [busy], [], []), TAKING) ==
            State(1, [], true, [Busy(Some(busy))], [Outside], [busy], [busy], [])
  {
    RunThree(State(1, [busy], true, [AtTest], [Outside], [busy], [], []), TestRunning(0), Some(TakeLock(0, 0)), None);
  }

  lemma SecondSubmitted(busy: Task, queued: Task)
    ensures Run(State(1, [], true, [Busy(Some(busy))], [Outside], [busy], [busy], []), Submission(queued)) ==
            State(1, [queued], true, [Busy(Some(busy))], [Outside], [busy, queued], [busy], [])
  {
    Submits(State(1, [], true, [Busy(Some(busy))], [Outside], [busy], [busy], []), 0, queued);
  }

  lemma ThirdBlocks(busy: Task, queued: Task, waiting: Task)
    ensures Run(State(1, [queued], true, [Busy(Some(busy))], [Outside], [busy, queued], [busy], []),
                Submission(waiting)) ==
            State(1, [queued], true, [Busy(Some(busy))], [Blocked(waiting)], [busy, queued], [busy], [])
  {
    Submits(State(1, [queued], true, [Busy(Some(busy))], [Outside], [busy, queued], [busy], []), 0, waiting);
  }

  /** A worker is busy, the queue is full, a producer waits: reached from start. */
  lemma FullAndWaiting(busy: Task, queued: Task, waiting: Task) returns (actions: seq<Action>)
    ensures Run(Started(1, 1, 1), actions) ==
            State(1, [queued], true, [Busy(Some(busy))], [Blocked(waiting)], [busy, queued], [busy], [])
  {
    FirstSubmitted(busy);
    FirstTaken(busy);
    SecondSubmitted(busy, queued);
    ThirdBlocks(busy, queued, waiting);
    actions := Chain(Started(1, 1, 1), Submission(busy), TAKING, Submission(queued), Submission(waiting));
  }

  lemma Chain(s: State, a: seq<Action>, b: seq<Action>, c: seq<Action>, d: seq<Action>) returns (all: seq<Action>)
    ensures Run(s, all) == Run(Run(Run(Run(s, a), b), c), d)
  {
    RunConcat(s, a, b);
    RunConcat(s, a + b, c);
    RunConcat(s, a + b + c, d);
    all := a + b + c + d;
  }

  /** From start, a run in which stop leaves a producer blocked for good. */
  lemma StopStrandsProducer(busy: Task, queued: Task, waiting: Task) returns (actions: seq<Action>)
    ensures var t := Run(Started(1, 1, 1), actions);
            && !t.running && t.workers == [Exited] && t.producers == [Blocked(waiting)] && IsFull(t)
            && forall more :: StillIn(Run(t, more), 0, waiting)
  {
    var before := FullAndWaiting(busy, queued, waiting);
    var start := Started(1, 1, 1);
    var s := Run(start, before);
    var last := [Stop, Finish(0), TestRunning(0)];
    assert WakeAll(s.workers) == s.workers;
    RunThree(s, Stop, Some(Finish(0)), Some(TestRunning(0)));
    RunConcat(start, before, last);
    actions := before + last;
    var t := Run(start, actions);
    StartHolds(1, 1, 1);
    EveryRunHolds(start, actions);
    forall more
      ensures StillIn(Run(t, more), 0, waiting)
    {
      FullForEver(t, more, 0, waiting);
    }
  }
}
