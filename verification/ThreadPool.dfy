/**
 * framework/thread/src/ThreadPool.cpp: take and runTask with their wait loops.  A wait
 * gives up the lock, lets any list of other threads' steps happen, and takes the lock
 * again only once the thread has been woken; each call is proved to be a run of
 * ThreadPoolSpec.
 */
module ThreadPools {
  import opened Common
  import opened ThreadPoolSpec

  predicate ActsForWorker(a: Action, w: nat) {
    a == TestRunning(w) || a == Finish(w) || (a.TakeLock? && a.w == w)
  }

  predicate ActsForProducer(a: Action, p: nat) {
    (a.RunTask? && a.p == p) || (a.PushLock? && a.p == p)
  }

  /** Others can wake a waiting worker and do nothing else to it. */
  lemma {:induction false} WorkerUntouched(s: State, actions: seq<Action>, w: nat)
    requires w < |s.workers| && !ActForWorker(actions, w)
    ensures var t := Run(s, actions);
            && |t.workers| == |s.workers|
            && (t.workers[w] == s.workers[w] || (s.workers[w] == Asleep && t.workers[w] == Woken))
    decreases actions
  {
    if actions != [] {
      assert actions[0] in actions && forall a :: a in actions[1..] ==> a in actions;
      WorkerUntouched(Step(s, actions[0]), actions[1..], w);
    }
  }

  predicate ActForWorker(actions: seq<Action>, w: nat) {
    exists a :: a in actions && ActsForWorker(a, w)
  }

  lemma {:induction false} ProducerWaits(s: State, actions: seq<Action>, p: nat, task: Task)
    requires StillIn(s, p, task)
    requires forall a :: a in actions ==> !ActsForProducer(a, p)
    ensures StillIn(Run(s, actions), p, task)
    decreases actions
  {
    if actions != [] {
      assert actions[0] in actions && forall a :: a in actions[1..] ==> a in actions;
      ProducerWaits(Step(s, actions[0]), actions[1..], p, task);
    }
  }

  /** A stopped pool stays stopped, and a worker that has exited stays so. */
  lemma {:induction false} ExitIsFinal(s: State, actions: seq<Action>)
    requires !s.running
    ensures var t := Run(s, actions);
            && !t.running && |t.workers| == |s.workers|
            && forall i :: 0 <= i < |s.workers| && s.workers[i] == Exited ==> t.workers[i] == Exited
    decreases actions
  {
    if actions != [] {
      ExitIsFinal(Step(s, actions[0]), actions[1..]);
    }
  }

  lemma RunSnoc(s: State, trace: seq<Action>, a: Action)
    ensures Run(s, trace + [a]) == Step(Run(s, trace), a)
  {
    RunConcat(s, trace, [a]);
    assert [a][1..] == [];
  }

  class ThreadPool {
    const max_queue_size_: nat
    var queue_: seq<Task>
    var running_: bool
    // where the threads are, and the history
    var workers: seq<Worker>
    var producers: seq<Producer>
    var submitted: seq<Task>
    var taken: seq<Task>
    var inline: seq<Task>

    function Abs(): State
      reads this
    {
      State(max_queue_size_, queue_, running_, workers, producers, submitted, taken, inline)
    }

    constructor (cap: nat, workers: nat, producers: nat)
      ensures Abs() == Started(cap, workers, producers)
    {
      max_queue_size_, queue_, running_ := cap, [], true;
      this.workers, this.producers := seq(workers, _ => AtTest), seq(producers, _ => Outside);
      submitted, taken, inline := [], [], [];
    }

    /** Other threads, while this one is out of the monitor. */
    method Meanwhile(actions: seq<Action>)
      modifies this
      ensures Abs() == Run(old(Abs()), actions)
    {
      CapStays(Abs(), actions);
      var t := Run(Abs(), actions);
      queue_, running_, workers, producers := t.queue, t.running, t.workers, t.producers;
      submitted, taken, inline := t.submitted, t.taken, t.inline;
    }

    predicate IsFull()
      reads this
    {
      max_queue_size_ > 0 && |queue_| >= max_queue_size_
    }

    /** notEmpty_.notify() */
    method NotifyNotEmpty() returns (pick: nat)
      modifies this`workers
      ensures Abs() == SignalWorker(old(Abs()), pick)
      ensures old(WorkerAsleep(Abs())) ==> pick < |old(workers)| && old(workers)[pick] == Asleep
    {
      pick := 0;
      if i :| 0 <= i < |workers| && workers[i] == Asleep {
        pick := i;
        workers := workers[i := Woken];
      } else {
        pick := |workers|;
      }
    }

    /** notFull_.notify() */
    method NotifyNotFull() returns (pick: nat)
      modifies this`producers
      ensures Abs() == SignalProducer(old(Abs()), pick)
      ensures old(ProducerBlocked(Abs())) ==> pick < |old(producers)| && old(producers)[pick].Blocked?
    {
      pick := 0;
      if i :| 0 <= i < |producers| && producers[i].Blocked? {
        pick := i;
        producers := producers[i := Retrying(producers[i].task)];
      } else {
        pick := |producers|;
      }
    }

    /** What Take does once its loop is left, still under the lock. */
    method PopFront(w: nat) returns (task: Option<Task>, ghost a: Action)
      requires w < |workers| && (workers[w] == Entering || workers[w] == Woken)
      requires queue_ != [] || !running_
      modifies this
      ensures Enabled(old(Abs()), a) && Abs() == Step(old(Abs()), a)
      ensures w < |workers| && workers[w] == Busy(task)
      ensures task == if old(queue_) == [] then None else Some(old(queue_)[0])
      ensures queue_ == (if old(queue_) == [] then [] else old(queue_)[1..]) && running_ == old(running_)
    {
      task := None;
      a := TakeLock(w, 0);
      if queue_ != [] {
        task := Some(queue_[0]);
        taken := taken + [queue_[0]];
        queue_ := queue_[1..];
        workers := workers[w := Busy(task)];
        var pick := |producers|;
        if max_queue_size_ > 0 {
          pick := NotifyNotFull();
        } else {
          pick := AnyBlocked();
        }
        a := TakeLock(w, pick);
      } else {
        workers := workers[w := Busy(None)];
      }
    }

    /** Names a blocked producer, if there is one. */
    method AnyBlocked() returns (pick: nat)
      ensures ProducerBlocked(Abs()) ==> pick < |producers| && producers[pick].Blocked?
    {
      pick := 0;
      if i :| 0 <= i < |producers| && producers[i].Blocked? {
        pick := i;
      }
    }

    /**
     * `waits[k]` is what the others do while this worker is in its wait.  It returns with
     * the oldest task, or with none only after stop; or it is still asleep at the end.
     */
    method Take(w: nat, waits: seq<seq<Action>>) returns (task: Option<Task>, returned: bool, ghost trace: seq<Action>)
      requires w < |workers| && workers[w] == Entering
      requires forall k :: 0 <= k < |waits| ==> !ActForWorker(waits[k], w)
      modifies this
      ensures Abs() == Run(old(Abs()), trace)
      ensures w < |workers|
      ensures if returned then workers[w] == Busy(task) else workers[w] == Asleep
      ensures returned && task.None? ==> !running_ && queue_ == []
      ensures returned && task.Some? ==> taken != [] && taken[|taken| - 1] == task.value
    {
      ghost var s := Abs();
      trace := [];
      task, returned := None, false;
      var k := 0;
      while queue_ == [] && running_
        invariant 0 <= k <= |waits|
        invariant w < |workers| && (workers[w] == Entering || workers[w] == Woken)
        invariant Abs() == Run(s, trace)
        decreases |waits| - k
      {
        RunSnoc(s, trace, TakeLock(w, 0));
        trace := trace + [TakeLock(w, 0)];
        workers := workers[w := Asleep];
        // notEmpty_.wait()
        if k == |waits| {
          return;
        }
        ghost var before := k;
        while workers[w] == Asleep && k < |waits|
          invariant before <= k <= |waits|
          invariant w < |workers| && (workers[w] == Asleep || (workers[w] == Woken && k > before))
          invariant Abs() == Run(s, trace)
        {
          WorkerUntouched(Abs(), waits[k], w);
          RunConcat(s, trace, waits[k]);
          trace := trace + waits[k];
          Meanwhile(waits[k]);
          k := k + 1;
        }
        if workers[w] == Asleep {
          return;
        }
      }
      ghost var a;
      task, a := PopFront(w);
      RunSnoc(s, trace, a);
      trace := trace + [a];
      returned := true;
    }

    /** One round of RunInThread after the test: Take, and the task if there is one. */
    method Round(w: nat, script: RoundScript) returns (returned: bool, ghost trace: seq<Action>)
      requires w < |workers| && workers[w] == Entering && script.LeavesAlone(w)
      modifies this
      ensures Abs() == Run(old(Abs()), trace)
      ensures w < |workers| && workers[w] == if returned then AtTest else Asleep
    {
      ghost var s := Abs();
      WorkerUntouched(s, script.beforeLock, w);
      Meanwhile(script.beforeLock);
      var task;
      ghost var own;
      task, returned, own := Take(w, script.inWait);
      RunConcat(s, script.beforeLock, own);
      trace := script.beforeLock + own;
      if returned {
        WorkerUntouched(Abs(), script.inTask, w);
        RunConcat(s, trace, script.inTask);
        trace := trace + script.inTask;
        Meanwhile(script.inTask);
        RunSnoc(s, trace, Finish(w));
        trace := trace + [Finish(w)];
        workers := workers[w := AtTest];
      }
    }

    /** RunInThread, for as many rounds as `scripts` tells of; the worker exits only when running_ is seen false. */
    method RunInThread(w: nat, scripts: seq<RoundScript>) returns (ghost trace: seq<Action>)
      requires w < |workers| && workers[w] == AtTest
      requires forall k :: 0 <= k < |scripts| ==> scripts[k].LeavesAlone(w)
      modifies this
      ensures Abs() == Run(old(Abs()), trace)
      ensures w < |workers|
      ensures if running_ then workers[w] == AtTest || workers[w] == Asleep
              else workers[w] == Exited || workers[w] == Asleep
    {
      ghost var s := Abs();
      trace := [];
      var k := 0;
      while running_ && k < |scripts|
        invariant 0 <= k <= |scripts|
        invariant Abs() == Run(s, trace)
        invariant w < |workers| && workers[w] == AtTest
      {
        RunSnoc(s, trace, TestRunning(w));
        trace := trace + [TestRunning(w)];
        workers := workers[w := Entering];
        var returned;
        ghost var own;
        returned, own := Round(w, scripts[k]);
        RunConcat(s, trace, own);
        trace := trace + own;
        if !returned {
          return;
        }
        k := k + 1;
      }
      if !running_ {
        RunSnoc(s, trace, TestRunning(w));
        trace := trace + [TestRunning(w)];
        workers := workers[w := Exited];
      }
    }

    /** push_back and the signal, under the lock. */
    method PushBack(p: nat) returns (ghost a: Action)
      requires p < |producers| && (producers[p].Arriving? || producers[p].Retrying?) && !IsFull()
      modifies this
      ensures Enabled(old(Abs()), a) && Abs() == Step(old(Abs()), a)
      ensures p < |producers| && producers[p] == Outside
      ensures submitted == old(submitted) + [old(producers)[p].task]
      ensures queue_ == old(queue_) + [old(producers)[p].task] && taken == old(taken)
    {
      var task := producers[p].task;
      producers := producers[p := Outside];
      queue_ := queue_ + [task];
      submitted := submitted + [task];
      var pick := NotifyNotEmpty();
      a := PushLock(p, pick);
    }

    /** RunTask: inline without workers; otherwise `task` is submitted, or the caller still waits. */
    method RunTask(p: nat, task: Task, waits: seq<seq<Action>>) returns (returned: bool, ghost trace: seq<Action>)
      requires p < |producers| && producers[p] == Outside
      requires forall k, a :: 0 <= k < |waits| && a in waits[k] ==> !ActsForProducer(a, p)
      modifies this
      ensures Abs() == Run(old(Abs()), trace)
      ensures p < |producers|
      ensures if returned then producers[p] == Outside else producers[p] == Blocked(task)
      ensures old(workers) == [] ==> returned && inline == old(inline) + [task] && queue_ == old(queue_)
      ensures returned && old(workers) != [] ==> submitted != [] && submitted[|submitted| - 1] == task
    {
      ghost var s := Abs();
      assert [Action.RunTask(p, task)][1..] == [];
      trace := [Action.RunTask(p, task)];
      if workers == [] {
        inline := inline + [task];
        return true, trace;
      }
      producers := producers[p := Arriving(task)];
      assert Abs() == Run(s, trace);
      var k := 0;
      while IsFull()
        invariant 0 <= k <= |waits|
        invariant p < |producers| && (producers[p] == Arriving(task) || producers[p] == Retrying(task))
        invariant Abs() == Run(s, trace)
        decreases |waits| - k
      {
        RunSnoc(s, trace, PushLock(p, 0));
        trace := trace + [PushLock(p, 0)];
        producers := producers[p := Blocked(task)];
        // notFull_.wait()
        if k == |waits| {
          return false, trace;
        }
        ghost var before := k;
        while producers[p].Blocked? && k < |waits|
          invariant before <= k <= |waits|
          invariant StillIn(Abs(), p, task) && (producers[p].Retrying? ==> k > before)
          invariant Abs() == Run(s, trace)
        {
          ProducerWaits(Abs(), waits[k], p, task);
          RunConcat(s, trace, waits[k]);
          trace := trace + waits[k];
          Meanwhile(waits[k]);
          k := k + 1;
        }
        if producers[p].Blocked? {
          return false, trace;
        }
      }
      ghost var a := PushBack(p);
      RunSnoc(s, trace, a);
      trace := trace + [a];
      returned := true;
    }

    /** The critical section of stop: notEmpty_.notifyAll(), and nothing for notFull_. */
    method StopAll()
      modifies this
      ensures Abs() == Step(old(Abs()), Action.Stop)
      ensures !running_ && Asleep !in workers && producers == old(producers)
      ensures |workers| == |old(workers)| && forall i :: 0 <= i < |workers| && old(workers)[i] != Asleep ==>
                workers[i] == old(workers)[i]
      ensures queue_ == old(queue_) && submitted == old(submitted) && taken == old(taken) && inline == old(inline)
    {
      running_ := false;
      workers := WakeAll(workers);
    }

    /** stop: the critical section, then the joins, one worker after another; `waits` is what goes on meanwhile. */
    method Stop(waits: seq<seq<Action>>) returns (joined: bool, ghost trace: seq<Action>)
      modifies this
      ensures Abs() == Run(old(Abs()), trace) && trace != [] && trace[0] == Action.Stop
      ensures !running_ && |workers| == |old(workers)| && (joined <==> AllExited(Abs()))
      ensures !joined ==> trace == [Action.Stop] + Flatten(waits)
    {
      ghost var s := Abs();
      RunSnoc(s, [], Action.Stop);
      trace := [] + [Action.Stop];
      StopAll();
      var k := 0;
      for w := 0 to |workers|
        invariant 0 <= k <= |waits| && |workers| == |s.workers|
        invariant !running_ && forall i :: 0 <= i < w ==> workers[i] == Exited
        invariant Abs() == Run(s, trace) && trace == [Action.Stop] + Flatten(waits[..k])
      {
        while workers[w] != Exited && k < |waits|
          invariant 0 <= k <= |waits| && |workers| == |s.workers|
          invariant !running_ && forall i :: 0 <= i < w ==> workers[i] == Exited
          invariant Abs() == Run(s, trace) && trace == [Action.Stop] + Flatten(waits[..k])
        {
          ExitIsFinal(Abs(), waits[k]);
          RunConcat(s, trace, waits[k]);
          FlattenSnoc(waits[..k], waits[k]);
          assert waits[..k + 1] == waits[..k] + [waits[k]];
          assert trace + waits[k] == [Action.Stop] + Flatten(waits[..k + 1]);
          trace := trace + waits[k];
          Meanwhile(waits[k]);
          k := k + 1;
        }
        if workers[w] != Exited {
          assert waits[..k] == waits;
          return false, trace;
        }
      }
      joined := true;
    }
  }

  /** What the other threads do during one round of a worker. */
  datatype RoundScript = RoundScript(beforeLock: seq<Action>, inWait: seq<seq<Action>>, inTask: seq<Action>)
  {
    predicate LeavesAlone(w: nat) {
      && !ActForWorker(beforeLock, w) && !ActForWorker(inTask, w)
      && forall k :: 0 <= k < |inWait| ==> !ActForWorker(inWait[k], w)
    }
  }

  lemma {:induction false} CapStays(s: State, actions: seq<Action>)
    ensures Run(s, actions).cap == s.cap
    decreases actions
  {
    if actions != [] {
      CapStays(Step(s, actions[0]), actions[1..]);
    }
  }
}
