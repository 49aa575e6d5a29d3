/**
 * The object of framework/log/src/AsyncLogging.cpp, field by field: each critical
 * section and the back end's unlocked work, in the source's own statements, are
 * proved to be the steps of AsyncLoggingSpec, whose invariants then hold of every
 * run of the object.
 */
module AsyncLoggings {
  import opened Common
  import opened FixedBuffers
  import opened AsyncLoggingSpec

  class AsyncLogging {
    var currentBuffer_: Option<Buf>
    var nextBuffer_: Option<Buf>
    var buffers_: seq<Buf>
    var running_: bool
    // the locals of ThreadFunc
    var newBuffer1: Option<Buf>
    var newBuffer2: Option<Buf>
    var buffersToWrite: seq<Buf>
    var output: seq<Chunk>
    // where ThreadFunc is, and the history
    var phase: Phase
    var accepted: seq<char>
    var batches: seq<seq<seq<char>>>

    function Abs(): State
      reads this
    {
      State(currentBuffer_, nextBuffer_, buffers_, newBuffer1, newBuffer2, buffersToWrite,
            phase, running_, false, output, accepted, batches)
    }

    /** The state at the first loop head: two shared buffers and two local spares, all empty. */
    constructor (a: Id, b: Id, c: Id, d: Id)
      requires Distinct(a, b, c, d)
      ensures Abs() == Initial(a, b, c, d)
    {
      currentBuffer_, nextBuffer_ := Some(Buf(a, [])), Some(Buf(b, []));
      newBuffer1, newBuffer2 := Some(Buf(c, [])), Some(Buf(d, []));
      buffers_, buffersToWrite, output := [], [], [];
      running_, phase, accepted, batches := true, Head, [], [];
    }

    /** A front end, inside the lock; `blank` is the buffer the allocator would return. */
    method Append(line: seq<char>, blank: Id)
      requires Spares(Abs()) && Enabled(Abs(), AsyncLoggingSpec.Append(line, blank))
      modifies this
      ensures Abs() == Step(old(Abs()), AsyncLoggingSpec.Append(line, blank))
      ensures var was := old(currentBuffer_.value);
              if 4_000_000 - |was.data| > |line| then
                currentBuffer_ == Some(Buf(was.id, was.data + line)) && buffers_ == old(buffers_) &&
                nextBuffer_ == old(nextBuffer_)
              else
                currentBuffer_ == Some(Buf(if old(nextBuffer_).Some? then old(nextBuffer_).value.id else blank,
                                           if |line| < LARGE_BUFFER then line else [])) &&
                buffers_ == old(buffers_) + [was] && nextBuffer_ == None
    {
      if LARGE_BUFFER - |currentBuffer_.value.data| > |line| {
        currentBuffer_ := Some(Taken(currentBuffer_.value, line));
      } else {
        Overflow(blank);
        EmptyTakes(line, LARGE_BUFFER);
        currentBuffer_ := Some(Taken(currentBuffer_.value, line));
      }
      accepted := accepted + if |line| < LARGE_BUFFER then line else [];
    }

    /** The current buffer is full: it is queued, and the spare or a new one takes its place. */
    method Overflow(blank: Id)
      requires Spares(Abs())
      modifies this`currentBuffer_, this`nextBuffer_, this`buffers_
      ensures buffers_ == old(buffers_ + [currentBuffer_.value]) && nextBuffer_ == None
      ensures currentBuffer_ == Some(Buf(if old(nextBuffer_).Some? then old(nextBuffer_).value.id else blank, []))
    {
      buffers_ := buffers_ + [currentBuffer_.value];
      currentBuffer_ := None;
      if nextBuffer_.Some? {
        currentBuffer_, nextBuffer_ := nextBuffer_, None;
      } else {
        currentBuffer_ := Some(Buf(blank, []));
      }
    }

    /** Between the wait and the end of the back end's critical section. */
    method SwapOut()
      requires Spares(Abs()) && phase != Writing
      modifies this
      ensures Abs() == SwapStep(old(Abs()))
      ensures HandedOver(old(currentBuffer_), old(newBuffer1), old(buffers_), old(batches))
    {
      buffers_ := buffers_ + [currentBuffer_.value];
      currentBuffer_, newBuffer1 := newBuffer1, None;
      buffersToWrite, buffers_ := buffers_, buffersToWrite;
      if nextBuffer_.None? {
        nextBuffer_, newBuffer2 := newBuffer2, None;
      }
      phase, batches := Writing, batches + [Datas(buffersToWrite)];
    }

    /** The batch is the full buffers and then the current one, which the first spare replaces. */
    predicate HandedOver(current: Option<Buf>, spare: Option<Buf>, full: seq<Buf>, before: seq<seq<seq<char>>>)
      reads this
    {
      && phase == Writing && current.Some? && buffersToWrite == full + [current.value]
      && buffers_ == [] && currentBuffer_ == spare && newBuffer1 == None
      && batches == before + [Datas(buffersToWrite)]
    }

    /** The back end takes the lock, and swaps at once unless there is nothing but the current buffer. */
    method Lock()
      requires Spares(Abs()) && phase == Entering
      modifies this
      ensures Abs() == Step(old(Abs()), AsyncLoggingSpec.Lock)
      ensures old(buffers_) == [] ==>
                phase == Waiting && buffers_ == [] && currentBuffer_ == old(currentBuffer_) && batches == old(batches)
      ensures old(buffers_) != [] ==>
                HandedOver(old(currentBuffer_), old(newBuffer1), old(buffers_), old(batches))
    {
      if buffers_ == [] {
        phase := Waiting;
      } else {
        SwapOut();
      }
    }

    /** The timed wait is over, for whatever reason. */
    method WakeUp()
      requires Spares(Abs()) && phase == Waiting
      modifies this
      ensures Abs() == Step(old(Abs()), AsyncLoggingSpec.WakeUp)
      ensures HandedOver(old(currentBuffer_), old(newBuffer1), old(buffers_), old(batches))
    {
      SwapOut();
    }

    /** Everything the back end does without the lock; both asserts of the refill are discharged here. */
    method Work()
      requires Spares(Abs()) && phase == Writing
      modifies this
      ensures Abs() == Step(old(Abs()), AsyncLoggingSpec.Work)
    {
      WriteBatch();
      RefillSpares();
      phase := Head;
    }

    /** What is left of the batch gives back the two spares, and the rest is freed. */
    method RefillSpares()
      requires newBuffer1.None? && buffersToWrite != [] && (newBuffer2.None? ==> |buffersToWrite| >= 2)
      modifies this`newBuffer1, this`newBuffer2, this`buffersToWrite
      ensures var was := old(buffersToWrite);
              var two := if |was| > 2 then was[..2] else was;
              && newBuffer1 == Refill(old(newBuffer1), two).0 && newBuffer1.Some?
              && newBuffer2 == Refill(old(newBuffer2), Refill(old(newBuffer1), two).1).0 && newBuffer2.Some?
      ensures buffersToWrite == []
    {
      if |buffersToWrite| > 2 {
        buffersToWrite := buffersToWrite[..2];
      }
      newBuffer1 := TakeBack(newBuffer1);
      newBuffer2 := TakeBack(newBuffer2);
      buffersToWrite := [];
    }

    /** The refill of one spare from the end of the batch; the caller owes the assert. */
    method TakeBack(spare: Option<Buf>) returns (r: Option<Buf>)
      requires spare.None? ==> buffersToWrite != []
      modifies this`buffersToWrite
      ensures r == Refill(spare, old(buffersToWrite)).0
      ensures buffersToWrite == Refill(spare, old(buffersToWrite)).1
    {
      r := spare;
      if spare.None? {
        assert buffersToWrite != [];
        r := Some(Recycled(buffersToWrite[|buffersToWrite| - 1]));
        buffersToWrite := buffersToWrite[..|buffersToWrite| - 1];
      }
    }

    /** The drop rule and the write loop. */
    method WriteBatch()
      modifies this`buffersToWrite, this`output
      ensures buffersToWrite == AfterDrop(old(buffersToWrite))
      ensures output == old(output) + Appended(old(buffersToWrite))
    {
      ghost var batch := buffersToWrite;
      if |buffersToWrite| > MAX_BATCH {
        output := output + [Notice(|buffersToWrite| - 2)];
        buffersToWrite := buffersToWrite[..2];
      }
      ghost var before := output;
      for i := 0 to |buffersToWrite|
        invariant buffersToWrite == AfterDrop(batch)
        invariant output == before + Pieces(Datas(buffersToWrite))[..i]
      {
        output := output + [Piece(buffersToWrite[i].data)];
      }
      assert output == before + Pieces(Datas(buffersToWrite));
    }

    method Stop()
      requires Spares(Abs())
      modifies this
      ensures Abs() == Step(old(Abs()), AsyncLoggingSpec.Stop) && !running_ && phase == old(phase)
    {
      running_ := false;
    }

    // ---- The back end's loop --------------------------------------------------

    /** Front ends and Stop, between two steps of the back end. */
    method Meanwhile(actions: seq<Action>)
      requires Spares(Abs()) && AllFrontEnd(actions)
      modifies this
      ensures Abs() == Run(old(Abs()), actions) && Spares(Abs()) && phase == old(phase)
    {
      FrontEndRun(Abs(), actions);
      var t := Run(Abs(), actions);
      currentBuffer_, nextBuffer_, buffers_, running_ := t.current, t.next, t.buffers, t.running;
      newBuffer1, newBuffer2, buffersToWrite, output := t.new1, t.new2, t.toWrite, t.output;
      accepted, batches := t.accepted, t.batches;
    }

    /** The back end's critical section, with the front ends before it and in its wait. */
    method TakeBatch(beforeLock: seq<Action>, inWait: seq<Action>) returns (ghost trace: seq<Action>)
      requires Spares(Abs()) && phase == Entering && AllFrontEnd(beforeLock) && AllFrontEnd(inWait)
      modifies this
      ensures Abs() == Run(old(Abs()), trace) && Spares(Abs()) && phase == Writing
    {
      ghost var s := Abs();
      Meanwhile(beforeLock);
      trace := Extended(s, beforeLock, Abs(), AsyncLoggingSpec.Lock);
      Lock();
      if phase == Waiting {
        Meanwhile(inWait);
        RunConcat(s, trace, inWait);
        trace := Extended(s, trace + inWait, Abs(), AsyncLoggingSpec.WakeUp);
        WakeUp();
      }
    }

    /** One round of `while (running_)` after the test; the front ends get in wherever the lock is free. */
    method Round(script: RoundScript) returns (ghost trace: seq<Action>)
      requires Spares(Abs()) && phase == Entering && script.Legal()
      modifies this
      ensures Abs() == Run(old(Abs()), trace) && Spares(Abs()) && phase == Head
    {
      ghost var s := Abs();
      trace := TakeBatch(script.beforeLock, script.inWait);
      Meanwhile(script.whileWriting);
      RunConcat(s, trace, script.whileWriting);
      trace := Extended(s, trace + script.whileWriting, Abs(), AsyncLoggingSpec.Work);
      Work();
      Meanwhile(script.afterWork);
      RunConcat(s, trace, script.afterWork);
      trace := trace + script.afterWork;
    }

    /** ThreadFunc, for as many rounds as `scripts` tells of; it is left only when running_ is seen false. */
    method ThreadFunc(scripts: seq<RoundScript>) returns (ghost trace: seq<Action>)
      requires Spares(Abs()) && phase == Head
      requires forall k :: 0 <= k < |scripts| ==> scripts[k].Legal()
      modifies this
      ensures Abs() == Run(old(Abs()), trace) && Spares(Abs())
      ensures if running_ then phase == Head else phase == Exited
    {
      ghost var s := Abs();
      trace := [];
      var k := 0;
      while running_ && k < |scripts|
        invariant 0 <= k <= |scripts|
        invariant Abs() == Run(s, trace) && Spares(Abs()) && phase == Head
      {
        trace := Extended(s, trace, Abs(), TestRunning);
        phase := Entering;
        ghost var own := Round(scripts[k]);
        RunConcat(s, trace, own);
        trace := trace + own;
        k := k + 1;
      }
      if !running_ {
        trace := Extended(s, trace, Abs(), TestRunning);
        phase := Exited;
      }
    }
  }

  predicate AllFrontEnd(actions: seq<Action>) {
    forall a :: a in actions ==> !BackEnd(a)
  }

  /** What the front ends do during one round of the back end. */
  datatype RoundScript = RoundScript(
    beforeLock: seq<Action>, inWait: seq<Action>, whileWriting: seq<Action>, afterWork: seq<Action>)
  {
    predicate Legal() {
      AllFrontEnd(beforeLock) && AllFrontEnd(inWait) && AllFrontEnd(whileWriting) && AllFrontEnd(afterWork)
    }
  }

  /** The run so far, and the back end's next step. */
  ghost function Extended(s: State, trace: seq<Action>, now: State, a: Action): (t: seq<Action>)
    requires now == Run(s, trace) && Spares(now)
    ensures Run(s, t) == Step(now, a) && Spares(Step(now, a))
  {
    RunConcat(s, trace, [a]);
    RunOne(now, a);
    SparesKept(now, a);
    trace + [a]
  }
}
