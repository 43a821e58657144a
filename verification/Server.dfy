/**
  The loops of src/server.cpp as methods of a server whose other threads may act between any
  two of its atomic steps. Each method moves only by steps of the protocol, and is proved to
  do what its caller counts on whatever the others do meanwhile.
 */
module Server {
  import opened Wrappers
  import opened ServerProtocol
  import opened ServerSafety

  datatype InvokeOutcome =
    | NotRunning
    | TimeoutReported(task: TaskId)
    | Answered(task: TaskId, ok: bool)
    | StillWaiting(task: TaskId)

  // ------------------------------------------------------------ what steps keep

  /** No step of any thread reopens a finished task, runs it again, or takes back a timeout. */
  ghost predicate Settled(s: State, t: State)
  {
    && |s.tasks| <= |t.tasks|
    && forall i :: 0 <= i < |s.tasks| ==>
         && (s.tasks[i].done ==> t.tasks[i].done && t.tasks[i].runs == s.tasks[i].runs)
         && (s.tasks[i].client.TimedOut? ==> t.tasks[i].client.TimedOut?)
  }

  lemma SettledTransitive(s: State, t: State, u: State)
    requires Settled(s, t) && Settled(t, u)
    ensures Settled(s, u)
  {
  }

  lemma StepSettles(s: State, l: Label)
    requires Enabled(s, l) && Inv(s)
    ensures Settled(s, Effect(s, l))
  {
    hide Effect, HistoryInv, TasksInv, Pending, Finishes;
    StepChangesTasks(s, l);
    if Pending(s) != [] { OldestIsUnfinished(s); }
    TimeoutsStay(s, l);
  }

  lemma TimeoutsStay(s: State, l: Label)
    requires Enabled(s, l)
    ensures forall i :: 0 <= i < |s.tasks| && i < |Effect(s, l).tasks| && s.tasks[i].client.TimedOut? ==>
              Effect(s, l).tasks[i].client.TimedOut?
  {
    hide PhaseAfter, StopRequestedAfter, ThreadAfter, ControlAfter, RequestingAfter,
      PushingAfter, QueueAfter, ExecutedAfter;
    hide StoppedText, FailedText, CancelledText;
  }

  /** Steps of other threads, as the server thread sees them. */
  ghost predicate ServerRely(s: State, t: State)
  {
    && t.thread == s.thread
    && (s.stopRequested ==> t.stopRequested)
    && Settled(s, t)
    && s.queue <= t.queue
    && forall i :: 0 <= i < |s.tasks| ==> t.tasks[i].runs == s.tasks[i].runs
  }

  predicate ThreadRuns(thread: Thread)
  {
    !thread.NoThread? && !thread.Exited?
  }

  lemma OthersLeaveTheThread(s: State, l: Label)
    requires Enabled(s, l) && Inv(s) && !ServerLabel(l) && ThreadRuns(s.thread)
    ensures ServerRely(s, Effect(s, l))
  {
    hide PhaseAfter, ControlAfter, RequestingAfter, PushingAfter, ExecutedAfter;
    hide Pending, QueueInv, HistoryInv, TasksInv, StoppedText, Settled;
    StepSettles(s, l);
  }

  lemma ServerRelyTransitive(s: State, t: State, u: State)
    requires ServerRely(s, t) && ServerRely(t, u)
    ensures ServerRely(s, u)
  {
  }

  /** The task has run its course: its callback ran once, or its client had given up. */
  ghost predicate Resolved(s: State, t: TaskId)
  {
    t < |s.tasks| && s.tasks[t].done && (s.tasks[t].runs == 1 || s.tasks[t].client == TimedOut)
  }

  lemma ResolvedStays(s: State, t: State, task: TaskId)
    requires Settled(s, t) && Resolved(s, task)
    ensures Resolved(t, task)
  {
  }

  lemma QueueIsInRange(s: State)
    requires Inv(s)
    ensures forall t :: t in s.queue || t in Busy(s.thread) || t in InStop(s.control) ==> t < |s.tasks| && !s.tasks[t].done
  {
    hide HistoryInv, TasksInv, LifecycleInv;
    var p := Pending(s);
    forall t | t in s.queue || t in Busy(s.thread) || t in InStop(s.control) ensures t < |s.tasks| && !s.tasks[t].done {
      assert t in p;
      var i :| 0 <= i < |p| && p[i] == t;
    }
  }

  /** Taking a task: it now executes, or its client has given up. */
  lemma TakenTask(s: State)
    requires Inv(s) && Enabled(s, NextTask) && s.thread.batch != []
    ensures var t, task := Effect(s, NextTask), s.thread.batch[0];
            && task < |s.tasks|
            && |t.tasks| == |s.tasks|
            && (if s.tasks[task].state == Queued
                then t.thread == Calling(task, s.thread.batch[1..], s.thread.last) && t.tasks[task].runs == 1
                else t.thread == Completing(task, CancelledText(), s.thread.batch[1..], s.thread.last)
                     && t.tasks[task].client == TimedOut)
  {
    hide PhaseAfter, StopRequestedAfter, ControlAfter, RequestingAfter, PushingAfter, QueueAfter, ExecutedAfter;
    hide CancelledText, Pending, HistoryInv, LifecycleInv, QueueInv;
    QueueIsInRange(s);
    var task := s.thread.batch[0];
    assert task in Busy(s.thread);
    assert TaskOk(s.tasks[task], Current(s.thread) == [task]);
  }

  lemma HeadInRange(s: State)
    requires Inv(s) && (s.thread.Draining? || s.thread.Failing?) && s.thread.batch != []
    ensures s.thread.batch[0] < |s.tasks| && !s.tasks[s.thread.batch[0]].done
  {
    hide Inv;
    QueueIsInRange(s);
    assert s.thread.batch[0] in Busy(s.thread);
  }

  /** The task has been answered without ever having run. */
  ghost predicate Refused(s: State, t: TaskId)
  {
    t < |s.tasks| && s.tasks[t].done && s.tasks[t].runs == 0
  }

  lemma RefusedStays(s: State, t: State, task: TaskId)
    requires Settled(s, t) && Refused(s, task)
    ensures Refused(t, task)
  {
  }

  lemma HeadNeverRan(s: State)
    requires Inv(s) && s.thread.Failing? && s.thread.batch != [] && s.thread.batch[0] < |s.tasks|
    ensures s.tasks[s.thread.batch[0]].runs == 0
  {
    hide HistoryInv, LifecycleInv, QueueInv, Pending;
    HeadInRange(s);
    assert TaskOk(s.tasks[s.thread.batch[0]], Current(s.thread) == [s.thread.batch[0]]);
  }

  lemma HeadRefused(s: State)
    requires s.thread.Failing? && s.thread.batch != [] && Enabled(s, FailOne)
    requires s.tasks[s.thread.batch[0]].runs == 0
    ensures Refused(Effect(s, FailOne), s.thread.batch[0])
    ensures Effect(s, FailOne).thread == Failing(s.thread.batch[1..], s.thread.failed)
  {
    hide PhaseAfter, StopRequestedAfter, ControlAfter, RequestingAfter, PushingAfter, QueueAfter, ExecutedAfter;
    hide StoppedText, FailedText;
  }

  lemma RegularQueueIsEmpty(s: State)
    requires Inv(s) && s.thread == Settling(false)
    ensures s.queue == []
  {
    hide QueueInv, HistoryInv, TasksInv;
  }

  lemma OthersLeaveTheClient(s: State, l: Label, task: TaskId)
    requires Enabled(s, l) && task < |s.tasks| && l != SeesDone(task) && l != TimesOut(task)
    ensures task < |Effect(s, l).tasks| && Effect(s, l).tasks[task].client == s.tasks[task].client
  {
    hide PhaseAfter, StopRequestedAfter, ThreadAfter, ControlAfter, RequestingAfter,
      PushingAfter, QueueAfter, ExecutedAfter;
    hide StoppedText, FailedText, CancelledText;
  }

  /** What a client learns from the state of its own task. */
  lemma WaitingTask(s: State, task: TaskId)
    requires Inv(s) && task < |s.tasks|
    ensures var t := s.tasks[task];
            && (t.client == TimedOut ==> Dead(s, task))
            && (t.client == SecondWait ==> t.done || Current(s.thread) == [task])
            && (t.client == Reported(true) ==> t.runs == 1)
            && (t.client == Reported(false) && t.thrown.None? ==> Dead(s, task))
  {
    hide QueueInv, LifecycleInv, Pending;
    assert TaskOk(s.tasks[task], Current(s.thread) == [task]);
  }

  lemma ServerRelyStart(s: State)
    ensures ServerRely(s, s)
  {
  }

  lemma SettledStart(s: State)
    ensures Settled(s, s)
  {
  }

  lemma LeavingIsRequested(s: State)
    requires Inv(s) && s.thread == Closing(false)
    ensures s.stopRequested
  {
    hide QueueInv, HistoryInv, TasksInv;
  }

  lemma OthersLeaveTheControl(s: State, l: Label)
    requires Enabled(s, l) && !ControlLabel(l)
    ensures Effect(s, l).control == s.control
  {
    hide PhaseAfter, StopRequestedAfter, ThreadAfter, RequestingAfter, PushingAfter, QueueAfter, TasksAfter,
      ExecutedAfter;
  }

  /** Nothing is queued or under way, and every task that ever was is answered. */
  ghost predicate AllAnswered(s: State)
  {
    s.queue == [] && s.pushing.None? && forall t :: 0 <= t < |s.tasks| ==> s.tasks[t].done
  }

  lemma StoppedIsAnswered(s: State)
    requires Inv(s) && s.phase == Stopped && (s.thread == Exited || (s.thread == NoThread && !s.control.StopFailing?))
    ensures AllAnswered(s)
  {
    hide HistoryInv, TasksInv;
    assert Pending(s) == [];
  }

  lemma StopBatchInRange(s: State)
    requires Inv(s) && s.control.StopFailing? && s.control.batch != []
    ensures Enabled(s, StopFailOne)
  {
    hide Inv;
    QueueIsInRange(s);
    assert s.control.batch[0] in InStop(s.control);
  }

  lemma RunningHasThread(s: State)
    requires Inv(s) && s.phase == Running
    ensures s.thread != NoThread
  {
    hide QueueInv, HistoryInv, TasksInv;
  }

  lemma JoiningIsNotRunning(s: State)
    requires Inv(s) && s.control == JoiningStopped
    ensures s.phase != Running && s.stopRequested
  {
    hide QueueInv, HistoryInv, TasksInv;
  }

  lemma JoinedHasNoThread(s: State)
    requires Inv(s)
    ensures StopJoined(s.control) ==> s.thread.NoThread?
  {
    hide QueueInv, HistoryInv, TasksInv;
  }

  lemma BeginsStop(s: State)
    requires Enabled(s, ServerProtocol.Label.Stop)
    ensures Effect(s, ServerProtocol.Label.Stop).control == StopRequested
  {
    hide PhaseAfter, StopRequestedAfter, ThreadAfter, TasksAfter;
  }

  lemma EndsRequest(s: State)
    requires Enabled(s, StopEnd)
    ensures Effect(s, StopEnd).control == StopDeciding
  {
    hide PhaseAfter, StopRequestedAfter, ThreadAfter, TasksAfter;
  }

  /** What stop makes of the state it finds. */
  lemma Decides(s: State, onServerThread: bool)
    requires Inv(s) && Enabled(s, Decide(onServerThread))
    ensures var t := Effect(s, Decide(onServerThread));
            && t.phase != Running
            && (t.control == Free || t.control == JoiningStopped || t.control == StopSwapping)
            && (t.control == Free && !(t.phase == Stopped && t.thread == NoThread) ==> onServerThread)
            && (t.control == JoiningStopped || !(t.phase == Stopped && t.thread == NoThread) ==> t.stopRequested)
  {
    hide TasksAfter, ExecutedAfter, QueueAfter, PushingAfter, QueueInv, HistoryInv, TasksInv;
  }

  class Server {
    var s: State

    constructor ()
      ensures s == INITIAL
    {
      s := INITIAL;
    }

    /** One atomic step of the calling thread. */
    method Step(l: Label)
      requires Inv(s) && Enabled(s, l)
      modifies this
      ensures s == Effect(old(s), l) && Inv(s) && Settled(old(s), s)
    {
      StepKeepsInv(s, l);
      StepSettles(s, l);
      s := Effect(s, l);
    }

    /** Any steps of the other threads while the server thread is between two of its own. */
    method OthersAct()
      requires Inv(s) && ThreadRuns(s.thread)
      modifies this
      ensures Inv(s) && ServerRely(old(s), s)
    {
      hide Inv, Effect, Enabled;
      var steps: int := *;
      while steps > 0
        invariant Inv(s) && ServerRely(old(s), s)
      {
        var l: Label := *;
        if !ServerLabel(l) && Enabled(s, l) {
          OthersLeaveTheThread(s, l);
          ServerRelyTransitive(old(s), s, Effect(s, l));
          Step(l);
        }
        steps := steps - 1;
      }
    }

    /** Waits for the tasks mutex: whoever holds it finishes its block. */
    method LockTasksMutex()
      requires Inv(s) && ThreadRuns(s.thread)
      modifies this
      ensures Inv(s) && ServerRely(old(s), s) && s.pushing.None?
    {
      hide Inv;
      if s.pushing.Some? {
        OthersLeaveTheThread(s, Push);
        Step(Push);
      }
    }

    /** One turn of drainTasks' loop. */
    method RunTask()
      requires Inv(s) && s.thread.Draining? && s.thread.batch != []
      modifies this
      ensures Inv(s) && Settled(old(s), s)
      ensures s.thread == Draining(old(s).thread.batch[1..], old(s).thread.last)
      ensures Resolved(s, old(s).thread.batch[0])
    {
      hide Inv, Settled, Effect, Enabled, CancelledText;
      ghost var s0 := s;
      ghost var task, rest, last := s.thread.batch[0], s.thread.batch[1..], s.thread.last;
      BeginTask();
      ghost var s1 := s;
      if s.thread.Calling? {
        RunCallback();
        SettledTransitive(s0, s1, s);
      }
      ghost var s2 := s;
      CompleteTask();
      SettledTransitive(s0, s2, s);
    }

    /** Takes the next task: its callback is called, unless its client has given up. */
    method BeginTask()
      requires Inv(s) && s.thread.Draining? && s.thread.batch != []
      modifies this
      ensures Inv(s) && Settled(old(s), s)
      ensures var task, rest, last := old(s).thread.batch[0], old(s).thread.batch[1..], old(s).thread.last;
              && task < |s.tasks|
              && ((s.thread == Calling(task, rest, last) && s.tasks[task].runs == 1)
                  || (s.thread == Completing(task, CancelledText(), rest, last) && s.tasks[task].client == TimedOut))
    {
      hide Inv, Settled, Effect, CancelledText;
      ghost var s0 := s;
      OthersAct();
      HeadInRange(s);
      TakenTask(s);
      ghost var s1 := s;
      Step(NextTask);
      SettledTransitive(s0, s1, s);
    }

    /** The callback runs, and may throw anything. */
    method RunCallback()
      requires Inv(s) && s.thread.Calling? && s.thread.task < |s.tasks| && s.tasks[s.thread.task].runs == 1
      modifies this
      ensures Inv(s) && Settled(old(s), s) && s.thread.Completing?
      ensures s.thread.task == old(s).thread.task < |s.tasks| && s.tasks[s.thread.task].runs == 1
      ensures s.thread.batch == old(s).thread.batch && s.thread.last == old(s).thread.last
    {
      hide Inv, PhaseAfter, StopRequestedAfter, ControlAfter, RequestingAfter, PushingAfter, QueueAfter, ExecutedAfter;
      OthersAct();
      var thrown: Option<string> := *;
      Step(CallbackReturns(thrown));
    }

    /** complete: the client learns of it. */
    method CompleteTask()
      requires Inv(s) && s.thread.Completing? && s.thread.task < |s.tasks|
      requires s.tasks[s.thread.task].runs == 1 || s.tasks[s.thread.task].client == TimedOut
      modifies this
      ensures Inv(s) && Settled(old(s), s)
      ensures s.thread == Draining(old(s).thread.batch, old(s).thread.last)
      ensures Resolved(s, old(s).thread.task)
    {
      hide Inv, PhaseAfter, StopRequestedAfter, ControlAfter, RequestingAfter, PushingAfter, QueueAfter, ExecutedAfter;
      OthersAct();
      Step(Complete);
    }

    /** drainTasks: takes the whole queue and sees every task in it through. */
    method DrainTasks()
      requires Inv(s) && s.thread.Swapping?
      modifies this
      ensures Inv(s) && Settled(old(s), s)
      ensures s.thread == if old(s).thread.last then Closing(false) else Iterating
      ensures forall t :: t in old(s).queue ==> Resolved(s, t)
    {
      hide Inv, CancelledText, Settled, Resolved;
      ghost var s0 := s;
      LockTasksMutex();
      ghost var batch0 := s.queue;
      ghost var swapped := s;
      Step(SwapTasks);
      SettledTransitive(s0, swapped, s);
      while s.thread.batch != []
        invariant Inv(s) && s.thread.Draining? && s.thread.last == s0.thread.last
        invariant Settled(s0, s)
        invariant forall t :: t in batch0 ==> t in s.thread.batch || Resolved(s, t)
        decreases |s.thread.batch|
      {
        ghost var s1 := s;
        RunTask();
        SettledTransitive(s0, s1, s);
        forall t | t in batch0 && t !in s.thread.batch ensures Resolved(s, t) {
          if t != s1.thread.batch[0] { ResolvedStays(s1, s, t); }
        }
      }
      ghost var s1 := s;
      Step(NextTask);
      SettledTransitive(s0, s1, s);
      forall t | t in s0.queue ensures Resolved(s, t) { ResolvedStays(s1, s, t); }
    }

    /** failPendingTasks on the server thread: what is left in the queue is refused unrun. */
    method FailPendingTasks()
      requires Inv(s) && s.thread.FailSwapping?
      modifies this
      ensures Inv(s) && Settled(old(s), s) && s.thread == Settling(old(s).thread.failed)
      ensures forall t :: t in old(s).queue ==> Refused(s, t)
      ensures !old(s).thread.failed ==> s.queue == []
    {
      hide Inv, StoppedText, FailedText, Settled, Refused;
      ghost var s0 := s;
      LockTasksMutex();
      ghost var batch0 := s.queue;
      ghost var s1 := s;
      Step(SwapForFailure);
      SettledTransitive(s0, s1, s);
      while s.thread.batch != []
        invariant Inv(s) && s.thread.Failing? && s.thread.failed == s0.thread.failed
        invariant Settled(s0, s)
        invariant forall t :: t in batch0 ==> t in s.thread.batch || Refused(s, t)
        decreases |s.thread.batch|
      {
        ghost var s2 := s;
        HeadInRange(s);
        OthersAct();
        HeadInRange(s);
        HeadNeverRan(s);
        ghost var s3 := s;
        Step(FailOne);
        HeadRefused(s3);
        SettledTransitive(s2, s3, s);
        SettledTransitive(s0, s2, s);
        forall t | t in batch0 && t !in s.thread.batch ensures Refused(s, t) {
          if t != s3.thread.batch[0] { RefusedStays(s2, s, t); }
        }
      }
      ghost var s4 := s;
      Step(FailOne);
      SettledTransitive(s0, s4, s);
      forall t | t in s0.queue ensures Refused(s, t) { RefusedStays(s4, s, t); }
      if !s.thread.failed { RegularQueueIsEmpty(s); }
    }

    /** Waits for the lifecycle mutex: whoever holds it finishes its block. */
    method LockLifecycle()
      requires Inv(s) && ThreadRuns(s.thread)
      modifies this
      ensures Inv(s) && ServerRely(old(s), s) && LifecycleFree(s)
    {
      hide Inv, ServerRely, Settled, PhaseAfter, StopRequestedAfter, PushingAfter, QueueAfter, TasksAfter,
        ExecutedAfter;
      ghost var s0 := s;
      ServerRelyStart(s);
      if s.requesting {
        OthersLeaveTheThread(s, RequestStopEnd);
        Step(RequestStopEnd);
      }
      if s.control.StopRequested? {
        OthersLeaveTheThread(s, StopEnd);
        ServerRelyTransitive(s0, s, Effect(s, StopEnd));
        Step(StopEnd);
      }
    }

    /**
      The serving loop of run; `iterations` are the ends of the native server's turns, true for an
      exception. The loop is left over an exception, or as soon as it finds a stop request.
     */
    method Serve(iterations: seq<bool>) returns (left: bool)
      requires Inv(s) && s.thread.Checking?
      modifies this
      ensures Inv(s) && Settled(old(s), s)
      ensures left ==> (s.thread == Closing(true) && true in iterations) || (s.thread == Closing(false) && s.stopRequested)
      ensures !left ==> s.thread.Checking? && !s.stopRequested && true !in iterations
    {
      hide Inv, Settled;
      SettledStart(s);
      for k := 0 to |iterations|
        invariant Inv(s) && Settled(old(s), s) && s.thread.Checking? && true !in iterations[..k]
      {
        ghost var s1 := s;
        ghost var asked;
        left, asked := ServeOnce(iterations[k]);
        SettledTransitive(old(s), s1, s);
        if left {
          return true;
        }
        assert iterations[..k + 1] == iterations[..k] + [iterations[k]];
      }
      assert iterations[..|iterations|] == iterations;
      if !s.stopRequested {
        return false;
      }
      ghost var s2 := s;
      ghost var asked;
      left, asked := ServeOnce(false);
      SettledTransitive(old(s), s2, s);
    }

    /** One turn of the loop, and the last drain if it was the last: `asked` if it found a stop request. */
    method ServeOnce(throws: bool) returns (left: bool, ghost asked: bool)
      requires Inv(s) && s.thread.Checking?
      modifies this
      ensures Inv(s) && Settled(old(s), s)
      ensures old(s).stopRequested ==> asked
      ensures asked ==> s.stopRequested
      ensures left <==> asked || throws
      ensures s.thread == if asked then Closing(false) else if throws then Closing(true) else Checking
    {
      hide Inv, Settled, TasksAfter, ExecutedAfter, QueueAfter, PushingAfter, PhaseAfter, ControlAfter;
      ghost var s0 := s;
      OthersAct();
      ghost var s1 := s;
      Step(CheckStop);
      asked := s.thread.last;
      SettledTransitive(s0, s1, s);
      ghost var s2 := s;
      DrainTasks();
      SettledTransitive(s0, s2, s);
      if s.thread.Closing? {
        LeavingIsRequested(s);
        return true, asked;
      }
      ghost var s3 := s;
      OthersAct();
      SettledTransitive(s0, s3, s);
      ghost var s4 := s;
      Step(IterateReturns(throws));
      SettledTransitive(s0, s4, s);
      return throws, asked;
    }

    /** Ends the native server; an exception there turns a regular end into a failure. */
    method CloseNativeServer(throws: bool)
      requires Inv(s) && s.thread.Closing?
      modifies this
      ensures Inv(s) && Settled(old(s), s) && s.thread == FailSwapping(old(s).thread.failed || throws)
    {
      hide Inv, Settled, TasksAfter, ExecutedAfter, QueueAfter, PushingAfter, PhaseAfter, ControlAfter;
      ghost var s0 := s;
      OthersAct();
      ghost var s1 := s;
      if throws && !s.thread.failed {
        Step(CloseNative(true));
        SettledTransitive(s0, s1, s);
      }
      ghost var s2 := s;
      LockLifecycle();
      SettledTransitive(s0, s2, s);
      ghost var s3 := s;
      Step(CloseNative(false));
      SettledTransitive(s0, s3, s);
    }

    /** The server thread's last write: the state it ends in. */
    method SettleState()
      requires Inv(s) && s.thread.Settling?
      modifies this
      ensures Inv(s) && Settled(old(s), s) && s.thread == Exited
      ensures s.phase == if old(s).thread.failed then Failed else Stopped
    {
      hide Inv, Settled, TasksAfter, ExecutedAfter, QueueAfter, PushingAfter, ControlAfter;
      ghost var s0 := s;
      if s.thread.failed {
        LockLifecycle();
      }
      SettledStart(s0);
      ghost var s1 := s;
      Step(Settle);
      SettledTransitive(s0, s1, s);
    }

    /**
      run, from the launch of the server thread to its end: it is still serving only while nobody
      asked it to stop, and it ends in failure exactly over an exception. When it is through, every
      task that was queued at any time before is answered, unless the server failed; a failed
      server's queue may have gained entries in the meantime.
     */
    method Run(starts: bool, iterations: seq<bool>, closeThrows: bool) returns (through: bool)
      requires Inv(s) && s.thread.Startup?
      modifies this
      ensures Inv(s) && Settled(old(s), s)
      ensures !through ==> starts && s.thread.Checking? && !s.stopRequested && true !in iterations
      ensures through ==> s.thread == Exited && (s.phase == Failed || (s.phase == Stopped && AllAnswered(s)))
      ensures through && (!starts || closeThrows) ==> s.phase == Failed
      ensures through && starts && !closeThrows && true !in iterations ==> s.phase == Stopped
    {
      hide Inv, Settled, TasksAfter, ExecutedAfter, QueueAfter, PushingAfter, PhaseAfter, ControlAfter, AllAnswered;
      ghost var s0 := s;
      LockLifecycle();
      ghost var s1 := s;
      Step(if starts then StartupDone else StartupFails);
      SettledTransitive(s0, s1, s);
      if starts {
        ghost var s2 := s;
        var left := Serve(iterations);
        SettledTransitive(s0, s2, s);
        if !left {
          return false;
        }
      }
      ghost var s3 := s;
      CloseNativeServer(closeThrows);
      SettledTransitive(s0, s3, s);
      ghost var s4 := s;
      FailPendingTasks();
      SettledTransitive(s0, s4, s);
      ghost var s5 := s;
      SettleState();
      SettledTransitive(s0, s5, s);
      if s.phase == Stopped {
        StoppedIsAnswered(s);
      }
      return true;
    }

    /**
      start: true exactly when the server is running. A start that is through without success
      leaves no thread; one that is not waits for a thread to end or for the startup.
     */
    method Start(patient: bool) returns (through: bool, started: bool)
      requires Inv(s) && s.control == Free
      modifies this
      ensures Inv(s)
      ensures old(s).phase == Running && LifecycleFree(old(s)) ==> through && started && s.thread == old(s).thread
      ensures through ==> s.control == Free && (started <==> s.phase == Running) && (!started ==> s.thread == NoThread)
      ensures !through ==>
                || ((s.control == JoiningStale || s.control == JoiningFailed) && s.thread != Exited)
                || (s.control == AwaitingStart && s.phase == Starting && patient)
    {
      hide Inv, Settled, TasksAfter, ExecutedAfter, QueueAfter, PushingAfter, StopRequestedAfter;
      FinishRequest();
      Step(ServerProtocol.Label.Start(true));
      Step(StartCheck);
      if s.control == Free {
        return true, true;
      }
      var launched := LaunchThread();
      if !launched {
        return false, false;
      }
      through, started := AwaitStart(patient);
    }

    /** Joins a thread of an earlier run, if there is one, and launches a new one. */
    method LaunchThread() returns (launched: bool)
      requires Inv(s) && (s.control == JoiningStale || s.control == Launching)
      modifies this
      ensures Inv(s)
      ensures if launched then s.control == AwaitingStart else s.control == JoiningStale && s.thread != Exited
    {
      hide Inv, PhaseAfter, TasksAfter, ExecutedAfter, QueueAfter, PushingAfter, StopRequestedAfter, ThreadAfter;
      if s.control == JoiningStale {
        OthersActDuringStop();
        if s.thread != Exited {
          return false;
        }
        Step(JoinStale);
      }
      FinishRequest();
      Step(Launch);
      return true;
    }

    /** Waits until the new thread serves, has failed or takes too long. */
    method AwaitStart(patient: bool) returns (through: bool, started: bool)
      requires Inv(s) && s.control == AwaitingStart
      modifies this
      ensures Inv(s)
      ensures through ==> s.control == Free && (started <==> s.phase == Running) && (!started ==> s.thread == NoThread)
      ensures !through ==>
                || (s.control == JoiningFailed && s.thread != Exited)
                || (s.control == AwaitingStart && s.phase == Starting && patient)
    {
      hide Inv, TasksAfter, ExecutedAfter, QueueAfter, PushingAfter, StopRequestedAfter;
      OthersActDuringStop();
      FinishRequest();
      if s.phase == Starting {
        if patient {
          return false, false;
        }
        Step(StartTimesOut);
      } else {
        Step(StartAwakes);
        if s.control == Free {
          return true, true;
        }
      }
      OthersActDuringStop();
      if s.thread != Exited {
        return false, false;
      }
      Step(JoinFailed);
      if s.phase == Running { RunningHasThread(s); }
      return true, false;
    }

    /** Any steps of the other threads while the holder of the transition mutex waits. */
    method OthersActDuringStop()
      requires Inv(s)
      modifies this
      ensures Inv(s) && s.control == old(s).control
    {
      hide Inv, Effect, Enabled;
      var steps: int := *;
      while steps > 0
        invariant Inv(s) && s.control == old(s).control
      {
        steps := steps - 1;
        var l: Label := *;
        if !ControlLabel(l) && Enabled(s, l) {
          OthersLeaveTheControl(s, l);
          Step(l);
        }
      }
    }

    /**
      stop: the server is not running any more, and once the server thread is joined it is
      stopped and every task is answered.
     */
    method Stop(onServerThread: bool) returns (joined: bool)
      requires Inv(s) && s.control == Free
      modifies this
      ensures Inv(s) && s.phase != Running
      ensures !joined ==> s.stopRequested && (onServerThread || (s.control == JoiningStopped && s.thread != Exited))
      ensures joined ==> s.control == Free && s.phase == Stopped && s.thread == NoThread && AllAnswered(s)
    {
      hide Inv, Effect, Enabled, AllAnswered;
      DecideToStop(onServerThread);
      if s.control == Free {
        joined := s.phase == Stopped && s.thread == NoThread;
        if joined { StoppedIsAnswered(s); }
        return;
      }
      var swapping := JoinThread();
      if !swapping {
        JoiningIsNotRunning(s);
        return false;
      }
      FailStoppedTasks();
      StoppedIsAnswered(s);
      return true;
    }

    /** requestStop, and the decision what there is to join. */
    method DecideToStop(onServerThread: bool)
      requires Inv(s) && s.control == Free
      modifies this
      ensures Inv(s) && s.phase != Running
      ensures s.control == Free || s.control == JoiningStopped || s.control == StopSwapping
      ensures s.control == Free && !(s.phase == Stopped && s.thread == NoThread) ==> onServerThread
      ensures s.control == JoiningStopped || !(s.phase == Stopped && s.thread == NoThread) ==> s.stopRequested
    {
      hide Inv, Settled, Effect;
      RequestStopping();
      OthersActDuringStop();
      FinishRequest();
      Decides(s, onServerThread);
      Step(Decide(onServerThread));
    }

    method RequestStopping()
      requires Inv(s) && s.control == Free
      modifies this
      ensures Inv(s) && s.control == StopDeciding
    {
      hide Inv, Settled, Effect;
      FinishRequest();
      BeginsStop(s);
      Step(ServerProtocol.Label.Stop);
      OthersActDuringStop();
      EndsRequest(s);
      Step(StopEnd);
    }

    /** Another thread inside requestStop finishes. */
    method FinishRequest()
      requires Inv(s)
      modifies this
      ensures Inv(s) && !s.requesting && s.control == old(s).control
      ensures !old(s).requesting ==> s == old(s)
    {
      hide Inv, PhaseAfter, StopRequestedAfter, ThreadAfter, PushingAfter, QueueAfter, TasksAfter, ExecutedAfter;
      if s.requesting {
        Step(RequestStopEnd);
      }
    }

    /** Waits for the end of the server thread, unless there is none. */
    method JoinThread() returns (swapping: bool)
      requires Inv(s) && (s.control == JoiningStopped || s.control == StopSwapping)
      modifies this
      ensures Inv(s) && s.control == if swapping then StopSwapping else JoiningStopped
      ensures !swapping ==> s.thread != Exited
    {
      hide Inv, PhaseAfter, TasksAfter, ExecutedAfter, QueueAfter, PushingAfter, StopRequestedAfter, RequestingAfter;
      if s.control == JoiningStopped {
        OthersActDuringStop();
        if s.thread != Exited {
          return false;
        }
        Step(JoinStopped);
      }
      return true;
    }

    /** failPendingTasks in stop, and the final state. */
    method FailStoppedTasks()
      requires Inv(s) && s.control == StopSwapping
      modifies this
      ensures Inv(s) && s.control == Free && s.phase == Stopped && s.thread == NoThread
    {
      hide Inv, Settled, TasksAfter, ExecutedAfter, QueueAfter, StopRequestedAfter, RequestingAfter;
      if s.pushing.Some? {
        Step(Push);
      }
      Step(StopSwap);
      FailJoinedBatch();
      JoinedHasNoThread(s);
      Step(StopSettle);
    }

    method FailJoinedBatch()
      requires Inv(s) && s.control.StopFailing?
      modifies this
      ensures Inv(s) && s.control == StopSettling
    {
      hide Inv, PhaseAfter, ThreadAfter, TasksAfter, ExecutedAfter, QueueAfter, PushingAfter, StopRequestedAfter,
        RequestingAfter, StoppedText;
      while s.control.batch != []
        invariant Inv(s) && s.control.StopFailing?
        decreases |s.control.batch|
      {
        StopBatchInRange(s);
        Step(StopFailOne);
      }
      Step(StopFailOne);
    }

    /** Any steps of the other threads while a client waits for its task. */
    method EverybodyActs(task: TaskId)
      requires Inv(s) && task < |s.tasks|
      modifies this
      ensures Inv(s) && task < |s.tasks| && s.tasks[task].client == old(s).tasks[task].client
    {
      hide Inv, Effect, Enabled;
      var steps: int := *;
      while steps > 0
        invariant Inv(s) && task < |s.tasks| && s.tasks[task].client == old(s).tasks[task].client
      {
        var l: Label := *;
        if l != SeesDone(task) && l != TimesOut(task) && Enabled(s, l) {
          OthersLeaveTheClient(s, l, task);
          Step(l);
        }
        steps := steps - 1;
      }
    }

    /** invoke from a thread other than the server's. */
    method Invoke() returns (outcome: InvokeOutcome)
      requires Inv(s)
      modifies this
      ensures Inv(s)
      ensures outcome.NotRunning? <==> old(s).phase != Running
      ensures outcome.NotRunning? || (old(|s.tasks|) <= outcome.task < |s.tasks| && OutcomeHolds(s, outcome))
    {
      hide Inv, OutcomeHolds;
      if s.pushing.Some? {
        Step(Push);
      }
      if s.phase != Running {
        return NotRunning;
      }
      Step(LockTasks(FirstWait));
      var task := |s.tasks|;
      Step(Push);
      outcome := AwaitTask(task);
    }

    /** The two waits of invoke: a timed one, and an untimed one if the task has already begun. */
    method AwaitTask(task: TaskId) returns (outcome: InvokeOutcome)
      requires Inv(s) && task < |s.tasks| && s.tasks[task].client == FirstWait
      modifies this
      ensures Inv(s) && !outcome.NotRunning? && outcome.task == task < |s.tasks| && OutcomeHolds(s, outcome)
    {
      hide Inv;
      EverybodyActs(task);
      if !s.tasks[task].done {
        GiveUp(s, task);
        Step(TimesOut(task));
        WaitingTask(s, task);
        if s.tasks[task].client == TimedOut {
          return TimeoutReported(task);
        }
        EverybodyActs(task);
        WaitingTask(s, task);
        if !s.tasks[task].done {
          return StillWaiting(task);
        }
      }
      var ok := s.tasks[task].error == "";
      TakeAnswer(s, task);
      Step(SeesDone(task));
      WaitingTask(s, task);
      return Answered(task, ok);
    }
  }

  /** What an outcome of invoke means for its task. */
  ghost predicate OutcomeHolds(s: State, outcome: InvokeOutcome)
  {
    match outcome
    case NotRunning => true
    case TimeoutReported(t) => t < |s.tasks| && s.tasks[t].client == TimedOut && Dead(s, t)
    case Answered(t, ok) =>
      && t < |s.tasks| && s.tasks[t].client == Reported(ok)
      && (ok ==> s.tasks[t].runs == 1)
      && (!ok && s.tasks[t].thrown.None? ==> Dead(s, t))
    case StillWaiting(t) =>
      t < |s.tasks| && s.tasks[t].client == SecondWait && !s.tasks[t].done && Current(s.thread) == [t]
  }

  lemma GiveUp(s: State, task: TaskId)
    requires Enabled(s, TimesOut(task))
    ensures var t := Effect(s, TimesOut(task));
            |t.tasks| == |s.tasks| && (t.tasks[task].client == TimedOut || t.tasks[task].client == SecondWait)
  {
    hide PhaseAfter, StopRequestedAfter, ThreadAfter, ControlAfter, RequestingAfter,
      PushingAfter, QueueAfter, ExecutedAfter;
  }

  lemma TakeAnswer(s: State, task: TaskId)
    requires Enabled(s, SeesDone(task))
    ensures var t := Effect(s, SeesDone(task));
            |t.tasks| == |s.tasks| && t.tasks[task].client == Reported(s.tasks[task].error == "")
  {
    hide PhaseAfter, StopRequestedAfter, ThreadAfter, ControlAfter, RequestingAfter,
      PushingAfter, QueueAfter, ExecutedAfter;
  }
}
