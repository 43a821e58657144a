/**
  What every interleaving of the server's threads keeps: tasks run at most once and in the
  order of queuing, a cancelled task never runs, a waiting client is never stranded, and
  stopping is final until the next start.
 */
module ServerSafety {
  import opened Wrappers
  import opened ServerProtocol

  // ------------------------------------------------------------- unfinished tasks

  /** The task the server thread is busy with. */
  function Current(thread: Thread): seq<TaskId>
  {
    match thread
    case Calling(t, _, _) => [t]
    case Completing(t, _, _, _) => [t]
    case _ => []
  }

  /** Tasks that have left the queue but whose turn has not come. */
  function InHand(thread: Thread): seq<TaskId>
  {
    match thread
    case Draining(batch, _) => batch
    case Calling(_, batch, _) => batch
    case Completing(_, _, batch, _) => batch
    case Failing(batch, _) => batch
    case _ => []
  }

  function Busy(thread: Thread): seq<TaskId>
  {
    Current(thread) + InHand(thread)
  }

  function InStop(control: Control): seq<TaskId>
  {
    if control.StopFailing? then control.batch else []
  }

  /** All unfinished tasks, oldest first. */
  function Pending(s: State): seq<TaskId>
  {
    Busy(s.thread) + InStop(s.control) + s.queue
  }

  ghost predicate Increasing(ids: seq<TaskId>)
  {
    forall i, j :: 0 <= i < j < |ids| ==> ids[i] < ids[j]
  }

  ghost predicate Below(ids: seq<TaskId>, bound: nat)
  {
    forall i :: 0 <= i < |ids| ==> ids[i] < bound
  }

  // ---------------------------------------------------------------- invariants

  /** Unfinished tasks are in order, and are exactly those not done. */
  ghost predicate QueueInv(s: State)
  {
    && Increasing(Pending(s)) && Below(Pending(s), |s.tasks|)
    && forall i :: 0 <= i < |s.tasks| ==> (s.tasks[i].done <==> i !in Pending(s))
  }

  /** Executed tasks are in order, ran once, and precede all that is pending. */
  ghost predicate HistoryInv(s: State)
  {
    && Increasing(s.executed) && Below(s.executed, |s.tasks|)
    && (forall i :: 0 <= i < |s.tasks| ==> s.tasks[i].runs == if i in s.executed then 1 else 0)
    && forall e, p :: e in s.executed && p in Pending(s) ==> e <= p
  }

  ghost predicate TaskOk(task: Task, current: bool)
  {
    && (match task.state
        case Queued => task.runs == 0 && !task.client.TimedOut?
        case Executing => task.runs == 1 && !task.client.TimedOut? && (task.done || current)
        case Cancelled => task.runs == 0 && task.client.TimedOut?)
    && (task.client.SecondWait? ==> task.state.Executing?)
    && (task.client.Reported? ==> task.done && (task.client.ok <==> task.error == ""))
    && (task.done ==> CompletionOk(task, task.error))
  }

  ghost predicate TasksInv(s: State)
  {
    && (forall i :: 0 <= i < |s.tasks| ==> TaskOk(s.tasks[i], Current(s.thread) == [i]))
    && (s.pushing.Some? ==> s.pushing.value == Detached || s.pushing.value == FirstWait)
    && (s.thread.Calling? ==> s.thread.task < |s.tasks| && s.tasks[s.thread.task].state == Executing)
    && (s.thread.Completing? ==> s.thread.task < |s.tasks| && CompletionOk(s.tasks[s.thread.task], s.thread.error))
  }

  /** A callback that ran leaves the text of its exception; any other end leaves some text. */
  ghost predicate CompletionOk(t: Task, error: string)
  {
    if t.runs == 1 then error == ErrorOf(t.thrown) else error != ""
  }

  /** The server thread has left its loop because of a stop request. */
  predicate LeftLoop(thread: Thread)
  {
    match thread
    case Swapping(last) => last
    case Draining(_, last) => last
    case Calling(_, _, last) => last
    case Completing(_, _, _, last) => last
    case Closing(failed) => !failed
    case FailSwapping(failed) => !failed
    case Failing(_, failed) => !failed
    case Settling(failed) => !failed
    case _ => false
  }

  predicate ClosedRegularly(thread: Thread)
  {
    (thread.FailSwapping? || thread.Failing? || thread.Settling?) && !thread.failed
  }

  predicate StopJoined(control: Control)
  {
    control.StopSwapping? || control.StopFailing? || control.StopSettling?
  }

  ghost predicate Emptied(s: State)
  {
    s.queue == [] && s.pushing.None?
  }

  ghost predicate LifecycleInv(s: State)
  {
    && (s.stopRequested && LifecycleFree(s) ==> s.phase != Running)
    && (!LifecycleFree(s) ==> s.stopRequested)
    && (LeftLoop(s.thread) ==> s.stopRequested)
    && (ClosedRegularly(s.thread) ==> s.phase != Running)
    && (ClosedRegularly(s.thread) && !s.thread.FailSwapping? ==> Emptied(s))
    && (s.phase == Stopped ==> Emptied(s))
    && (s.phase == Running ==> !s.thread.NoThread? && !s.thread.Startup? && !s.thread.Exited?)
    && (s.control.Launching? || StopJoined(s.control) ==> s.thread.NoThread?)
    && (s.control.StopDeciding? || s.control.JoiningStopped? || StopJoined(s.control) ==>
          s.stopRequested && s.phase != Running)
    && (s.control.StopFailing? || s.control.StopSettling? ==> Emptied(s))
  }

  ghost predicate Inv(s: State)
  {
    QueueInv(s) && HistoryInv(s) && TasksInv(s) && LifecycleInv(s)
  }

  // -------------------------------------------------------------------- steps

  /** A step leaves the unfinished tasks alone, finishes the oldest or queues one more. */
  ghost predicate PendingChange(s: State, l: Label, q: seq<TaskId>)
  {
    var p := Pending(s);
    match l
    case Push => q == p + [|s.tasks|]
    case Complete => s.thread.Completing? && p != [] && p[0] == s.thread.task && q == p[1..]
    case FailOne => s.thread.Failing? && if s.thread.batch == [] then q == p
                                         else p != [] && p[0] == s.thread.batch[0] && q == p[1..]
    case StopFailOne => s.control.StopFailing? && if s.control.batch == [] then q == p
                                                  else p != [] && p[0] == s.control.batch[0] && q == p[1..]
    case _ => q == p
  }

  lemma ServerStepPending(s: State, l: Label)
    requires Enabled(s, l) && LifecycleInv(s) && ServerLabel(l)
    ensures PendingChange(s, l, Pending(Effect(s, l)))
  {
    hide PhaseAfter, StopRequestedAfter, RequestingAfter, PushingAfter, TasksAfter, ExecutedAfter;
    hide CancelledText, StoppedText, FailedText, Increasing, Below;
    if l.NextTask? {
      NextTaskStaysBusy(s);
    } else if l.SwapTasks? || l.SwapForFailure? {
      SwapMovesQueue(s, l);
    } else if l.Complete? {
      OldestLeaves(s, l, s.thread.task);
    } else if l.FailOne? && s.thread.batch != [] {
      OldestLeaves(s, l, s.thread.batch[0]);
    } else {
      hide Pending;
      SamePending(s, Effect(s, l));
    }
  }

  lemma SamePending(s: State, t: State)
    requires Busy(s.thread) == Busy(t.thread) && s.control == t.control && s.queue == t.queue
    ensures Pending(s) == Pending(t)
  {
  }

  lemma NextTaskStaysBusy(s: State)
    requires Enabled(s, NextTask)
    ensures Pending(Effect(s, NextTask)) == Pending(s)
  {
    hide PhaseAfter, StopRequestedAfter, RequestingAfter, PushingAfter, TasksAfter, ExecutedAfter;
    hide CancelledText;
    if s.thread.batch != [] {
      assert s.thread.batch == [s.thread.batch[0]] + s.thread.batch[1..];
    }
    assert Busy(Effect(s, NextTask).thread) == Busy(s.thread);
  }

  lemma SwapTakesQueue(s: State, l: Label)
    requires Enabled(s, l) && LifecycleInv(s) && (l.SwapTasks? || l.SwapForFailure?)
    ensures Busy(s.thread) == [] && InStop(s.control) == []
    ensures var t := Effect(s, l);
            Busy(t.thread) == s.queue && t.control == s.control && t.queue == []
  {
    hide PhaseAfter, StopRequestedAfter, RequestingAfter, PushingAfter, TasksAfter, ExecutedAfter;
  }

  lemma SwapMovesQueue(s: State, l: Label)
    requires Enabled(s, l) && LifecycleInv(s) && (l.SwapTasks? || l.SwapForFailure?)
    ensures Pending(Effect(s, l)) == Pending(s)
  {
    hide Effect, Enabled, LifecycleInv, Busy, InStop;
    SwapTakesQueue(s, l);
  }

  lemma OldestLeaves(s: State, l: Label, oldest: TaskId)
    requires Enabled(s, l)
    requires l.Complete? || (l.FailOne? && s.thread.batch != [])
    requires oldest == if l.Complete? then s.thread.task else s.thread.batch[0]
    ensures Pending(s) != [] && Pending(s)[0] == oldest && Pending(Effect(s, l)) == Pending(s)[1..]
  {
    hide PhaseAfter, StopRequestedAfter, RequestingAfter, PushingAfter, TasksAfter, ExecutedAfter;
    hide StoppedText, FailedText;
    var busy := Busy(s.thread);
    assert busy[0] == oldest && Busy(Effect(s, l).thread) == busy[1..];
    TailOfConcat(busy, InStop(s.control) + s.queue);
    TailOfConcat(busy, InStop(s.control));
    TailOfConcat(busy + InStop(s.control), s.queue);
  }

  lemma TailOfConcat(a: seq<TaskId>, b: seq<TaskId>)
    requires a != []
    ensures (a + b)[1..] == a[1..] + b && (a + b)[0] == a[0]
  {
  }

  lemma OtherStepPending(s: State, l: Label)
    requires Enabled(s, l) && LifecycleInv(s) && !ServerLabel(l)
    ensures PendingChange(s, l, Pending(Effect(s, l)))
  {
    hide PhaseAfter, StopRequestedAfter, RequestingAfter, PushingAfter, TasksAfter, ExecutedAfter;
  }

  predicate ClosingLabel(l: Label)
  {
    l.CloseNative? || l.SwapForFailure? || l.FailOne? || l.Settle?
  }

  lemma LoopStepLifecycle(s: State, l: Label)
    requires Enabled(s, l) && LifecycleInv(s) && ServerLabel(l) && !ClosingLabel(l)
    ensures LifecycleInv(Effect(s, l))
  {
    hide TasksAfter, ExecutedAfter;
    hide CancelledText;
  }

  lemma ClosingStepLifecycle(s: State, l: Label)
    requires Enabled(s, l) && LifecycleInv(s) && ClosingLabel(l)
    ensures LifecycleInv(Effect(s, l))
  {
    hide TasksAfter, ExecutedAfter;
    hide StoppedText, FailedText;
  }

  lemma ServerStepLifecycle(s: State, l: Label)
    requires Enabled(s, l) && LifecycleInv(s) && ServerLabel(l)
    ensures LifecycleInv(Effect(s, l))
  {
    hide Enabled, Effect, LifecycleInv;
    if ClosingLabel(l) { ClosingStepLifecycle(s, l); } else { LoopStepLifecycle(s, l); }
  }

  lemma ClientStepLifecycle(s: State, l: Label)
    requires Enabled(s, l) && LifecycleInv(s) && !ServerLabel(l) && !ControlLabel(l)
    ensures LifecycleInv(Effect(s, l))
  {
    hide TasksAfter, ExecutedAfter;
  }

  lemma CheckStepLifecycle(s: State, l: Label)
    requires Enabled(s, l) && LifecycleInv(s) && (l.Start? || l.StartCheck? || l.JoinStale? || l.JoinFailed?)
    ensures LifecycleInv(Effect(s, l))
  {
    hide TasksAfter, ExecutedAfter;
  }

  lemma LaunchStepLifecycle(s: State, l: Label)
    requires Enabled(s, l) && LifecycleInv(s) && (l.Launch? || l.StartTimesOut? || l.StartAwakes?)
    ensures LifecycleInv(Effect(s, l))
  {
    hide TasksAfter, ExecutedAfter;
  }

  lemma RequestStepLifecycle(s: State, l: Label)
    requires Enabled(s, l) && LifecycleInv(s) && (l.Stop? || l.StopEnd? || l.Decide?)
    ensures LifecycleInv(Effect(s, l))
  {
    hide TasksAfter, ExecutedAfter;
  }

  lemma JoinedStepLifecycle(s: State, l: Label)
    requires Enabled(s, l) && LifecycleInv(s)
    requires l.JoinStopped? || l.StopSwap? || l.StopFailOne? || l.StopSettle?
    ensures LifecycleInv(Effect(s, l))
  {
    hide TasksAfter, ExecutedAfter;
  }

  lemma ControlStepLifecycle(s: State, l: Label)
    requires Enabled(s, l) && LifecycleInv(s) && ControlLabel(l)
    ensures LifecycleInv(Effect(s, l))
  {
    hide Enabled, Effect, LifecycleInv;
    if l.Start? || l.StartCheck? || l.JoinStale? || l.JoinFailed? {
      CheckStepLifecycle(s, l);
    } else if l.Launch? || l.StartTimesOut? || l.StartAwakes? {
      LaunchStepLifecycle(s, l);
    } else if l.Stop? || l.StopEnd? || l.Decide? {
      RequestStepLifecycle(s, l);
    } else {
      JoinedStepLifecycle(s, l);
    }
  }

  lemma OtherStepLifecycle(s: State, l: Label)
    requires Enabled(s, l) && LifecycleInv(s) && !ServerLabel(l)
    ensures LifecycleInv(Effect(s, l))
  {
    hide Enabled, Effect, LifecycleInv;
    if ControlLabel(l) { ControlStepLifecycle(s, l); } else { ClientStepLifecycle(s, l); }
  }

  // ---------------------------------------------------------- tasks, step by step

  lemma OldestIsUnfinished(s: State)
    requires QueueInv(s) && Pending(s) != []
    ensures Pending(s)[0] < |s.tasks| && !s.tasks[Pending(s)[0]].done
  {
    assert Pending(s)[0] in Pending(s);
  }

  /** A task whose turn comes either starts to execute or was cancelled. */
  lemma TurnOfTask(s: State)
    requires Enabled(s, NextTask) && TasksInv(s) && QueueInv(s) && s.thread.batch != []
    ensures var t := s.thread.batch[0];
            && !s.tasks[t].done && s.tasks[t].runs == 0
            && (s.tasks[t].state == Queued || s.tasks[t].state == Cancelled)
            && TaskOk(s.tasks[t].(state := Executing, runs := 1), true) == (s.tasks[t].state == Queued)
  {
    hide Pending, QueueInv, TasksAfter;
    FirstPending(s);
    OldestIsUnfinished(s);
    assert TaskOk(s.tasks[s.thread.batch[0]], Current(s.thread) == [s.thread.batch[0]]);
  }

  lemma NextTaskKeepsTasks(s: State)
    requires Enabled(s, NextTask) && TasksInv(s) && QueueInv(s)
    ensures TasksInv(Effect(s, NextTask))
  {
    hide PhaseAfter, StopRequestedAfter, ControlAfter, RequestingAfter, QueueAfter, ExecutedAfter, CancelledText,
      QueueInv, Pending;
    if s.thread.batch != [] {
      TurnOfTask(s);
    }
  }

  lemma ReturnKeepsTasks(s: State, l: Label)
    requires Enabled(s, l) && TasksInv(s) && QueueInv(s) && (l.CallbackReturns? || l.Complete?)
    ensures TasksInv(Effect(s, l))
  {
    hide PhaseAfter, StopRequestedAfter, ControlAfter, RequestingAfter, QueueAfter, ExecutedAfter;
    assert Pending(s)[0] == s.thread.task;
    OldestIsUnfinished(s);
  }

  lemma FailKeepsTasks(s: State, l: Label)
    requires Enabled(s, l) && TasksInv(s) && QueueInv(s) && LifecycleInv(s) && (l.FailOne? || l.StopFailOne?)
    ensures TasksInv(Effect(s, l))
  {
    hide PhaseAfter, StopRequestedAfter, ControlAfter, RequestingAfter, QueueAfter, ExecutedAfter;
    hide StoppedText, FailedText, Pending;
    FirstPending(s);
    if Pending(s) != [] { OldestIsUnfinished(s); }
  }

  lemma PushKeepsTasks(s: State, l: Label)
    requires Enabled(s, l) && TasksInv(s) && (l.Push? || l.LockTasks?)
    ensures TasksInv(Effect(s, l))
  {
    hide PhaseAfter, StopRequestedAfter, ControlAfter, RequestingAfter, QueueAfter, ExecutedAfter;
  }

  lemma AnswerKeepsTasks(s: State, l: Label)
    requires Enabled(s, l) && TasksInv(s) && (l.SeesDone? || l.TimesOut?)
    ensures TasksInv(Effect(s, l))
  {
    hide PhaseAfter, StopRequestedAfter, ControlAfter, RequestingAfter, QueueAfter, ExecutedAfter;
  }

  lemma TasksUnwritten(s: State, l: Label)
    requires Enabled(s, l)
    requires !(l.NextTask? || l.CallbackReturns? || l.Complete? || l.FailOne? || l.StopFailOne?)
    requires !(l.Push? || l.SeesDone? || l.TimesOut? || l.LockTasks?)
    ensures TasksAfter(s, l) == s.tasks && PushingAfter(s, l) == s.pushing
  {
  }

  lemma CurrentUnwritten(s: State, l: Label)
    requires Enabled(s, l) && LifecycleInv(s)
    requires !(l.NextTask? || l.CallbackReturns? || l.Complete? || l.FailOne? || l.StopFailOne?)
    ensures Current(ThreadAfter(s, l)) == Current(s.thread)
    ensures ThreadAfter(s, l).Calling? || ThreadAfter(s, l).Completing? ==> ThreadAfter(s, l) == s.thread
    ensures s.thread.Calling? || s.thread.Completing? ==> ThreadAfter(s, l) == s.thread
  {
  }

  /** Every other label leaves the tasks and the current one alone. */
  lemma OtherLabelsKeepTasks(s: State, l: Label)
    requires Enabled(s, l) && TasksInv(s) && LifecycleInv(s)
    requires !(l.NextTask? || l.CallbackReturns? || l.Complete? || l.FailOne? || l.StopFailOne?)
    requires !(l.Push? || l.SeesDone? || l.TimesOut? || l.LockTasks?)
    ensures TasksInv(Effect(s, l))
  {
    hide TaskOk, CompletionOk, Enabled, PhaseAfter, StopRequestedAfter, ThreadAfter, ControlAfter, RequestingAfter,
      PushingAfter, QueueAfter, TasksAfter, ExecutedAfter, LifecycleInv;
    TasksUnwritten(s, l);
    CurrentUnwritten(s, l);
  }

  lemma StepTasks(s: State, l: Label)
    requires Enabled(s, l) && TasksInv(s) && QueueInv(s) && LifecycleInv(s)
    ensures TasksInv(Effect(s, l))
  {
    hide TasksInv, QueueInv, LifecycleInv, Effect, Enabled;
    match l
    case NextTask => NextTaskKeepsTasks(s);
    case CallbackReturns(_) => ReturnKeepsTasks(s, l);
    case Complete => ReturnKeepsTasks(s, l);
    case FailOne => FailKeepsTasks(s, l);
    case StopFailOne => FailKeepsTasks(s, l);
    case Push => PushKeepsTasks(s, l);
    case SeesDone(_) => AnswerKeepsTasks(s, l);
    case TimesOut(_) => AnswerKeepsTasks(s, l);
    case LockTasks(_) => PushKeepsTasks(s, l);
    case _ => OtherLabelsKeepTasks(s, l);
  }

  // ------------------------------------------------------- order and history

  /** How a step changes one task, as far as order and history are concerned. */
  ghost predicate TasksChange(s: State, l: Label, t: State)
  {
    && |t.tasks| == (if l.Push? then |s.tasks| + 1 else |s.tasks|)
    && (l.Push? ==> t.tasks[|s.tasks|].done == false && t.tasks[|s.tasks|].runs == 0)
    && (forall i :: 0 <= i < |s.tasks| ==>
          && (t.tasks[i].done <==> s.tasks[i].done || (Finishes(s, l) && i == Pending(s)[0]))
          && t.tasks[i].runs == s.tasks[i].runs + (if Executes(s, l) && i == Pending(s)[0] then 1 else 0))
    && t.executed == (if Executes(s, l) then s.executed + [Pending(s)[0]] else s.executed)
  }

  ghost predicate Finishes(s: State, l: Label)
  {
    && Pending(s) != []
    && ((l.Complete? && s.thread.Completing?)
        || (l.FailOne? && s.thread.Failing? && s.thread.batch != [])
        || (l.StopFailOne? && s.control.StopFailing? && s.control.batch != []))
  }

  ghost predicate Executes(s: State, l: Label)
  {
    && Pending(s) != []
    && l.NextTask? && s.thread.Draining? && s.thread.batch != []
    && Pending(s)[0] < |s.tasks| && s.tasks[Pending(s)[0]].state == Queued
  }

  lemma FirstPending(s: State)
    ensures s.thread.Completing? || s.thread.Calling? ==> Pending(s) != [] && Pending(s)[0] == s.thread.task
    ensures (s.thread.Draining? || s.thread.Failing?) && s.thread.batch != [] ==>
              Pending(s) != [] && Pending(s)[0] == s.thread.batch[0]
    ensures s.control.StopFailing? && s.control.batch != [] && s.thread.NoThread? ==>
              Pending(s) != [] && Pending(s)[0] == s.control.batch[0]
  {
  }

  lemma StepChangesTasks(s: State, l: Label)
    requires Enabled(s, l) && LifecycleInv(s) && QueueInv(s)
    ensures TasksChange(s, l, Effect(s, l))
  {
    hide CancelledText, StoppedText, FailedText, Pending, Effect, Enabled, Finishes, Executes, QueueInv, LifecycleInv;
    if l.NextTask? {
      NextTaskChangesTasks(s);
    } else if l.Complete? || l.FailOne? || l.StopFailOne? {
      FinishChangesTasks(s, l);
    } else {
      OthersChangeNothing(s, l);
    }
  }

  lemma NextTaskChangesTasks(s: State)
    requires Enabled(s, NextTask)
    ensures TasksChange(s, NextTask, Effect(s, NextTask))
  {
    hide PhaseAfter, StopRequestedAfter, ThreadAfter, ControlAfter, RequestingAfter, PushingAfter, QueueAfter;
    hide CancelledText, Pending;
    FirstPending(s);
  }

  lemma FinishChangesTasks(s: State, l: Label)
    requires Enabled(s, l) && LifecycleInv(s) && (l.Complete? || l.FailOne? || l.StopFailOne?)
    ensures TasksChange(s, l, Effect(s, l))
  {
    hide PhaseAfter, StopRequestedAfter, ThreadAfter, ControlAfter, RequestingAfter, PushingAfter, QueueAfter;
    hide StoppedText, FailedText, Pending;
    FirstPending(s);
  }

  lemma OthersChangeNothing(s: State, l: Label)
    requires Enabled(s, l) && !(l.NextTask? || l.Complete? || l.FailOne? || l.StopFailOne?)
    ensures TasksChange(s, l, Effect(s, l))
  {
    hide PhaseAfter, StopRequestedAfter, ThreadAfter, ControlAfter, RequestingAfter, PushingAfter, QueueAfter;
    hide Pending;
  }

  lemma IncreasingTail(p: seq<TaskId>, bound: nat)
    requires Increasing(p) && Below(p, bound) && p != []
    ensures Increasing(p[1..]) && Below(p[1..], bound)
    ensures forall i :: i in p[1..] <==> i in p && i != p[0]
  {
    assert p == [p[0]] + p[1..];
  }

  lemma IncreasingMore(p: seq<TaskId>, n: nat)
    requires Increasing(p) && Below(p, n)
    ensures Increasing(p + [n]) && Below(p + [n], n + 1) && n !in p
    ensures forall i :: i in p + [n] <==> i in p || i == n
  {
  }

  lemma StepKeepsQueue(s: State, l: Label, t: State)
    requires QueueInv(s) && TasksChange(s, l, t)
    requires Pending(t) == if l.Push? then Pending(s) + [|s.tasks|] else if Finishes(s, l) then Pending(s)[1..] else Pending(s)
    ensures QueueInv(t)
  {
    var p := Pending(s);
    if l.Push? {
      IncreasingMore(p, |s.tasks|);
      assert !Finishes(s, l);
    } else if Finishes(s, l) {
      IncreasingTail(p, |s.tasks|);
    }
    hide Pending, Executes, Finishes, Increasing, Below;
  }

  lemma StepKeepsHistory(s: State, l: Label, t: State)
    requires QueueInv(s) && HistoryInv(s) && TasksInv(s) && TasksChange(s, l, t)
    requires Pending(t) == if l.Push? then Pending(s) + [|s.tasks|] else if Finishes(s, l) then Pending(s)[1..] else Pending(s)
    ensures HistoryInv(t)
  {
    hide Pending, TasksInv, Finishes;
    var p, q := Pending(s), Pending(t);
    if Executes(s, l) {
      NeverExecuted(s, p[0]);
      assert p[0] in p;
    }
    ExecutedInOrder(s, l, t);
    forall e, x | e in t.executed && x in q ensures e <= x {
      if e in s.executed {
        assert x in p || x == |s.tasks|;
        var i :| 0 <= i < |s.executed| && s.executed[i] == e;
      } else {
        assert e == p[0] && x in p;
        var i :| 0 <= i < |p| && p[i] == x;
      }
    }
  }

  lemma ExecutedInOrder(s: State, l: Label, t: State)
    requires QueueInv(s) && HistoryInv(s) && TasksChange(s, l, t)
    requires Executes(s, l) ==> Pending(s)[0] !in s.executed
    ensures Increasing(t.executed) && Below(t.executed, |t.tasks|)
  {
    hide Pending, Finishes;
    assert forall i :: 0 <= i < |s.executed| ==> s.executed[i] in s.executed;
    assert Executes(s, l) ==> Pending(s)[0] in Pending(s);
  }

  lemma NeverExecuted(s: State, t: TaskId)
    requires HistoryInv(s) && TasksInv(s) && t < |s.tasks| && s.tasks[t].state == Queued
    ensures t !in s.executed
  {
    hide Pending;
    assert TaskOk(s.tasks[t], Current(s.thread) == [t]);
  }

  lemma PendingAfter(s: State, l: Label)
    requires Enabled(s, l) && LifecycleInv(s)
    ensures Pending(Effect(s, l)) ==
            if l.Push? then Pending(s) + [|s.tasks|] else if Finishes(s, l) then Pending(s)[1..] else Pending(s)
  {
    hide Pending, Effect;
    if ServerLabel(l) { ServerStepPending(s, l); } else { OtherStepPending(s, l); }
  }

  lemma StepKeepsInv(s: State, l: Label)
    requires Enabled(s, l) && Inv(s)
    ensures Inv(Effect(s, l))
  {
    hide Effect, Enabled, Pending, QueueInv, HistoryInv, TasksInv, LifecycleInv;
    if ServerLabel(l) { ServerStepLifecycle(s, l); } else { OtherStepLifecycle(s, l); }
    StepTasks(s, l);
    PendingAfter(s, l);
    StepChangesTasks(s, l);
    StepKeepsQueue(s, l, Effect(s, l));
    StepKeepsHistory(s, l, Effect(s, l));
  }

  /** The invariants hold in every state of every run. */
  lemma {:induction false} RunKeepsInv(states: seq<State>, i: nat)
    requires Run(states) && i < |states|
    ensures Inv(states[i])
  {
    hide Effect, Enabled;
    if i > 0 {
      RunKeepsInv(states, i - 1);
      assert Next(states[i - 1], states[i - 1 + 1]);
      var l :| Enabled(states[i - 1], l) && states[i] == Effect(states[i - 1], l);
      StepKeepsInv(states[i - 1], l);
    }
  }

  // ------------------------------------------------------------------ theorems

  /** No callback runs twice, and callbacks start in the order in which they were queued. */
  lemma AtMostOnceInOrder(states: seq<State>, i: nat)
    requires Run(states) && i < |states|
    ensures Increasing(states[i].executed)
    ensures forall t :: 0 <= t < |states[i].tasks| ==>
              states[i].tasks[t].runs == if t in states[i].executed then 1 else 0
  {
    RunKeepsInv(states, i);
  }

  /** A task that can never run any more: cancelled by its client, or finished without having run. */
  ghost predicate Dead(s: State, t: TaskId)
  {
    && t < |s.tasks|
    && s.tasks[t].runs == 0
    && (s.tasks[t].done || s.tasks[t].state == Cancelled)
  }

  lemma StepKeepsDead(s: State, l: Label, t: TaskId)
    requires Enabled(s, l) && Inv(s) && Dead(s, t)
    ensures Dead(Effect(s, l), t)
  {
    hide HistoryInv, TasksInv, Pending;
    StepChangesTasks(s, l);
    var after := Effect(s, l);
    assert after.tasks[t].done || after.tasks[t].state == Cancelled by {
      hide TasksChange, QueueInv, LifecycleInv;
      DeadStaysDead(s, l, t);
    }
    if Executes(s, l) && Pending(s)[0] == t {
      OldestIsUnfinished(s);
    }
  }

  lemma DeadStaysDead(s: State, l: Label, t: TaskId)
    requires Enabled(s, l) && t < |s.tasks| && (s.tasks[t].done || s.tasks[t].state == Cancelled)
    ensures var after := Effect(s, l);
            t < |after.tasks| && (after.tasks[t].done || after.tasks[t].state == Cancelled)
  {
    hide PhaseAfter, StopRequestedAfter, ThreadAfter, ControlAfter, RequestingAfter,
      PushingAfter, QueueAfter, ExecutedAfter;
    hide CancelledText, StoppedText, FailedText;
  }

  lemma {:induction false} DeadForever(states: seq<State>, t: TaskId, i: nat, j: nat)
    requires Run(states) && i <= j < |states| && Dead(states[i], t)
    ensures Dead(states[j], t)
  {
    hide Dead, Inv, Effect, Enabled;
    if i < j {
      DeadForever(states, t, i, j - 1);
      RunKeepsInv(states, j - 1);
      assert Next(states[j - 1], states[j - 1 + 1]);
      var l :| Enabled(states[j - 1], l) && states[j] == Effect(states[j - 1], l);
      StepKeepsDead(states[j - 1], l, t);
    }
  }

  /** An invoke that reported a timeout never has its callback run later, not even after a restart. */
  lemma TimedOutNeverRuns(states: seq<State>, t: TaskId, i: nat, j: nat)
    requires Run(states) && i <= j < |states|
    requires t < |states[i].tasks| && states[i].tasks[t].client == TimedOut
    ensures t < |states[j].tasks| && states[j].tasks[t].runs == 0
  {
    RunKeepsInv(states, i);
    assert TaskOk(states[i].tasks[t], Current(states[i].thread) == [t]);
    DeadForever(states, t, i, j);
  }

  /**
    An answered invoke reports true exactly when its callback ran, once, and threw nothing or an
    exception without a text.
   */
  lemma ReportIsExact(states: seq<State>, t: TaskId, i: nat)
    requires Run(states) && i < |states| && t < |states[i].tasks| && states[i].tasks[t].client.Reported?
    ensures var task := states[i].tasks[t];
            task.client.ok <==> task.runs == 1 && (task.thrown.None? || task.thrown.value == "")
  {
    RunKeepsInv(states, i);
    assert TaskOk(states[i].tasks[t], Current(states[i].thread) == [t]);
  }

  /** An invoke that reported false either saw its callback throw, or the callback never runs. */
  lemma FalseMeansThrewOrNeverRuns(states: seq<State>, t: TaskId, i: nat, j: nat)
    requires Run(states) && i <= j < |states| && t < |states[i].tasks|
    requires states[i].tasks[t].client == Reported(false) || states[i].tasks[t].client == TimedOut
    ensures states[i].tasks[t].thrown.Some? || (t < |states[j].tasks| && states[j].tasks[t].runs == 0)
  {
    RunKeepsInv(states, i);
    assert TaskOk(states[i].tasks[t], Current(states[i].thread) == [t]);
    if states[i].tasks[t].thrown.None? {
      DeadForever(states, t, i, j);
    }
  }

  /** A client in its second, untimed wait has its task done or in the hands of the server thread. */
  lemma NeverStranded(states: seq<State>, t: TaskId, i: nat)
    requires Run(states) && i < |states| && t < |states[i].tasks| && states[i].tasks[t].client == SecondWait
    ensures states[i].tasks[t].done || Current(states[i].thread) == [t]
  {
    RunKeepsInv(states, i);
    assert TaskOk(states[i].tasks[t], Current(states[i].thread) == [t]);
  }

  // ----------------------------------------------------------------- lifecycle

  lemma StepStaysHalted(s: State, l: Label)
    requires Enabled(s, l) && s.stopRequested && s.phase != Running
    ensures Effect(s, l).phase != Running
  {
    hide StopRequestedAfter, ThreadAfter, ControlAfter, RequestingAfter, PushingAfter,
      QueueAfter, TasksAfter, ExecutedAfter;
    hide CancelledText, StoppedText, FailedText;
  }

  /** Once a stop request is through, the server is not running again before the next launch. */
  lemma {:induction false} StopIsFinal(states: seq<State>, i: nat, j: nat)
    requires Run(states) && i <= j < |states| && LifecycleFree(states[i])
    requires forall k :: i <= k < j ==> states[k].stopRequested
    requires states[i].stopRequested
    ensures states[j].phase != Running
  {
    hide Effect, Enabled, QueueInv, HistoryInv, TasksInv, Pending;
    RunKeepsInv(states, i);
    if i < j {
      StopIsFinal(states, i, j - 1);
      assert Next(states[j - 1], states[j - 1 + 1]);
      var l :| Enabled(states[j - 1], l) && states[j] == Effect(states[j - 1], l);
      StepStaysHalted(states[j - 1], l);
    }
  }

  /** Only a launch withdraws a stop request. */
  lemma OnlyLaunchWithdraws(s: State, l: Label)
    requires Enabled(s, l) && s.stopRequested && !Effect(s, l).stopRequested
    ensures l == Launch
  {
    hide PhaseAfter, ThreadAfter, ControlAfter, RequestingAfter, PushingAfter, QueueAfter, TasksAfter, ExecutedAfter;
    hide CancelledText, StoppedText, FailedText;
  }

  /** The server thread has no turn of its loop left, once it finds the stop request that is there. */
  predicate OnTheWayOut(thread: Thread)
  {
    match thread
    case Swapping(last) => last
    case Draining(_, last) => last
    case Calling(_, _, last) => last
    case Completing(_, _, _, last) => last
    case Iterating => false
    case Startup => false
    case _ => true
  }

  lemma StepStaysOnTheWayOut(s: State, l: Label)
    requires Enabled(s, l) && LifecycleInv(s) && s.stopRequested && OnTheWayOut(s.thread)
    ensures OnTheWayOut(Effect(s, l).thread) || l == Launch
    ensures Effect(s, l).stopRequested || l == Launch
    ensures s.thread.Checking? ==> Effect(s, l).thread == s.thread || Effect(s, l).thread == Swapping(true)
    ensures s.thread.Draining? && s.thread.batch == [] ==>
              Effect(s, l).thread == s.thread || Effect(s, l).thread == Closing(false)
  {
    hide PhaseAfter, ControlAfter, RequestingAfter, PushingAfter, QueueAfter, TasksAfter, ExecutedAfter;
    hide CancelledText, StoppedText, FailedText;
  }

  lemma {:induction false} StaysOnTheWayOut(states: seq<State>, i: nat, j: nat)
    requires Run(states) && i <= j < |states| && OnTheWayOut(states[i].thread) && states[i].stopRequested
    requires forall k :: i <= k <= j ==> !states[k].thread.Startup?
    ensures OnTheWayOut(states[j].thread) && states[j].stopRequested
  {
    hide Effect, Enabled, OnTheWayOut, QueueInv, HistoryInv, TasksInv, LifecycleInv;
    if i < j {
      RunKeepsInv(states, j - 1);
      StaysOnTheWayOut(states, i, j - 1);
      assert Next(states[j - 1], states[j - 1 + 1]);
      var l :| Enabled(states[j - 1], l) && states[j] == Effect(states[j - 1], l);
      StepStaysOnTheWayOut(states[j - 1], l);
      LaunchStartsUp(states[j - 1], l);
    }
  }

  /**
    A server thread that comes to its loop test while a stop is requested drains once more and
    leaves: until the next launch it never iterates again, and after the drain it closes the server.
   */
  lemma RequestEndsTheLoop(states: seq<State>, i: nat, j: nat)
    requires Run(states) && i <= j < |states| - 1 && states[i].thread.Checking? && states[i].stopRequested
    requires forall k :: i <= k <= j ==> !states[k].thread.Startup?
    ensures !states[j].thread.Iterating?
    ensures states[j].thread.Checking? && states[j + 1].thread != states[j].thread ==>
              states[j + 1].thread == Swapping(true)
    ensures states[j].thread.Draining? && states[j].thread.batch == [] && states[j + 1].thread != states[j].thread ==>
              states[j + 1].thread == Closing(false)
  {
    assert OnTheWayOut(Checking) && !OnTheWayOut(Iterating);
    hide Effect, Enabled, OnTheWayOut, QueueInv, HistoryInv, TasksInv, LifecycleInv;
    StaysOnTheWayOut(states, i, j);
    RunKeepsInv(states, j);
    assert Next(states[j], states[j + 1]);
    var l :| Enabled(states[j], l) && states[j + 1] == Effect(states[j], l);
    StepStaysOnTheWayOut(states[j], l);
  }

  lemma LaunchStartsUp(s: State, l: Label)
    requires Enabled(s, l)
    ensures l == Launch ==> Effect(s, l).thread == Startup
  {
    hide PhaseAfter, StopRequestedAfter, ControlAfter, RequestingAfter, PushingAfter, QueueAfter, TasksAfter,
      ExecutedAfter;
  }

  lemma StepStaysEmptied(s: State, l: Label)
    requires Enabled(s, l) && Emptied(s) && s.phase != Running
    ensures Emptied(Effect(s, l))
  {
    hide PhaseAfter, StopRequestedAfter, ThreadAfter, ControlAfter, RequestingAfter, TasksAfter, ExecutedAfter;
    hide CancelledText, StoppedText, FailedText;
  }

  /** A stopped server has no queued task, and gets none before it is running again. */
  lemma {:induction false} StoppedQueueStaysEmpty(states: seq<State>, i: nat, j: nat)
    requires Run(states) && i <= j < |states| && states[i].phase == Stopped
    requires forall k :: i <= k < j ==> states[k].phase != Running
    ensures Emptied(states[j])
  {
    hide Effect, Enabled, QueueInv, HistoryInv, TasksInv, Pending;
    RunKeepsInv(states, i);
    if i < j {
      StoppedQueueStaysEmpty(states, i, j - 1);
      assert Next(states[j - 1], states[j - 1 + 1]);
      var l :| Enabled(states[j - 1], l) && states[j] == Effect(states[j - 1], l);
      StepStaysEmptied(states[j - 1], l);
    }
  }

  // ------------------------------------------------------- what does not hold

  ghost predicate Reachable(s: State)
  {
    exists states :: Run(states) && states[|states| - 1] == s
  }

  lemma ReachNext(s: State, l: Label)
    requires Reachable(s) && Enabled(s, l)
    ensures Reachable(Effect(s, l))
  {
    hide Enabled, Effect;
    var states :| Run(states) && states[|states| - 1] == s;
    var longer := states + [Effect(s, l)];
    forall i | 0 <= i < |longer| - 1 ensures Next(longer[i], longer[i + 1]) {
      if i < |states| - 1 { assert Next(states[i], states[i + 1]); }
    }
    assert Run(longer);
  }

  const IDLE: State := INITIAL.(phase := Running, thread := Checking)

  lemma InitialIsReachable()
    ensures Reachable(INITIAL)
  {
    assert Run([INITIAL]);
    assert [INITIAL][0] == INITIAL;
  }

  lemma StartupIsReachable()
    ensures Reachable(INITIAL.(phase := Starting, thread := Startup, control := AwaitingStart))
  {
    hide Reachable, CancelledText, StoppedText, FailedText;
    InitialIsReachable();
    ReachNext(INITIAL, Start(true));
    var s1 := INITIAL.(control := StartChecking);
    ReachNext(s1, StartCheck);
    var s2 := INITIAL.(control := Launching);
    ReachNext(s2, Launch);
  }

  lemma IdleIsReachable()
    ensures Reachable(IDLE)
  {
    hide Reachable, CancelledText, StoppedText, FailedText;
    StartupIsReachable();
    ReachNext(INITIAL.(phase := Starting, thread := Startup, control := AwaitingStart), StartupDone);
    ReachNext(IDLE.(control := AwaitingStart), StartAwakes);
  }

  const WAITING: Task := Task(Queued, false, "", FirstWait, 0, None)

  lemma TaskIsQueued()
    ensures Reachable(IDLE.(queue := [0], tasks := [WAITING]))
  {
    hide Reachable, CancelledText, StoppedText, FailedText;
    IdleIsReachable();
    ReachNext(IDLE, LockTasks(FirstWait));
    var pushing := IDLE.(pushing := Some(FirstWait));
    ReachNext(pushing, Push);
    assert QueueAfter(pushing, Push) == [0] && TasksAfter(pushing, Push) == [WAITING];
  }

  /** A client's task, taken from the queue by the server thread. */
  lemma TaskIsTaken()
    ensures Reachable(IDLE.(thread := Draining([0], false), tasks := [WAITING]))
  {
    hide Reachable, CancelledText, StoppedText, FailedText;
    TaskIsQueued();
    var queued := IDLE.(queue := [0], tasks := [WAITING]);
    ReachNext(queued, CheckStop);
    ReachNext(queued.(thread := Swapping(false)), SwapTasks);
  }

  lemma CallIsReachable()
    ensures var ran := WAITING.(state := Executing, runs := 1);
            Reachable(IDLE.(thread := Calling(0, [], false), tasks := [ran], executed := [0]))
  {
    hide Reachable, CancelledText, StoppedText, FailedText;
    TaskIsTaken();
    var taken := IDLE.(thread := Draining([0], false), tasks := [WAITING]);
    ReachNext(taken, NextTask);
    var ran := WAITING.(state := Executing, runs := 1);
    assert taken.thread.batch[1..] == [] && taken.executed + [0] == [0] && taken.tasks[0 := ran] == [ran];
  }

  /** The callback has thrown, and left no text. */
  lemma ThrownIsReachable()
    ensures var threw := WAITING.(state := Executing, runs := 1, thrown := Some(""));
            Reachable(IDLE.(thread := Draining([], false), tasks := [threw.(done := true)], executed := [0]))
  {
    hide Reachable, CancelledText, StoppedText, FailedText;
    CallIsReachable();
    var ran := WAITING.(state := Executing, runs := 1);
    var calling := IDLE.(thread := Calling(0, [], false), tasks := [ran], executed := [0]);
    ReachNext(calling, CallbackReturns(Some("")));
    var threw := ran.(thrown := Some(""));
    assert TasksAfter(calling, CallbackReturns(Some(""))) == [threw];
    var completing := calling.(thread := Completing(0, "", [], false), tasks := [threw]);
    ReachNext(completing, Complete);
    assert completing.tasks[0 := Finished(threw, "")] == [threw.(done := true)];
  }

  /** A callback that throws an exception without a text is reported as a success. */
  lemma SilentThrowReportsTrue()
    ensures exists s :: Reachable(s) && |s.tasks| == 1 && s.tasks[0].thrown.Some? && s.tasks[0].client == Reported(true)
  {
    hide Reachable, CancelledText, StoppedText, FailedText;
    ThrownIsReachable();
    var threw := WAITING.(state := Executing, runs := 1, thrown := Some(""));
    var done := IDLE.(thread := Draining([], false), tasks := [threw.(done := true)], executed := [0]);
    ReachNext(done, SeesDone(0));
    assert Effect(done, SeesDone(0)).tasks == [threw.(done := true, client := Reported(true))];
  }

  lemma IteratingIsReachable()
    ensures Reachable(IDLE.(thread := Iterating))
  {
    hide Reachable, CancelledText, StoppedText, FailedText;
    IdleIsReachable();
    ReachNext(IDLE, CheckStop);
    ReachNext(IDLE.(thread := Swapping(false)), SwapTasks);
    ReachNext(IDLE.(thread := Draining([], false)), NextTask);
  }

  /** After the exception path has emptied the queue, the server still counts as running. */
  lemma SettlingIsReachable()
    ensures Reachable(IDLE.(thread := Settling(true)))
  {
    hide Reachable, CancelledText, StoppedText, FailedText;
    IteratingIsReachable();
    ReachNext(IDLE.(thread := Iterating), IterateReturns(true));
    ReachNext(IDLE.(thread := Closing(true)), CloseNative(false));
    ReachNext(IDLE.(thread := FailSwapping(true)), SwapForFailure);
    ReachNext(IDLE.(thread := Failing([], true)), FailOne);
  }

  lemma LateTaskIsQueued()
    ensures Reachable(IDLE.(thread := Settling(true), queue := [0], tasks := [WAITING]))
  {
    hide Reachable, CancelledText, StoppedText, FailedText;
    SettlingIsReachable();
    var settling := IDLE.(thread := Settling(true));
    ReachNext(settling, LockTasks(FirstWait));
    var pushing := settling.(pushing := Some(FirstWait));
    ReachNext(pushing, Push);
    assert QueueAfter(pushing, Push) == [0] && TasksAfter(pushing, Push) == [WAITING];
  }

  /** A server that failed can be left with a task in its queue. */
  lemma FailedQueueMayHoldTasks()
    ensures exists s :: Reachable(s) && s.phase == Failed && s.queue != []
  {
    hide Reachable, CancelledText, StoppedText, FailedText;
    LateTaskIsQueued();
    var full := IDLE.(thread := Settling(true), queue := [0], tasks := [WAITING]);
    ReachNext(full, Settle);
    assert Effect(full, Settle).queue == [0];
  }
}
