/**
  The server's threads (src/server.cpp) as a labelled transition system. A step is one
  mutex-protected block or one atomic access; where other threads can look into a block at
  its atomics, it is split. Tasks are numbered in the order in which they were queued, and
  ghost fields record how often each has run.
 */
module ServerProtocol {
  import opened Wrappers

  type TaskId = nat

  datatype ServerState = Stopped | Starting | Running | Stopping | Failed

  datatype TaskState = Queued | Executing | Cancelled

  /** The thread that waits in invoke, if the task has one. */
  datatype Client = Detached | FirstWait | SecondWait | TimedOut | Reported(ok: bool)

  /** `thrown` is the text of the exception that ended the callback, if one did. */
  datatype Task =
    Task(state: TaskState, done: bool, error: string, client: Client, runs: nat, thrown: Option<string>)

  /** The error text that drainTasks keeps of a callback. */
  function ErrorOf(thrown: Option<string>): string
  {
    if thrown.Some? then thrown.value else ""
  }

  /** Where the server thread is in `run`; `failed` marks the exception path. */
  datatype Thread =
    | NoThread
    | Startup
    | Checking
    | Swapping(last: bool)
    | Draining(batch: seq<TaskId>, last: bool)
    | Calling(task: TaskId, batch: seq<TaskId>, last: bool)
    | Completing(task: TaskId, error: string, batch: seq<TaskId>, last: bool)
    | Iterating
    | Closing(failed: bool)
    | FailSwapping(failed: bool)
    | Failing(batch: seq<TaskId>, failed: bool)
    | Settling(failed: bool)
    | Exited

  /** The holder of the transition mutex, in `start` or `stop`. */
  datatype Control =
    | Free
    | StartChecking
    | JoiningStale
    | Launching
    | AwaitingStart
    | JoiningFailed
    | StopRequested
    | StopDeciding
    | JoiningStopped
    | StopSwapping
    | StopFailing(batch: seq<TaskId>)
    | StopSettling

  datatype State = State(
    phase: ServerState, stopRequested: bool, thread: Thread, control: Control,
    requesting: bool,          // another thread is inside requestStop
    pushing: Option<Client>,   // a client holds the tasks mutex and has seen the server running
    queue: seq<TaskId>, tasks: seq<Task>, executed: seq<TaskId>)

  const INITIAL: State := State(Stopped, false, NoThread, Free, false, None, [], [], [])

  function CancelledText(): (text: string)
    ensures text != ""
  {
    "OPC UA server task cancelled"
  }

  function StoppedText(): (text: string)
    ensures text != ""
  {
    "OPC UA server stopped"
  }

  function FailedText(): (text: string)
    ensures text != ""
  {
    "OPC UA server failed"
  }

  datatype Label =
    // any thread
    | RequestStop | RequestStopEnd
    | LockTasks(client: Client) | Push
    | SeesDone(task: TaskId) | TimesOut(task: TaskId)
    // the server thread
    | StartupFails | StartupDone | CheckStop | SwapTasks | NextTask | CallbackReturns(thrown: Option<string>)
    | Complete | IterateReturns(throws: bool) | CloseNative(throws: bool) | SwapForFailure | FailOne | Settle
    // start and stop
    | Start(validOptions: bool) | StartCheck | JoinStale | Launch | StartTimesOut | StartAwakes | JoinFailed
    | Stop | StopEnd | Decide(onServerThread: bool) | JoinStopped | StopSwap | StopFailOne | StopSettle

  predicate ServerLabel(l: Label)
  {
    l.StartupFails? || l.StartupDone? || l.CheckStop? || l.SwapTasks? || l.NextTask? || l.CallbackReturns? || l.Complete?
    || l.IterateReturns? || l.CloseNative? || l.SwapForFailure? || l.FailOne? || l.Settle?
  }

  predicate ControlLabel(l: Label)
  {
    l.Start? || l.StartCheck? || l.JoinStale? || l.Launch? || l.StartTimesOut? || l.StartAwakes? || l.JoinFailed?
    || l.Stop? || l.StopEnd? || l.Decide? || l.JoinStopped? || l.StopSwap? || l.StopFailOne? || l.StopSettle?
  }

  predicate LifecycleFree(s: State)
  {
    !s.requesting && !s.control.StopRequested?
  }

  predicate HasNext(batch: seq<TaskId>, s: State)
  {
    batch != [] && batch[0] < |s.tasks|
  }

  predicate Enabled(s: State, l: Label)
  {
    match l
    case RequestStop => LifecycleFree(s)
    case RequestStopEnd => s.requesting
    case LockTasks(client) => s.pushing.None? && s.phase == Running && (client == Detached || client == FirstWait)
    case Push => s.pushing.Some?
    case SeesDone(t) => t < |s.tasks| && s.tasks[t].done && (s.tasks[t].client.FirstWait? || s.tasks[t].client.SecondWait?)
    case TimesOut(t) => t < |s.tasks| && !s.tasks[t].done && s.tasks[t].client.FirstWait?
    case StartupFails => s.thread.Startup?
    case StartupDone => s.thread.Startup? && LifecycleFree(s)
    case CheckStop => s.thread.Checking?
    case SwapTasks => s.thread.Swapping? && s.pushing.None?
    case NextTask => s.thread.Draining? && (s.thread.batch == [] || HasNext(s.thread.batch, s))
    case CallbackReturns(_) => s.thread.Calling? && s.thread.task < |s.tasks|
    case Complete => s.thread.Completing? && s.thread.task < |s.tasks|
    case IterateReturns(_) => s.thread.Iterating?
    case CloseNative(throws) => s.thread.Closing? && if throws then !s.thread.failed else LifecycleFree(s)
    case SwapForFailure => s.thread.FailSwapping? && s.pushing.None?
    case FailOne => s.thread.Failing? && (s.thread.batch == [] || HasNext(s.thread.batch, s))
    case Settle => s.thread.Settling? && (s.thread.failed ==> LifecycleFree(s))
    case Start(valid) => s.control.Free? && (!valid ==> LifecycleFree(s) && s.thread.NoThread?)
    case StartCheck => s.control.StartChecking? && LifecycleFree(s)
    case JoinStale => s.control.JoiningStale? && s.thread.Exited?
    case Launch => s.control.Launching? && LifecycleFree(s)
    case StartTimesOut => s.control.AwaitingStart? && LifecycleFree(s) && s.phase == Starting
    case StartAwakes => s.control.AwaitingStart? && LifecycleFree(s) && s.phase != Starting
    case JoinFailed => s.control.JoiningFailed? && s.thread.Exited?
    case Stop => s.control.Free? && LifecycleFree(s)
    case StopEnd => s.control.StopRequested?
    case Decide(_) => s.control.StopDeciding? && LifecycleFree(s)
    case JoinStopped => s.control.JoiningStopped? && s.thread.Exited?
    case StopSwap => s.control.StopSwapping? && s.pushing.None?
    case StopFailOne => s.control.StopFailing? && (s.control.batch == [] || HasNext(s.control.batch, s))
    case StopSettle => s.control.StopSettling?
  }

  function Requested(s: State): ServerState
  {
    if s.phase == Running || s.phase == Starting then Stopping else s.phase
  }

  function Finished(t: Task, error: string): Task
  {
    t.(done := true, error := error)
  }

  // What each step writes, one shared variable after the other.

  function PhaseAfter(s: State, l: Label): ServerState
    requires Enabled(s, l)
  {
    match l
    case RequestStopEnd => Requested(s)
    case StartupDone => if s.stopRequested then s.phase else Running
    case Settle => if s.thread.failed then Failed else Stopped
    case Start(valid) => if valid then s.phase else Failed
    case Launch => Starting
    case StartTimesOut => Failed
    case StopEnd => Requested(s)
    case Decide(_) => Requested(s)
    case StopSettle => Stopped
    case _ => s.phase
  }

  /** `stop` finds nothing to stop. */
  predicate NothingToStop(s: State)
  {
    s.phase == Stopped && s.thread.NoThread?
  }

  function StopRequestedAfter(s: State, l: Label): bool
  {
    match l
    case RequestStop => true
    case Launch => false
    case StartTimesOut => true
    case Stop => true
    case Decide(_) => s.stopRequested || !NothingToStop(s)
    case _ => s.stopRequested
  }

  function ThreadAfter(s: State, l: Label): Thread
    requires Enabled(s, l)
  {
    match l
    case StartupFails => Closing(true)
    case StartupDone => Checking
    case CheckStop => Swapping(s.stopRequested)
    case SwapTasks => Draining(s.queue, s.thread.last)
    case NextTask =>
      if s.thread.batch == [] then if s.thread.last then Closing(false) else Iterating
      else
        var t, rest := s.thread.batch[0], s.thread.batch[1..];
        if s.tasks[t].state == Queued then Calling(t, rest, s.thread.last)
        else Completing(t, CancelledText(), rest, s.thread.last)
    case CallbackReturns(thrown) => Completing(s.thread.task, ErrorOf(thrown), s.thread.batch, s.thread.last)
    case Complete => Draining(s.thread.batch, s.thread.last)
    case IterateReturns(throws) => if throws then Closing(true) else Checking
    case CloseNative(throws) => if throws then Closing(true) else FailSwapping(s.thread.failed)
    case SwapForFailure => Failing(s.queue, s.thread.failed)
    case FailOne => if s.thread.batch == [] then Settling(s.thread.failed) else Failing(s.thread.batch[1..], s.thread.failed)
    case Settle => Exited
    case JoinStale => NoThread
    case Launch => Startup
    case JoinFailed => NoThread
    case JoinStopped => NoThread
    case _ => s.thread
  }

  function ControlAfter(s: State, l: Label): Control
    requires Enabled(s, l)
  {
    match l
    case Start(valid) => if valid then StartChecking else s.control
    case StartCheck => if s.phase == Running then Free else if s.thread.NoThread? then Launching else JoiningStale
    case JoinStale => Launching
    case Launch => AwaitingStart
    case StartTimesOut => JoiningFailed
    case StartAwakes => if s.phase == Running then Free else JoiningFailed
    case JoinFailed => Free
    case Stop => StopRequested
    case StopEnd => StopDeciding
    case Decide(onServerThread) =>
      if NothingToStop(s) || onServerThread then Free else if s.thread.NoThread? then StopSwapping else JoiningStopped
    case JoinStopped => StopSwapping
    case StopSwap => StopFailing(s.queue)
    case StopFailOne => if s.control.batch == [] then StopSettling else StopFailing(s.control.batch[1..])
    case StopSettle => Free
    case _ => s.control
  }

  function RequestingAfter(s: State, l: Label): bool
  {
    match l
    case RequestStop => true
    case RequestStopEnd => false
    case _ => s.requesting
  }

  function PushingAfter(s: State, l: Label): Option<Client>
  {
    match l
    case LockTasks(client) => Some(client)
    case Push => None
    case _ => s.pushing
  }

  function QueueAfter(s: State, l: Label): seq<TaskId>
  {
    match l
    case Push => s.queue + [|s.tasks|]
    case SwapTasks => []
    case SwapForFailure => []
    case StopSwap => []
    case _ => s.queue
  }

  function TasksAfter(s: State, l: Label): seq<Task>
    requires Enabled(s, l)
  {
    match l
    case Push => s.tasks + [Task(Queued, false, "", s.pushing.value, 0, None)]
    case SeesDone(t) => s.tasks[t := s.tasks[t].(client := Reported(s.tasks[t].error == ""))]
    case TimesOut(t) =>
      var task := s.tasks[t];
      s.tasks[t := if task.state == Queued then task.(state := Cancelled, client := TimedOut)
                   else task.(client := SecondWait)]
    case NextTask =>
      if s.thread.batch == [] || s.tasks[s.thread.batch[0]].state != Queued then s.tasks
      else
        var t := s.thread.batch[0];
        s.tasks[t := s.tasks[t].(state := Executing, runs := s.tasks[t].runs + 1)]
    case CallbackReturns(thrown) => s.tasks[s.thread.task := s.tasks[s.thread.task].(thrown := thrown)]
    case Complete => s.tasks[s.thread.task := Finished(s.tasks[s.thread.task], s.thread.error)]
    case FailOne =>
      if s.thread.batch == [] then s.tasks
      else
        var t := s.thread.batch[0];
        s.tasks[t := Finished(s.tasks[t], if s.thread.failed then FailedText() else StoppedText())]
    case StopFailOne =>
      if s.control.batch == [] then s.tasks
      else s.tasks[s.control.batch[0] := Finished(s.tasks[s.control.batch[0]], StoppedText())]
    case _ => s.tasks
  }

  function ExecutedAfter(s: State, l: Label): seq<TaskId>
    requires Enabled(s, l)
  {
    match l
    case NextTask =>
      if s.thread.batch == [] || s.tasks[s.thread.batch[0]].state != Queued then s.executed
      else s.executed + [s.thread.batch[0]]
    case _ => s.executed
  }

  function Effect(s: State, l: Label): State
    requires Enabled(s, l)
  {
    State(PhaseAfter(s, l), StopRequestedAfter(s, l), ThreadAfter(s, l), ControlAfter(s, l), RequestingAfter(s, l),
          PushingAfter(s, l), QueueAfter(s, l), TasksAfter(s, l), ExecutedAfter(s, l))
  }

  ghost predicate Next(s: State, t: State)
  {
    exists l :: Enabled(s, l) && t == Effect(s, l)
  }

  ghost predicate Run(states: seq<State>)
  {
    && states != []
    && states[0] == INITIAL
    && forall i :: 0 <= i < |states| - 1 ==> Next(states[i], states[i + 1])
  }
}
