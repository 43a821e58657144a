/**
  Remote calls, retained calls and the shutdown of the object model
  (src/operation_dispatcher.cpp, src/object_model.cpp) as a labelled transition system over
  leases. Each step is one mutex-protected block.
 */
module ShutdownProtocol {

  type CallId = nat
  type ComponentId = nat

  /** `live` is the component pointer, `users` the lease count. */
  datatype Component = Component(active: bool, live: bool, users: nat)

  datatype Phase =
    | Preparing      // lease taken, arguments being decoded
    | Sent           // the operation is on its way, outputs being prepared
    | Waiting        // in the wait loop
    | Retained       // timed out; the dispatcher's list holds the lease
    | SelfWaiting    // timed out, but the list takes no more: waits for the operation
    | Finished       // the lease is gone

  datatype Operation = NotSent | InFlight | Complete

  /** `waited` remembers that the call reached its wait loop. */
  datatype Call = Call(component: ComponentId, phase: Phase, operation: Operation, waited: bool)

  datatype Stage = Open | Detached | Draining | Deactivating(next: nat, stopped: bool) | Done

  datatype State = State(closed: bool, stage: Stage, draining: bool, components: seq<Component>, calls: seq<Call>)

  const INITIAL: State := State(false, Open, false, [], [])

  datatype Label =
    | AddComponent
    | Withdraw(component: ComponentId) | ClearWithdrawn(component: ComponentId)
    | Acquire(component: ComponentId)
    | Send(call: CallId) | EnterWait(call: CallId) | EarlyReturn(call: CallId) | Completes(call: CallId)
    | Collect(call: CallId) | TimesOut(call: CallId) | RetainFails(call: CallId)
    | Reap(call: CallId) | SelfDone(call: CallId)
    | BeginShutdown | Detach | StartDrain | DrainDone | StopNext | ClearNext | AllCleared

  predicate InPhase(s: State, c: CallId, phase: Phase)
  {
    c < |s.calls| && s.calls[c].phase == phase
  }

  predicate NoneRetained(calls: seq<Call>)
  {
    forall i :: 0 <= i < |calls| ==> calls[i].phase != Retained
  }

  predicate Admits(s: State, c: ComponentId)
  {
    c < |s.components| && !s.closed && s.components[c].active && s.components[c].live
  }

  predicate Enabled(s: State, l: Label)
  {
    match l
    case AddComponent => s.stage.Open?
    case Withdraw(c) => c < |s.components|
    case ClearWithdrawn(c) => c < |s.components| && !s.components[c].active && s.components[c].users == 0
    case Acquire(c) => Admits(s, c)
    case Send(c) => InPhase(s, c, Preparing)
    case EnterWait(c) => InPhase(s, c, Sent)
    case EarlyReturn(c) => InPhase(s, c, Preparing) || InPhase(s, c, Sent)
    case Completes(c) => c < |s.calls| && s.calls[c].operation == InFlight
    case Collect(c) => InPhase(s, c, Waiting) && s.calls[c].operation == Complete
    case TimesOut(c) => InPhase(s, c, Waiting)
    case RetainFails(c) => InPhase(s, c, Waiting)
    case Reap(c) => InPhase(s, c, Retained) && s.calls[c].operation == Complete
    case SelfDone(c) => InPhase(s, c, SelfWaiting) && s.calls[c].operation == Complete
    case BeginShutdown => true
    case Detach => s.stage.Open? && s.closed
    case StartDrain => s.stage.Detached?
    case DrainDone => s.stage.Draining? && NoneRetained(s.calls)
    case StopNext => s.stage.Deactivating? && !s.stage.stopped && s.stage.next < |s.components|
    case ClearNext =>
      s.stage.Deactivating? && s.stage.stopped && s.stage.next < |s.components| && s.components[s.stage.next].users == 0
    case AllCleared => s.stage.Deactivating? && s.stage.next == |s.components|
  }

  function WithCall(s: State, c: CallId, phase: Phase): State
    requires c < |s.calls|
  {
    s.(calls := s.calls[c := s.calls[c].(phase := phase)])
  }

  /** The lease of a call ends. */
  function Released(s: State, c: CallId): State
    requires c < |s.calls|
  {
    var k := s.calls[c].component;
    var t := WithCall(s, c, Finished);
    if k < |s.components| && s.components[k].users > 0 then
      t.(components := s.components[k := s.components[k].(users := s.components[k].users - 1)])
    else t
  }

  function WithComponent(s: State, c: ComponentId, active: bool, live: bool): State
    requires c < |s.components|
  {
    s.(components := s.components[c := Component(active, live, s.components[c].users)])
  }

  function Effect(s: State, l: Label): State
    requires Enabled(s, l)
  {
    match l
    case AddComponent => s.(components := s.components + [Component(true, true, 0)])
    case Withdraw(c) => WithComponent(s, c, false, s.components[c].live)
    case ClearWithdrawn(c) => WithComponent(s, c, false, false)
    case Acquire(c) =>
      s.(components := s.components[c := s.components[c].(users := s.components[c].users + 1)],
         calls := s.calls + [Call(c, Preparing, NotSent, false)])
    case Send(c) => s.(calls := s.calls[c := s.calls[c].(phase := Sent, operation := InFlight)])
    case EnterWait(c) => s.(calls := s.calls[c := s.calls[c].(phase := Waiting, waited := true)])
    case EarlyReturn(c) => Released(s, c)
    case Completes(c) => s.(calls := s.calls[c := s.calls[c].(operation := Complete)])
    case Collect(c) => Released(s, c)
    case TimesOut(c) => WithCall(s, c, if s.draining then SelfWaiting else Retained)
    case RetainFails(c) => WithCall(s, c, SelfWaiting)
    case Reap(c) => Released(s, c)
    case SelfDone(c) => Released(s, c)
    case BeginShutdown => s.(closed := true)
    case Detach => s.(stage := Detached)
    case StartDrain => s.(stage := Draining, draining := true)
    case DrainDone => s.(stage := Deactivating(0, false))
    case StopNext =>
      WithComponent(s, s.stage.next, false, s.components[s.stage.next].live).(stage := Deactivating(s.stage.next, true))
    case ClearNext =>
      WithComponent(s, s.stage.next, false, false).(stage := Deactivating(s.stage.next + 1, false))
    case AllCleared => s.(stage := Done)
  }

  ghost predicate Next(s: State, t: State)
  {
    exists l :: Enabled(s, l) && t == Effect(s, l)
  }

  ghost predicate Run(states: seq<State>)
  {
    && states != []
    && states[0] == INITIAL
    && forall i :: 0 <= i < |states| - 1 ==> Next(states[i], states[i + 1])
  }

  // ---------------------------------------------------------------- invariants

  /** The leases that hold a component: one for each call that is not finished. */
  function Holding(calls: seq<Call>, c: ComponentId): set<CallId>
  {
    set i | 0 <= i < |calls| && calls[i].phase != Finished && calls[i].component == c
  }

  ghost predicate UsersCounted(s: State)
  {
    forall c :: 0 <= c < |s.components| ==> s.components[c].users == |Holding(s.calls, c)|
  }

  ghost predicate CallOk(s: State, call: Call)
  {
    && call.component < |s.components|
    && (call.phase != Finished ==> s.components[call.component].live)
    && (call.phase == Preparing ==> call.operation == NotSent)
    && (call.phase == Sent ==> call.operation != NotSent)
    && (call.phase == Preparing || call.phase == Sent ==> !call.waited)
    && (call.waited ==> call.operation == Complete || call.phase != Finished)
    && (call.phase == Waiting || call.phase == Retained || call.phase == SelfWaiting ==>
          call.waited && call.operation != NotSent)
  }

  ghost predicate CallsInv(s: State)
  {
    forall i :: 0 <= i < |s.calls| ==> CallOk(s, s.calls[i])
  }

  ghost predicate Cleared(c: Component)
  {
    !c.active && !c.live && c.users == 0
  }

  ghost predicate StageInv(s: State)
  {
    && (!s.stage.Open? ==> s.closed)
    && (s.stage.Draining? || s.stage.Deactivating? || s.stage.Done? ==> s.draining)
    && (s.stage.Deactivating? || s.stage.Done? ==> NoneRetained(s.calls))
    && (s.stage.Deactivating? ==>
          && s.stage.next <= |s.components|
          && (forall c :: 0 <= c < s.stage.next ==> Cleared(s.components[c]))
          && (s.stage.stopped ==> s.stage.next < |s.components| && !s.components[s.stage.next].active))
    && (s.stage.Done? ==> forall c :: 0 <= c < |s.components| ==> Cleared(s.components[c]))
  }

  ghost predicate Inv(s: State)
  {
    UsersCounted(s) && CallsInv(s) && StageInv(s)
  }

  lemma HoldingAfterUpdate(calls: seq<Call>, i: CallId, call: Call, c: ComponentId)
    requires i < |calls| && call.component == calls[i].component
    ensures call.phase == Finished ==> Holding(calls[i := call], c) == Holding(calls, c) - {i}
    ensures calls[i].phase != Finished && call.phase != Finished ==> Holding(calls[i := call], c) == Holding(calls, c)
  {
  }

  lemma HoldingAfterAcquire(calls: seq<Call>, call: Call, c: ComponentId)
    requires call.phase != Finished
    ensures Holding(calls + [call], c) == Holding(calls, c) + (if call.component == c then {|calls|} else {})
    ensures |calls| !in Holding(calls, c)
  {
  }

  lemma ReleaseKeepsCount(s: State, i: CallId)
    requires UsersCounted(s) && CallsInv(s) && i < |s.calls| && s.calls[i].phase != Finished
    ensures UsersCounted(Released(s, i))
    ensures s.components[s.calls[i].component].users > 0
  {
    assert CallOk(s, s.calls[i]);
    var k := s.calls[i].component;
    assert i in Holding(s.calls, k);
    var t := Released(s, i);
    forall c | 0 <= c < |s.components| ensures t.components[c].users == |Holding(t.calls, c)| {
      HoldingAfterUpdate(s.calls, i, s.calls[i].(phase := Finished), c);
    }
  }

  lemma AcquireKeepsCount(s: State, k: ComponentId)
    requires UsersCounted(s) && CallsInv(s) && Enabled(s, Acquire(k))
    ensures UsersCounted(Effect(s, Acquire(k)))
  {
    var t := Effect(s, Acquire(k));
    forall c | 0 <= c < |t.components| ensures t.components[c].users == |Holding(t.calls, c)| {
      HoldingAfterAcquire(s.calls, Call(k, Preparing, NotSent, false), c);
    }
  }

  /** A call moves on but keeps its lease. */
  lemma CallStepsKeepCount(s: State, t: State, i: CallId)
    requires UsersCounted(s) && i < |s.calls| && |t.calls| == |s.calls| && t.components == s.components
    requires t.calls == s.calls[i := t.calls[i]] && t.calls[i].component == s.calls[i].component
    requires s.calls[i].phase == Finished <==> t.calls[i].phase == Finished
    ensures UsersCounted(t)
  {
    forall c | 0 <= c < |t.components| ensures t.components[c].users == |Holding(t.calls, c)| {
      assert Holding(t.calls, c) == Holding(s.calls, c);
    }
  }

  lemma ComponentStepsKeepCount(s: State, t: State)
    requires UsersCounted(s) && CallsInv(s) && t.calls == s.calls && |s.components| <= |t.components|
    requires forall c :: 0 <= c < |t.components| ==>
               t.components[c].users == if c < |s.components| then s.components[c].users else 0
    ensures UsersCounted(t)
  {
    forall c | |s.components| <= c < |t.components| ensures Holding(t.calls, c) == {} {
      assert forall i :: 0 <= i < |s.calls| ==> CallOk(s, s.calls[i]);
    }
  }

  lemma StepKeepsCount(s: State, l: Label)
    requires Inv(s) && Enabled(s, l)
    ensures UsersCounted(Effect(s, l))
  {
    hide UsersCounted, CallsInv, StageInv, Holding;
    if l.EarlyReturn? || l.Collect? || l.Reap? || l.SelfDone? {
      ReleaseKeepsCount(s, l.call);
    } else if l.Acquire? {
      AcquireKeepsCount(s, l.component);
    } else if l.Send? || l.EnterWait? || l.TimesOut? || l.RetainFails? || l.Completes? {
      CallStepsKeepCount(s, Effect(s, l), l.call);
    } else {
      ComponentStepsKeepCount(s, Effect(s, l));
    }
  }

  lemma HeldHasUsers(s: State, i: CallId)
    requires UsersCounted(s) && CallsInv(s) && i < |s.calls|
    ensures s.calls[i].component < |s.components|
    ensures s.calls[i].phase != Finished ==> s.components[s.calls[i].component].users > 0
  {
    assert CallOk(s, s.calls[i]);
    assert s.calls[i].phase != Finished ==> i in Holding(s.calls, s.calls[i].component);
  }

  lemma StepKeepsCalls(s: State, l: Label)
    requires Inv(s) && Enabled(s, l)
    ensures CallsInv(Effect(s, l))
  {
    hide UsersCounted, StageInv, Holding, CallOk, Effect, Enabled;
    var t := Effect(s, l);
    CallsLength(s, l);
    forall i | 0 <= i < |t.calls| ensures CallOk(t, t.calls[i]) {
      if i < |s.calls| {
        HeldHasUsers(s, i);
        StepKeepsCall(s, l, i);
      } else {
        NewCallIsOk(s, l);
      }
    }
  }

  lemma CallsLength(s: State, l: Label)
    requires Enabled(s, l)
    ensures |Effect(s, l).calls| == |s.calls| + (if l.Acquire? then 1 else 0)
  {
  }

  lemma NewCallIsOk(s: State, l: Label)
    requires Enabled(s, l) && l.Acquire?
    ensures CallOk(Effect(s, l), Effect(s, l).calls[|s.calls|])
  {
  }

  lemma ReleasedKeepsCall(s: State, c: CallId, i: CallId)
    requires c < |s.calls| && i < |s.calls| && CallOk(s, s.calls[i])
    requires i == c && s.calls[c].waited ==> s.calls[c].operation == Complete
    ensures |Released(s, c).calls| == |s.calls| && CallOk(Released(s, c), Released(s, c).calls[i])
  {
  }

  lemma ReleaseKeepsCall(s: State, l: Label, i: CallId)
    requires Enabled(s, l) && i < |s.calls| && CallOk(s, s.calls[i])
    requires l.EarlyReturn? || l.Collect? || l.Reap? || l.SelfDone?
    ensures i < |Effect(s, l).calls| && CallOk(Effect(s, l), Effect(s, l).calls[i])
  {
    hide Released;
    ReleasedKeepsCall(s, l.call, i);
  }

  lemma ProgressKeepsCall(s: State, l: Label, i: CallId)
    requires Enabled(s, l) && i < |s.calls| && CallOk(s, s.calls[i])
    requires l.Send? || l.EnterWait? || l.TimesOut? || l.RetainFails? || l.Completes?
    ensures i < |Effect(s, l).calls| && CallOk(Effect(s, l), Effect(s, l).calls[i])
  {
  }

  predicate CallLabel(l: Label)
  {
    l.EarlyReturn? || l.Collect? || l.Reap? || l.SelfDone?
    || l.Send? || l.EnterWait? || l.TimesOut? || l.RetainFails? || l.Completes?
  }

  lemma OtherStepKeepsCall(s: State, l: Label, i: CallId)
    requires Enabled(s, l) && !CallLabel(l) && i < |s.calls| && CallOk(s, s.calls[i])
    requires s.calls[i].phase != Finished ==> s.components[s.calls[i].component].users > 0
    ensures i < |Effect(s, l).calls| && CallOk(Effect(s, l), Effect(s, l).calls[i])
  {
  }

  lemma StepKeepsCall(s: State, l: Label, i: CallId)
    requires Enabled(s, l) && i < |s.calls| && CallOk(s, s.calls[i])
    requires s.calls[i].phase != Finished ==> s.components[s.calls[i].component].users > 0
    ensures i < |Effect(s, l).calls| && CallOk(Effect(s, l), Effect(s, l).calls[i])
  {
    hide CallOk, Effect, Enabled;
    if l.EarlyReturn? || l.Collect? || l.Reap? || l.SelfDone? {
      ReleaseKeepsCall(s, l, i);
    } else if CallLabel(l) {
      ProgressKeepsCall(s, l, i);
    } else {
      OtherStepKeepsCall(s, l, i);
    }
  }

  lemma StepKeepsStage(s: State, l: Label)
    requires Inv(s) && Enabled(s, l)
    ensures StageInv(Effect(s, l))
  {
    hide UsersCounted, CallsInv, Holding;
  }

  lemma StepKeepsInv(s: State, l: Label)
    requires Inv(s) && Enabled(s, l)
    ensures Inv(Effect(s, l))
  {
    hide UsersCounted, CallsInv, StageInv, Effect, Enabled;
    StepKeepsCount(s, l);
    StepKeepsCalls(s, l);
    StepKeepsStage(s, l);
  }

  lemma {:induction false} RunKeepsInv(states: seq<State>, i: nat)
    requires Run(states) && i < |states|
    ensures Inv(states[i])
  {
    hide UsersCounted, CallsInv, StageInv, Effect, Enabled;
    if i > 0 {
      RunKeepsInv(states, i - 1);
      assert Next(states[i - 1], states[i - 1 + 1]);
      var l :| Enabled(states[i - 1], l) && states[i] == Effect(states[i - 1], l);
      StepKeepsInv(states[i - 1], l);
    } else {
      InitialInv();
    }
  }

  lemma InitialInv()
    ensures Inv(INITIAL)
  {
  }

  // ------------------------------------------------------------------ theorems

  /** The user count is the number of live leases, and whoever holds a lease sees the component. */
  lemma LeasesAreCounted(states: seq<State>, i: nat, c: ComponentId)
    requires Run(states) && i < |states| && c < |states[i].components|
    ensures states[i].components[c].users == |Holding(states[i].calls, c)|
    ensures Holding(states[i].calls, c) != {} ==> states[i].components[c].live
  {
    RunKeepsInv(states, i);
    if Holding(states[i].calls, c) != {} {
      var k :| k in Holding(states[i].calls, c);
      assert CallOk(states[i], states[i].calls[k]);
    }
  }

  /** A component outlives every operation whose call has reached its wait loop. */
  lemma WaitedOperationsKeepTheComponent(states: seq<State>, i: nat, k: CallId)
    requires Run(states) && i < |states| && k < |states[i].calls|
    requires states[i].calls[k].waited && states[i].calls[k].operation == InFlight
    ensures states[i].calls[k].component < |states[i].components|
    ensures states[i].components[states[i].calls[k].component].live
  {
    RunKeepsInv(states, i);
    assert CallOk(states[i], states[i].calls[k]);
  }

  /**
    Once shutdown is through, every component has no user and no pointer, no call holds a
    lease or is retained, and no lease can be taken.
   */
  lemma ShutdownIsClean(states: seq<State>, i: nat)
    requires Run(states) && i < |states| && states[i].stage == Done
    ensures forall c :: 0 <= c < |states[i].components| ==>
              Cleared(states[i].components[c]) && !Enabled(states[i], Acquire(c))
    ensures forall k :: 0 <= k < |states[i].calls| ==> states[i].calls[k].phase == Finished
  {
    RunKeepsInv(states, i);
    DoneIsClean(states[i]);
  }

  lemma DoneIsClean(s: State)
    requires Inv(s) && s.stage == Done
    ensures forall c :: 0 <= c < |s.components| ==> Cleared(s.components[c]) && !Enabled(s, Acquire(c))
    ensures forall k :: 0 <= k < |s.calls| ==> s.calls[k].phase == Finished
  {
    forall k | 0 <= k < |s.calls| ensures s.calls[k].phase == Finished {
      HeldHasUsers(s, k);
    }
  }

  /** And it stays that way. */
  lemma {:induction false} ShutdownIsFinal(states: seq<State>, i: nat, j: nat)
    requires Run(states) && i <= j < |states| && states[i].stage == Done
    ensures states[j].stage == Done && |states[j].calls| == |states[i].calls|
  {
    hide Effect, Enabled, Inv;
    if i < j {
      ShutdownIsFinal(states, i, j - 1);
      RunKeepsInv(states, j - 1);
      assert Next(states[j - 1], states[j - 1 + 1]);
      var l :| Enabled(states[j - 1], l) && states[j] == Effect(states[j - 1], l);
      DoneStays(states[j - 1], l);
    }
  }

  lemma DoneStays(s: State, l: Label)
    requires Inv(s) && Enabled(s, l) && s.stage == Done
    ensures Effect(s, l).stage == Done && |Effect(s, l).calls| == |s.calls|
  {
    hide UsersCounted, CallsInv;
  }

  // -------------------------------------------------------- what does not hold

  ghost predicate Reachable(s: State)
  {
    exists states :: Run(states) && states[|states| - 1] == s
  }

  lemma ReachNext(s: State, l: Label)
    requires Reachable(s) && Enabled(s, l)
    ensures Reachable(Effect(s, l))
  {
    hide Enabled, Effect;
    var states :| Run(states) && states[|states| - 1] == s;
    var longer := states + [Effect(s, l)];
    forall i | 0 <= i < |longer| - 1 ensures Next(longer[i], longer[i + 1]) {
      if i < |states| - 1 { assert Next(states[i], states[i + 1]); }
    }
    assert Run(longer);
  }

  /** Exactly the early returns after sending drop a lease whose operation is still on its way. */
  lemma LeaseDroppedInFlight(s: State, l: Label, k: CallId)
    requires Inv(s) && Enabled(s, l) && k < |s.calls| && s.calls[k].phase != Finished
    ensures k < |Effect(s, l).calls|
    ensures Effect(s, l).calls[k].phase == Finished && Effect(s, l).calls[k].operation == InFlight <==>
            l == EarlyReturn(k) && s.calls[k].phase == Sent && s.calls[k].operation == InFlight
  {
    hide UsersCounted, StageInv;
    assert CallOk(s, s.calls[k]);
    if l.EarlyReturn? {
      assert CallOk(s, s.calls[l.call]);
    }
  }

  lemma SentCallIsReachable()
    ensures Reachable(INITIAL.(components := [Component(true, true, 1)], calls := [Call(0, Sent, InFlight, false)]))
  {
    assert Run([INITIAL]);
    assert [INITIAL][0] == INITIAL;
    ReachNext(INITIAL, AddComponent);
    var s1 := INITIAL.(components := [Component(true, true, 0)]);
    ReachNext(s1, Acquire(0));
    var s2 := s1.(components := [Component(true, true, 1)], calls := [Call(0, Preparing, NotSent, false)]);
    assert Effect(s1, Acquire(0)) == s2;
    ReachNext(s2, Send(0));
    assert Effect(s2, Send(0)).calls == [Call(0, Sent, InFlight, false)];
  }

  /** A call that gives up after sending, but before its wait loop, lets the component go too early. */
  lemma EarlyReturnDropsTheLease()
    ensures exists s :: Reachable(s) && |s.calls| == 1 && s.calls[0].operation == InFlight
                        && |s.components| == 1 && s.calls[0].component == 0 && !s.components[0].live
  {
    SentCallIsReachable();
    var s3 := INITIAL.(components := [Component(true, true, 1)], calls := [Call(0, Sent, InFlight, false)]);
    ReachNext(s3, EarlyReturn(0));
    var s4 := INITIAL.(components := [Component(true, true, 0)], calls := [Call(0, Finished, InFlight, false)]);
    assert Effect(s3, EarlyReturn(0)) == s4;
    ShutdownClears(s4);
  }

  /** With nothing in the way, shutdown drains. */
  lemma ShutdownDrains(s: State)
    requires Reachable(s) && s.stage == Open && NoneRetained(s.calls)
    ensures Reachable(s.(closed := true, draining := true, stage := Deactivating(0, false)))
  {
    hide Reachable;
    var s1 := s.(closed := true);
    ReachNext(s, BeginShutdown);
    var s2 := s1.(stage := Detached);
    ReachNext(s1, Detach);
    var s3 := s2.(stage := Draining, draining := true);
    ReachNext(s2, StartDrain);
    ReachNext(s3, DrainDone);
  }

  /** And clears the only component. */
  lemma ShutdownClears(s: State)
    requires Reachable(s) && s.stage == Open && s.components == [Component(true, true, 0)]
    requires s.calls == [Call(0, Finished, InFlight, false)]
    ensures exists t :: Reachable(t) && t.calls == s.calls && t.components == [Component(false, false, 0)]
  {
    hide Reachable;
    ShutdownDrains(s);
    var s4 := s.(closed := true, draining := true, stage := Deactivating(0, false));
    var s5 := s4.(components := [Component(false, true, 0)], stage := Deactivating(0, true));
    ReachNext(s4, StopNext);
    assert Effect(s4, StopNext) == s5;
    var s6 := s5.(components := [Component(false, false, 0)], stage := Deactivating(1, false));
    ReachNext(s5, ClearNext);
    assert Effect(s5, ClearNext) == s6;
  }
}
