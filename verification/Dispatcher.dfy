/**
  The operation dispatcher and the shutdown of the model as imperative code
  (src/operation_dispatcher.cpp, src/object_model.cpp): each method is one thread's
  sequence of steps of the shutdown protocol, with any steps of other threads in between.
 */
module Dispatcher {
  import opened ShutdownProtocol

  datatype InvokeOutcome =
    | NotConnected
    | GaveUp(call: CallId)
    | Answered(call: CallId)
    | TimeoutReported(call: CallId)
    | StillWaiting(call: CallId)   // timed out after the drain began: waits for the operation

  /** Steps that only the thread of a call takes. */
  predicate OwnLabel(l: Label, k: CallId)
  {
    l == Send(k) || l == EnterWait(k) || l == EarlyReturn(k) || l == Collect(k) || l == TimesOut(k)
    || l == RetainFails(k) || l == SelfDone(k)
  }

  /** Steps that only the thread in shutdown takes. */
  predicate ShutdownLabel(l: Label)
  {
    l.Detach? || l.StartDrain? || l.DrainDone? || l.StopNext? || l.ClearNext? || l.AllCleared?
  }

  /** What the thread of a call sees of others' steps: at most its operation completes. */
  ghost predicate CallRely(s: State, t: State, k: CallId)
  {
    && k < |s.calls| <= |t.calls|
    && (t.calls[k] == s.calls[k]
        || (s.calls[k].operation == InFlight && t.calls[k] == s.calls[k].(operation := Complete)))
  }

  lemma OthersLeaveTheCall(s: State, l: Label, k: CallId)
    requires Enabled(s, l) && !OwnLabel(l, k) && k < |s.calls| && s.calls[k].phase != Retained
    ensures CallRely(s, Effect(s, l), k)
  {
  }

  /** What the shutdown thread sees: the stage is its own, and nothing is opened again. */
  ghost predicate ShutdownRely(s: State, t: State)
  {
    && t.stage == s.stage && t.draining == s.draining
    && (s.closed ==> t.closed)
    && (!s.stage.Open? ==> |t.components| == |s.components|)
  }

  lemma OthersLeaveTheStage(s: State, l: Label)
    requires Enabled(s, l) && !ShutdownLabel(l)
    ensures ShutdownRely(s, Effect(s, l))
  {
  }

  /** The list is walked under its mutex: meanwhile calls neither enter nor leave it, only operations complete. */
  ghost predicate Reaping(s: State, t: State)
  {
    && ShutdownRely(s, t)
    && |t.calls| == |s.calls|
    && forall k :: 0 <= k < |s.calls| ==> ReapedOrKept(s.calls[k], t.calls[k])
  }

  ghost predicate ReapedOrKept(before: Call, after: Call)
  {
    && after.component == before.component && after.waited == before.waited
    && (before.operation == Complete ==> after.operation == Complete)
    && (after.phase == before.phase
        || (before.phase == Retained && after.phase == Finished && after.operation == Complete))
  }

  lemma ReapingStep(s: State, l: Label)
    requires Enabled(s, l) && (l.Reap? || l.Completes?)
    ensures Reaping(s, Effect(s, l))
  {
  }

  lemma ReapingTransitive(s: State, t: State, u: State)
    requires Reaping(s, t) && Reaping(t, u)
    ensures Reaping(s, u)
  {
    forall k | 0 <= k < |s.calls| ensures ReapedOrKept(s.calls[k], u.calls[k]) {
      assert ReapedOrKept(s.calls[k], t.calls[k]) && ReapedOrKept(t.calls[k], u.calls[k]);
    }
  }

  class Dispatcher {
    var s: State

    constructor ()
      ensures s == INITIAL && Inv(s)
    {
      InitialInv();
      s := INITIAL;
    }

    method Step(l: Label)
      requires Inv(s) && Enabled(s, l)
      modifies this
      ensures s == Effect(old(s), l) && Inv(s)
    {
      hide Inv, Effect, Enabled;
      StepKeepsInv(s, l);
      s := Effect(s, l);
    }

    /** Any steps of other threads while the thread of call k is between two of its own. */
    method OthersAct(k: CallId)
      requires Inv(s) && k < |s.calls| && s.calls[k].phase != Retained
      modifies this
      ensures Inv(s) && CallRely(old(s), s, k)
    {
      hide Inv, Effect, Enabled;
      var steps: int := *;
      while steps > 0
        invariant Inv(s) && CallRely(old(s), s, k)
      {
        steps := steps - 1;
        var l: Label := *;
        if !OwnLabel(l, k) && Enabled(s, l) {
          OthersLeaveTheCall(s, l, k);
          Step(l);
        }
      }
    }

    /**
      A remote call. Unless it gives up before its wait loop, its operation is complete once its
      lease is gone, and a timeout leaves the lease in the list or with the waiting thread.
      `waited` is the state in which the wait ends: whether the operation is complete then decides.
     */
    method Invoke(c: ComponentId) returns (outcome: InvokeOutcome, ghost waited: State)
      requires Inv(s)
      modifies this
      ensures Inv(s)
      ensures outcome == NotConnected <==> !old(Admits(s, c))
      ensures !outcome.NotConnected? ==> outcome.call == old(|s.calls|) < |s.calls| && s.calls[outcome.call].component == c
      ensures outcome.GaveUp? <==> !outcome.NotConnected? && !s.calls[outcome.call].waited
      ensures outcome.GaveUp? || outcome.Answered? ==> s.calls[outcome.call].phase == Finished
      ensures !outcome.NotConnected? && !outcome.GaveUp? ==>
                && outcome.call < |waited.calls| && waited.calls[outcome.call].phase == Waiting
                && (outcome.Answered? <==> waited.calls[outcome.call].operation == Complete)
      ensures outcome.Answered? ==> s.calls[outcome.call].operation == Complete
      ensures outcome.TimeoutReported? ==>
                var call := s.calls[outcome.call];
                call.phase == Retained || (call.phase == Finished && call.operation == Complete)
      ensures outcome.StillWaiting? ==>
                && s.calls[outcome.call].phase == SelfWaiting && s.calls[outcome.call].operation != Complete
                && s.components[c].live
    {
      hide Inv;
      waited := s;
      if !Admits(s, c) {
        return NotConnected, waited;
      }
      var k := |s.calls|;
      Step(Acquire(c));
      var waiting := SendOperation(k);
      if !waiting {
        return GaveUp(k), waited;
      }
      OthersAct(k);
      waited := s;
      if s.calls[k].operation == Complete {
        Step(Collect(k));
        return Answered(k), waited;
      }
      outcome := RetainPending(k);
    }

    /** Up to the wait loop: anything that goes wrong here ends the lease, sent or not. */
    method SendOperation(k: CallId) returns (waiting: bool)
      requires Inv(s) && InPhase(s, k, Preparing) && !s.calls[k].waited
      modifies this
      ensures Inv(s) && k < |s.calls| && s.calls[k].component == old(s).calls[k].component
      ensures s.calls[k].waited <==> waiting
      ensures s.calls[k].phase == if waiting then Waiting else Finished
    {
      hide Inv;
      OthersAct(k);
      var prepared: bool := *;
      if !prepared {
        Step(EarlyReturn(k));
        return false;
      }
      Step(Send(k));
      OthersAct(k);
      var collectable: bool := *;
      if !collectable {
        Step(EarlyReturn(k));
        return false;
      }
      Step(EnterWait(k));
      return true;
    }

    /** The list takes the call, unless it is draining or memory is short: then the thread waits itself. */
    method RetainPending(k: CallId) returns (outcome: InvokeOutcome)
      requires Inv(s) && InPhase(s, k, Waiting) && s.calls[k].waited
      modifies this
      ensures Inv(s) && !outcome.NotConnected? && outcome.call == k < |s.calls|
      ensures s.calls[k].component == old(s).calls[k].component && s.calls[k].waited
      ensures outcome.TimeoutReported? || outcome.StillWaiting?
      ensures outcome.TimeoutReported? ==>
                s.calls[k].phase == Retained || (s.calls[k].phase == Finished && s.calls[k].operation == Complete)
      ensures outcome.TimeoutReported? && s.calls[k].phase == Retained ==> !old(s).draining
      ensures outcome.StillWaiting? ==>
                s.calls[k].phase == SelfWaiting && s.calls[k].operation != Complete
                && s.calls[k].component < |s.components|
                && s.components[s.calls[k].component].live
    {
      hide Inv;
      var stored: bool := *;
      Step(if stored then TimesOut(k) else RetainFails(k));
      if s.calls[k].phase == Retained {
        return TimeoutReported(k);
      }
      OthersAct(k);
      if s.calls[k].operation != Complete {
        HolderSeesComponent(s, k);
        return StillWaiting(k);
      }
      Step(SelfDone(k));
      return TimeoutReported(k);
    }

    /** Operations complete while the list's mutex is held. */
    method OperationsComplete()
      requires Inv(s)
      modifies this
      ensures Inv(s) && Reaping(old(s), s)
    {
      hide Inv, Effect, Enabled, Reaping;
      ReapingStart(s);
      var steps: int := *;
      while steps > 0
        invariant Inv(s) && Reaping(old(s), s)
      {
        steps := steps - 1;
        var call: CallId := *;
        if Enabled(s, Completes(call)) {
          ReapingStep(s, Completes(call));
          ReapingTransitive(old(s), s, Effect(s, Completes(call)));
          Step(Completes(call));
        }
      }
    }

    /** reapOnce: every retained call whose operation was complete gives its lease back. */
    method ReapOnce()
      requires Inv(s)
      modifies this
      ensures Inv(s) && Reaping(old(s), s)
      ensures forall k :: 0 <= k < |s.calls| && old(s).calls[k].operation == Complete ==> s.calls[k].phase != Retained
    {
      hide Inv, Effect, Reaping;
      ReapingStart(s);
      for k := 0 to |s.calls|
        invariant Inv(s) && Reaping(old(s), s) && |s.calls| == old(|s.calls|)
        invariant forall j :: 0 <= j < k && old(s).calls[j].operation == Complete ==> s.calls[j].phase != Retained
      {
        ghost var s1 := s;
        OperationsComplete();
        KeptComplete(s1, s, k);
        ReapingTransitive(old(s), s1, s);
        KeptComplete(old(s), s, k);
        var done := s.calls[k].phase == Retained && s.calls[k].operation == Complete;
        if done {
          ghost var s2 := s;
          ReapingStep(s, Reap(k));
          ReapedIsFinished(s, k);
          Step(Reap(k));
          KeptComplete(s2, s, k);
          ReapingTransitive(old(s), s2, s);
        }
      }
    }

    /** Any steps of other threads while the shutdown thread waits. */
    method OthersActDuringShutdown()
      requires Inv(s)
      modifies this
      ensures Inv(s) && ShutdownRely(old(s), s)
    {
      hide Inv, Effect, Enabled;
      var steps: int := *;
      while steps > 0
        invariant Inv(s) && ShutdownRely(old(s), s)
      {
        steps := steps - 1;
        var l: Label := *;
        if !ShutdownLabel(l) && Enabled(s, l) {
          OthersLeaveTheStage(s, l);
          Step(l);
        }
      }
    }

    /**
      drain: returns only when the list is empty, and it stays empty from then on. Going on for
      another round means that a call is still retained.
     */
    method Drain(rounds: nat) returns (drained: bool)
      requires Inv(s) && s.stage == Detached
      modifies this
      ensures Inv(s) && s.draining && |s.components| == old(|s.components|)
      ensures drained ==> s.stage == Deactivating(0, false) && NoneRetained(s.calls)
      ensures !drained ==> s.stage == Draining && (rounds > 0 ==> !NoneRetained(s.calls))
    {
      hide Inv;
      Step(StartDrain);
      for round := 0 to rounds
        invariant Inv(s) && s.stage == Draining && s.draining && |s.components| == old(|s.components|)
        invariant round > 0 ==> !NoneRetained(s.calls)
      {
        OthersActDuringShutdown();
        ReapOnce();
        if NoneRetained(s.calls) {
          Step(DrainDone);
          return true;
        }
      }
      return false;
    }

    /** deactivate: no lease is admitted any more, and the pointer goes when the last one is back. */
    method DeactivateNext() returns (cleared: bool)
      requires Inv(s) && s.stage.Deactivating? && !s.stage.stopped && s.stage.next < |s.components|
      modifies this
      ensures Inv(s) && |s.components| == old(|s.components|)
      ensures cleared ==> s.stage == Deactivating(old(s).stage.next + 1, false) && Cleared(s.components[old(s).stage.next])
      ensures !cleared ==> s.stage == Deactivating(old(s).stage.next, true) && s.components[s.stage.next].users > 0
    {
      hide Inv;
      var c := s.stage.next;
      Step(StopNext);
      OthersActDuringShutdown();
      StoppedIsInactive(s);
      if s.components[c].users > 0 {
        return false;
      }
      Step(ClearNext);
      return true;
    }

    /**
      Shutdown of the model. If it gets through, no component has a user or a pointer, every call
      has given its lease back, and no lease can be taken. It waits only for calls that are retained
      and for components in use.
     */
    method Shutdown(rounds: nat) returns (through: bool)
      requires Inv(s) && s.stage == Open
      modifies this
      ensures Inv(s) && s.closed && |s.components| >= old(|s.components|)
      ensures through <==> s.stage == Done
      ensures !through ==>
                || (s.stage == Draining && (rounds > 0 ==> !NoneRetained(s.calls)))
                || (s.stage.Deactivating? && s.stage.next < |s.components| && s.components[s.stage.next].users > 0)
      ensures through ==> forall c :: 0 <= c < |s.components| ==> Cleared(s.components[c]) && !Admits(s, c)
      ensures through ==> forall k :: 0 <= k < |s.calls| ==> s.calls[k].phase == Finished
    {
      hide Inv, Cleared;
      Step(BeginShutdown);
      Step(Detach);
      var drained := Drain(rounds);
      if !drained {
        DetachedIsClosed(s);
        return false;
      }
      while s.stage.next < |s.components|
        invariant Inv(s) && s.stage.Deactivating? && !s.stage.stopped && s.stage.next <= |s.components|
        invariant |s.components| == old(|s.components|)
        decreases |s.components| - s.stage.next
      {
        var cleared := DeactivateNext();
        if !cleared {
          DetachedIsClosed(s);
          return false;
        }
      }
      Step(AllCleared);
      DetachedIsClosed(s);
      DoneIsClean(s);
      return true;
    }
  }

  lemma ReapingStart(s: State)
    ensures Reaping(s, s)
  {
  }

  lemma KeptComplete(s: State, t: State, k: CallId)
    requires Reaping(s, t) && k < |s.calls|
    ensures |t.calls| == |s.calls|
    ensures s.calls[k].operation == Complete ==> t.calls[k].operation == Complete
    ensures forall j :: 0 <= j < |s.calls| && s.calls[j].phase != Retained ==> t.calls[j].phase != Retained
  {
  }

  lemma ReapedIsFinished(s: State, k: CallId)
    requires Enabled(s, Reap(k))
    ensures k < |Effect(s, Reap(k)).calls| && Effect(s, Reap(k)).calls[k].phase == Finished
  {
  }

  lemma HolderSeesComponent(s: State, k: CallId)
    requires Inv(s) && k < |s.calls| && s.calls[k].phase != Finished
    ensures s.calls[k].component < |s.components| && s.components[s.calls[k].component].live
  {
    assert CallOk(s, s.calls[k]);
  }

  lemma StoppedIsInactive(s: State)
    requires Inv(s) && s.stage.Deactivating? && s.stage.stopped
    ensures s.stage.next < |s.components| && !s.components[s.stage.next].active
  {
  }

  lemma DetachedIsClosed(s: State)
    requires Inv(s) && s.stage != Open
    ensures s.closed
  {
  }
}
