/**
  The proxy's synchronise protocol (src/task_context_proxy.cpp): access, staleness and the
  pause handshake with the pump thread, and what they mean for the samples in the ports.
 */
module Proxy {
  import opened Wrappers
  import opened RemotePort

  datatype SyncOutcome = ThreadSetupFailed | Synchronized | RefusedForSamples | Failed

  /** What a synchronisation meets on its way; `interface` names the ports that are discovered. */
  datatype Environment = Environment(
    threadReady: bool, reachable: bool, readable: bool, connectionLost: bool, interface: seq<Identity>, installs: bool)

  datatype InvokeOutcome = NotReady | InterfaceStale | MadeStale | Returned

  type Adapters = seq<RemotePortAdapter>

  ghost predicate Distinct(ports: Adapters)
  {
    forall i, j :: 0 <= i < j < |ports| ==> ports[i] != ports[j]
  }

  predicate DistinctIdentities(ports: Adapters)
  {
    forall i, j :: 0 <= i < j < |ports| ==> ports[i].identity != ports[j].identity
  }

  ghost predicate AllValid(ports: Adapters)
    reads ports
  {
    forall p :: p in ports ==> p.Valid()
  }

  ghost predicate NoPending(ports: Adapters)
    reads ports
  {
    NothingPending(States(ports))
  }

  ghost predicate NothingPending(states: PortStates)
  {
    forall p :: p in states ==> PendingIn(states[p].slots) == [] && !states[p].tainted
  }

  /** A sample whose write ended the interface waits in a session that is not connected. */
  ghost predicate TaintedOffline(states: PortStates, state: ConnectionState)
  {
    forall p :: p in states && states[p].tainted ==> state != Connected
  }

  /** What an input port counts as delivered are the last samples that the server accepted for it. */
  ghost predicate Acknowledged(states: PortStates, writes: seq<Write>)
  {
    forall p :: p in states && p.identity.input ==>
      IsSuffix(DeliveredIn(states[p].log.settled), AcceptedFor(writes, p.identity))
  }

  /** Writes are in order, and every input port is past those already sent for it. */
  ghost predicate Ordered(states: PortStates, writes: seq<Write>)
  {
    InOrder(writes) && forall p :: p in states && p.identity.input ==> PastAll(p.identity, states[p], writes)
  }

  /** Every pending sample has a port to go to. */
  ghost predicate AllHaveTwins(states: PortStates, replacements: Adapters)
  {
    forall p :: p in states && PendingIn(states[p].slots) != [] ==> HasTwin(replacements, p)
  }

  /** An old port that has no namesake among the new ones has nothing pending, and no taint. */
  ghost predicate NoneAbandoned(olds: Adapters, news: Adapters)
    reads olds
  {
    forall p :: p in olds && !HasTwin(news, p) ==> p.Valid() && PendingIn(p.Held()) == []
  }

  /** Some pending sample is of a port that is not among those discovered. */
  ghost predicate Homeless(states: PortStates, interface: seq<Identity>)
  {
    exists p :: p in states && PendingIn(states[p].slots) != [] && p.identity !in interface
  }

  lemma PendingWithoutTwin(states: PortStates, replacements: Adapters, interface: seq<Identity>)
    requires Offers(replacements, interface)
    ensures AllHaveTwins(states, replacements) <==> !Homeless(states, interface)
    ensures !AllHaveTwins(states, replacements) ==> !NothingPending(states)
  {
    forall p {:trigger HasTwin(replacements, p)} | p in states
      ensures HasTwin(replacements, p) <==> p.identity in interface
    {
    }
  }

  /** The adapters are those of this interface, one for each port. */
  ghost predicate Offers(adapters: Adapters, interface: seq<Identity>)
  {
    && (forall a :: a in adapters ==> a.identity in interface)
    && forall id :: id in interface ==> exists a :: a in adapters && a.identity == id
  }

  lemma NothingPendingIsUntainted(states: PortStates, state: ConnectionState)
    requires NothingPending(states)
    ensures TaintedOffline(states, state)
  {
  }

  /** What the pump and other users of the session may do to a port. */
  ghost predicate Pumped(before: AdapterState, after: AdapterState)
  {
    && before.log.taken <= after.log.taken && before.log.settled <= after.log.settled
    && (forall i :: |before.log.settled| <= i < |after.log.settled| ==> after.log.settled[i].Delivered?)
    && (before.tainted ==> after == before)
  }

  type PortStates = map<RemotePortAdapter, AdapterState>

  ghost function States(ports: Adapters): (states: PortStates)
    reads ports
    ensures states.Keys == set p | p in ports
  {
    map p | p in ports :: p.Contents()
  }

  ghost predicate AllPumped(before: PortStates, after: PortStates)
  {
    before.Keys == after.Keys && forall p :: p in before && p in after ==> Pumped(before[p], after[p])
  }

  lemma TaintedIsOffline(states: PortStates, p: RemotePortAdapter, state: ConnectionState)
    requires TaintedOffline(states, state) && p in states
    ensures states[p].tainted ==> state != Connected
  {
  }

  lemma UntaintedWhenConnected(states: PortStates, state: ConnectionState)
    requires TaintedOffline(states, Connected)
    ensures TaintedOffline(states, state)
  {
  }

  lemma OfflineStaysOffline(states: PortStates, state0: ConnectionState, state: ConnectionState)
    requires TaintedOffline(states, state0) && (state == state0 || state == Stale)
    ensures TaintedOffline(states, state)
  {
  }

  lemma OnePumped(before: PortStates, after: PortStates, p: RemotePortAdapter, state0: ConnectionState, access0: bool,
                  state: ConnectionState, access: bool)
    requires before.Keys == after.Keys && p in before
    requires forall q :: q in before && q != p ==> after[q] == before[q]
    requires PumpedLog(before[p].log, after[p].log) && (before[p].tainted ==> after[p] == before[p])
    requires SessionKept(state0, access0, state, access) && TaintedOffline(before, state0)
    requires after[p].tainted && !before[p].tainted ==> state == Stale
    ensures AllPumped(before, after) && TaintedOffline(after, state)
  {
  }

  lemma OneWrote(before: PortStates, after: PortStates, p: RemotePortAdapter, writes0: seq<Write>, writes: seq<Write>)
    requires before.Keys == after.Keys && p in before
    requires forall q :: q in before && q != p ==> after[q] == before[q] && q.identity != p.identity
    requires if p.identity.input then Wrote(p.identity, before[p], after[p], writes0, writes) else writes == writes0
    requires Acknowledged(before, writes0) && Ordered(before, writes0)
    ensures Acknowledged(after, writes) && Ordered(after, writes)
  {
    hide Wrote, IsSuffix, DeliveredIn, AcceptedFor;
    if p.identity.input {
      WroteKeepsAcknowledged(p.identity, before[p], after[p], writes0, writes);
      WroteKeepsOrder(p.identity, before[p], after[p], writes0, writes);
      forall q | q in after && q.identity.input && q != p ensures PastAll(q.identity, after[q], writes) {
        assert PastAll(q.identity, before[q], writes0);
      }
    }
  }

  lemma DiscardingKeepsOrdered(before: PortStates, after: PortStates, writes: seq<Write>)
    requires AllDiscarded(before, after) && Ordered(before, writes)
    ensures Ordered(after, writes)
  {
    hide PastAll, InOrder;
    forall p | p in after && p.identity.input ensures PastAll(p.identity, after[p], writes) {
      assert DiscardedFrom(before[p], after[p]);
      DiscardingKeepsPast(p.identity, before[p], after[p], writes);
    }
  }

  lemma TwinsStayOrdered(before: PortStates, after: PortStates, writes: seq<Write>)
    requires FromTwins(before, after) && Ordered(before, writes)
    ensures Ordered(after, writes)
  {
    hide InOrder;
    forall a | a in after && a.identity.input ensures PastAll(a.identity, after[a], writes) {
      if after[a] != NOTHING {
        var p :| p in before && p.identity == a.identity;
        assert after[a] == before[p];
      }
    }
  }

  /** In a proxy, no sample is sent again after a write that was accepted or ended the interface. */
  lemma NeverSentAgain(proxy: Proxy, i: nat, j: nat)
    requires proxy.Valid() && i < j < |proxy.session.writes|
    requires proxy.session.writes[i].port == proxy.session.writes[j].port
    ensures var a, b := proxy.session.writes[i], proxy.session.writes[j];
            && a.life <= b.life && (a.life == b.life ==> a.position <= b.position)
            && (a.reply == Threw || a.reply.status == Good || !a.reply.stillConnected
                || a.reply.status in {BadNodeIdInvalid, BadNodeIdUnknown, BadNotFound, BadMethodInvalid,
                                      BadSessionIdInvalid, BadSessionClosed, BadSessionNotActivated,
                                      BadSecureChannelIdInvalid, BadSecureChannelClosed, BadSecureChannelTokenUnknown,
                                      BadConnectionRejected, BadConnectionClosed, BadServerNotConnected,
                                      BadCommunicationError, BadTimeout, BadTypeMismatch, BadInvalidArgument} ==>
                  (a.life, a.position) != (b.life, b.position))
  {
    hide InOrder;
    SettledIsNotResent(proxy.session.writes, i, j);
  }

  lemma DiscardingKeepsAcknowledged(before: PortStates, after: PortStates, writes: seq<Write>)
    requires AllDiscarded(before, after) && Acknowledged(before, writes)
    ensures Acknowledged(after, writes)
  {
    hide IsSuffix, DeliveredIn, AcceptedFor;
    forall p | p in after && p.identity.input
      ensures IsSuffix(DeliveredIn(after[p].log.settled), AcceptedFor(writes, p.identity))
    {
      assert DiscardedFrom(before[p], after[p]);
      if PendingIn(before[p].slots) != [] {
        DeliveredGrows(before[p].log.settled, Discarded(PendingIn(before[p].slots)[0]));
      } else {
        assert after[p].log.settled == before[p].log.settled;
      }
    }
  }

  lemma SameIsPumped(states: PortStates)
    ensures AllPumped(states, states) && AllContinue(states, states)
  {
  }

  lemma DiscardingContinues(a: PortStates, b: PortStates)
    requires AllDiscarded(a, b)
    ensures AllContinue(a, b)
  {
  }

  lemma AllPumpedTransitive(a: PortStates, b: PortStates, c: PortStates)
    requires AllPumped(a, b) && AllPumped(b, c)
    ensures AllPumped(a, c)
  {
  }

  ghost predicate AllDiscarded(before: PortStates, after: PortStates)
  {
    before.Keys == after.Keys && forall p :: p in before && p in after ==> DiscardedFrom(before[p], after[p])
  }

  ghost predicate AllContinue(before: PortStates, after: PortStates)
  {
    before.Keys == after.Keys && forall p :: p in before && p in after ==> Continues(before[p].log, after[p].log)
  }

  ghost predicate AllDelivered(before: PortStates, after: PortStates)
  {
    before.Keys == after.Keys && forall p :: p in before && p in after ==> OnlyDelivered(before[p].log, after[p].log)
  }

  lemma Continuing(a: PortStates, b: PortStates, c: PortStates)
    requires AllContinue(a, b) && (AllContinue(b, c) || AllDiscarded(b, c))
    ensures AllContinue(a, c)
  {
  }

  ghost predicate SameContents(before: PortStates, after: PortStates)
  {
    forall p, a :: p in before && a in after && p.identity == a.identity ==> after[a] == before[p]
  }

  lemma HandOverComplete(before: PortStates, after: PortStates, ports: Adapters, replacements: Adapters)
    requires SameContents(before, after)
    requires forall p :: p in before <==> p in ports
    requires forall a :: a in after <==> a in replacements
    requires AllHaveTwins(before, replacements)
    ensures HandedOver(before, after)
  {
  }

  /** New ports hold what their namesakes held, and whatever was pending has a new port. */
  ghost predicate HandedOver(before: PortStates, after: PortStates)
  {
    && (forall p, a :: p in before && a in after && p.identity == a.identity ==> after[a] == before[p])
    && forall p :: p in before && PendingIn(before[p].slots) != [] ==> exists a :: a in after && a.identity == p.identity
  }

  /** The new port of an identity goes on where the old one stopped. */
  ghost predicate ContinuedIn(before: PortStates, after: PortStates)
  {
    forall p, a :: p in before && a in after && p.identity == a.identity ==> Continues(before[p].log, after[a].log)
  }

  lemma HandedOverContinues(a: PortStates, b: PortStates, c: PortStates)
    requires AllContinue(a, b) && HandedOver(b, c)
    ensures ContinuedIn(a, c)
  {
  }

  lemma PumpingContinues(a: PortStates, b: PortStates)
    requires AllPumped(a, b)
    ensures AllContinue(a, b) && AllDelivered(a, b)
  {
  }

  class Proxy {
    const session: ClientSession
    var ready: bool
    var stale: bool
    var paused: bool
    var pumping: bool
    var ports: Adapters

    constructor (session: ClientSession)
      requires !session.access && session.state == Disconnected && session.writes == []
      ensures this.session == session && Valid() && AtRest() && !ready && !stale && ports == []
    {
      this.session := session;
      ready, stale, paused, pumping, ports := false, false, true, false, [];
    }

    ghost predicate Valid()
      reads this, session, ports
    {
      && Distinct(ports) && DistinctIdentities(ports)
      && AllValid(ports)
      && TaintedOffline(States(ports), session.state)
      && Acknowledged(States(ports), session.writes)
      && Ordered(States(ports), session.writes)
    }

    /** What holds between two control calls. */
    ghost predicate AtRest()
      reads this, session, ports
    {
      && (stale ==> paused && !pumping && !session.access && NoPending(ports))
      && (!ready && !stale ==> ports == [])
      && (ready && !stale && session.state == Connected ==> session.access)
    }

    /** The pump thread and users of the mirrored interface, for a while. */
    method OthersAct()
      requires Valid()
      modifies this`pumping, session, ports
      ensures Valid()
      ensures SessionKept(old(session.state), old(session.access), session.state, session.access)
      ensures AllPumped(old(States(ports)), States(ports))
      ensures paused && !old(pumping) ==> !pumping && States(ports) == old(States(ports))
    {
      hide RemotePortAdapter.Valid, RemotePortAdapter.HasPendingState, AllPumped, Valid, States;
      SameIsPumped(States(ports));
      var steps: int := *;
      while steps > 0
        modifies this`pumping, session, ports
        invariant Valid()
        invariant SessionKept(old(session.state), old(session.access), session.state, session.access)
        invariant AllPumped(old(States(ports)), States(ports))
        invariant paused && !old(pumping) ==> !pumping && States(ports) == old(States(ports))
      {
        steps := steps - 1;
        ghost var before := States(ports);
        OthersStep();
        AllPumpedTransitive(old(States(ports)), before, States(ports));
      }
    }

    /** The pump begins or ends a round, turns to one port, or somebody uses the interface. */
    method OthersStep()
      requires Valid()
      modifies this`pumping, session, ports
      ensures Valid()
      ensures SessionKept(old(session.state), old(session.access), session.state, session.access)
      ensures AllPumped(old(States(ports)), States(ports))
      ensures paused && !old(pumping) ==> !pumping && States(ports) == old(States(ports))
    {
      hide RemotePortAdapter.Valid, RemotePortAdapter.HasPendingState, AllPumped;
      SameIsPumped(States(ports));
      var choice: int := *;
      var i: int := *;
      if choice == 0 && !paused && !pumping {
        pumping := true;
      } else if choice == 1 && pumping {
        pumping := false;
      } else if choice == 2 && pumping && 0 <= i < |ports| {
        PumpPort(i);
      } else if choice == 3 {
        var reply: Reply := *;
        session.UseInterface(reply);
      }
    }

    /** One adapter's turn in pumpPorts. */
    method PumpPort(i: nat)
      requires Valid() && i < |ports|
      modifies session, ports[i]
      ensures Valid()
      ensures SessionKept(old(session.state), old(session.access), session.state, session.access)
      ensures AllPumped(old(States(ports)), States(ports))
    {
      hide Accounted, PendingIn, Samples, Pumped, AllPumped, TaintedOffline, Acknowledged, Ordered, Wrote,
        RemotePortAdapter.Held;
      ghost var before := States(ports);
      var port := ports[i];
      TaintedIsOffline(before, port, session.state);
      var turn: Turn := *;
      port.Pump(session, turn);
      assert forall p :: p in ports && p != port ==> p.Contents() == old(p.Contents());
      OnePumped(before, States(ports), port, old(session.state), old(session.access), session.state, session.access);
      OneWrote(before, States(ports), port, old(session.writes), session.writes);
    }

    /** Time passes between two control calls. */
    method Idle()
      requires Valid() && AtRest()
      modifies this`pumping, session, ports
      ensures Valid() && AtRest()
      ensures AllPumped(old(States(ports)), States(ports))
    {
      hide RemotePortAdapter.Valid, RemotePortAdapter.HasPendingState, RemotePortAdapter.Held, AllValid, Distinct,
        DistinctIdentities, TaintedOffline, States, NothingPending, AllPumped;
      OthersAct();
    }

    /** An operation of the remote component; any failure leaves a stale interface without pending samples. */
    method InvokeOperation(reply: Reply, compatible: bool) returns (outcome: InvokeOutcome)
      requires Valid() && AtRest()
      modifies this`stale, this`paused, this`pumping, session, ports
      ensures Valid() && AtRest()
      ensures outcome == NotReady <==> !ready
      ensures outcome == InterfaceStale <==> ready && old(stale)
      ensures outcome == MadeStale ==> stale && NoPending(ports)
      ensures outcome == Returned <==>
              && ready && !old(stale) && old(session.state) == Connected
              && reply.Answer? && reply.status == Good && compatible
      ensures outcome == Returned ==> !stale && session.state == Connected
      ensures outcome != MadeStale ==> States(ports) == old(States(ports)) && session.state == old(session.state)
    {
      hide RemotePortAdapter.Valid, RemotePortAdapter.HasPendingState, RemotePortAdapter.Held, AllValid, Distinct,
        DistinctIdentities, TaintedOffline, States, NothingPending, AllDiscarded;
      if !ready {
        return NotReady;
      }
      if stale {
        return InterfaceStale;
      }
      ghost var before := session.state;
      var ok := session.CallOperation(reply);
      OfflineStaysOffline(States(ports), before, session.state);
      if !ok || !compatible {
        MarkInterfaceStale();
        return MadeStale;
      }
      return Returned;
    }

    /** Waits until the pump is between two rounds, and keeps it there. */
    method PausePortPump()
      requires Valid()
      modifies this`paused, this`pumping, session, ports
      ensures Valid() && paused && !pumping
      ensures SessionKept(old(session.state), old(session.access), session.state, session.access)
      ensures AllPumped(old(States(ports)), States(ports))
      ensures old(paused) && !old(pumping) ==> States(ports) == old(States(ports))
    {
      hide RemotePortAdapter.Valid, RemotePortAdapter.HasPendingState, RemotePortAdapter.Held, RemotePortAdapter.Contents,
        Pumped, AllPumped, TaintedOffline, Acknowledged, Ordered, AllValid, Distinct, DistinctIdentities, States;
      paused := true;
      OthersAct();
      pumping := false;
    }

    method DiscardPendingPortState()
      requires Valid() && paused && !pumping
      modifies ports
      ensures Valid() && NoPending(ports)
      ensures AllDiscarded(old(States(ports)), States(ports))
    {
      hide Acknowledged, Ordered, Accounted;
      for i := 0 to |ports|
        modifies ports
        invariant Distinct(ports) && AllValid(ports)
        invariant forall k :: 0 <= k < i ==> !ports[k].HasPendingState() && !ports[k].tainted
        invariant forall k :: 0 <= k < i ==> DiscardedFrom(old(ports[k].Contents()), ports[k].Contents())
        invariant forall k :: i <= k < |ports| ==> ports[k].Contents() == old(ports[k].Contents())
      {
        ports[i].DiscardPendingState();
      }
      DiscardingKeepsAcknowledged(old(States(ports)), States(ports), session.writes);
      DiscardingKeepsOrdered(old(States(ports)), States(ports), session.writes);
    }

    method MarkInterfaceStale()
      requires Valid()
      modifies this`stale, this`paused, this`pumping, session, ports
      ensures Valid() && AtRest() && stale
      ensures session.state == old(session.state) || session.state == Stale
      ensures old(paused) && !old(pumping) ==>
                AllDiscarded(old(States(ports)), States(ports))
    {
      hide RemotePortAdapter.Valid, RemotePortAdapter.HasPendingState, RemotePortAdapter.Held, RemotePortAdapter.Contents,
        Accounted, PendingIn, Samples, Pumped, AllPumped, DiscardedFrom, AllDiscarded, States, TaintedOffline,
        Acknowledged, Ordered, AllValid, Distinct, DistinctIdentities, NothingPending;
      stale := true;
      session.SetInterfaceAccessEnabled(false);
      PausePortPump();
      DiscardPendingPortState();
    }

    method MarkInterfaceFresh()
      requires Valid() && session.state == Connected
      modifies this`stale, session`access
      ensures Valid() && !stale && session.access
    {
      hide RemotePortAdapter.Valid, RemotePortAdapter.HasPendingState, RemotePortAdapter.Held, RemotePortAdapter.Contents,
        TaintedOffline, Acknowledged, Ordered, AllValid, Distinct, DistinctIdentities, States;
      session.SetInterfaceAccessEnabled(true);
      stale := false;
    }

    /** Every pending sample needs a replacement port to go to. */
    method CanReplacePortAdapters(replacements: Adapters) returns (ok: bool)
      requires Valid()
      ensures ok <==> AllHaveTwins(States(ports), replacements)
    {
      hide RemotePortAdapter.Valid, HasTwin, Accounted;
      for i := 0 to |ports|
        invariant forall k :: 0 <= k < i && ports[k].HasPendingState() ==> HasTwin(replacements, ports[k])
      {
        if !ports[i].HasPendingState() {
          continue;
        }
        var found := FindTwin(replacements, ports[i]);
        if found.None? {
          assert ports[i] in States(ports);
          return false;
        }
      }
      forall p | p in ports && PendingIn(p.Held()) != [] ensures HasTwin(replacements, p) {
        var k :| 0 <= k < |ports| && ports[k] == p;
      }
      return true;
    }

    /** Moves what is pending to the replacement ports and puts these in place. */
    method ReplacePortAdapters(adapters: Adapters)
      requires Valid() && paused && !pumping
      requires Distinct(adapters) && DistinctIdentities(adapters) && AllValid(adapters)
      requires forall a :: a in adapters ==> a !in ports && a.Contents() == NOTHING
      modifies this`ports, ports, adapters
      ensures Valid() && ports == adapters
      ensures SameContents(old(States(ports)), States(ports))
      ensures AllHaveTwins(old(States(ports)), adapters) ==> NoneAbandoned(old(ports), ports)
    {
      hide RemotePortAdapter.Valid, RemotePortAdapter.HasPendingState, Accounted, PendingIn;
      ghost var before := States(ports);
      HandOverAll(ports, adapters);
      ports := adapters;
      TwinsStayOffline(before, States(adapters), session.state);
      TwinsStayAcknowledged(before, States(adapters), session.writes);
      TwinsStayOrdered(before, States(adapters), session.writes);
    }

    /** A stale interface stays paused. */
    method ResumePortPump()
      modifies this`paused
      ensures stale ==> paused == old(paused)
      ensures !stale ==> !paused
    {
      if stale {
        return;
      }
      paused := false;
    }

    /** Takes access away and pauses the pump: from here on nobody else touches session or ports. */
    method EnterSynchronize()
      requires Valid() && AtRest()
      modifies this`paused, this`pumping, session, ports
      ensures Valid() && paused && !pumping && !session.access
      ensures stale ==> NoPending(ports)
      ensures AllPumped(old(States(ports)), States(ports))
    {
      hide RemotePortAdapter.Valid, RemotePortAdapter.HasPendingState, RemotePortAdapter.Held, Accounted, PendingIn,
        Pumped, AllPumped, States, NothingPending, TaintedOffline, AllValid, DistinctIdentities, Distinct;
      OthersAct();
      ghost var states := States(ports);
      session.SetInterfaceAccessEnabled(false);
      PausePortPump();
      AllPumpedTransitive(old(States(ports)), states, States(ports));
    }

    /** Puts the new ports in place, with what was pending in the old ones. */
    method InstallInterface(staged: Adapters, installs: bool)
      requires Valid() && paused && !pumping && !session.access && session.state == Connected
      requires Distinct(staged) && DistinctIdentities(staged) && AllValid(staged)
      requires forall a :: a in staged ==> a !in ports && a.Contents() == NOTHING
      requires AllHaveTwins(States(ports), staged)
      modifies this`ready, this`stale, this`paused, this`pumping, this`ports, session, ports, staged
      ensures Valid() && AtRest()
      ensures installs ==> ports == staged && ready && !stale && !paused && session.state == Connected && session.access
      ensures installs ==> HandedOver(old(States(ports)), States(ports)) && NoneAbandoned(old(ports), ports)
      ensures !installs ==> stale && ports == old(ports) && AllDiscarded(old(States(ports)), States(ports))
    {
      hide RemotePortAdapter.Valid, RemotePortAdapter.HasPendingState, RemotePortAdapter.Held,
        RemotePortAdapter.Contents,
        AllValid, Distinct, DistinctIdentities, TaintedOffline, States, NothingPending, AllHaveTwins,
        DiscardedFrom, AllDiscarded, HandedOver, SameContents, FromTwins;
      ready := false;
      if !installs {
        MarkInterfaceStale();
        return;
      }
      ghost var before := States(ports);
      ReplacePortAdapters(staged);
      HandOverComplete(before, States(ports), old(ports), ports);
      ready := true;
      MarkInterfaceFresh();
      ResumePortPump();
    }

    /** The part of synchronize from staging on. */
    method StageAndInstall(restorable: bool, env: Environment) returns (outcome: SyncOutcome)
      requires Valid() && paused && !pumping && !session.access && session.state == Connected
      requires (stale ==> NoPending(ports)) && (!ready && !stale ==> ports == [])
      requires (restorable <==> ready && !stale) && (!restorable ==> NoPending(ports))
      modifies this`ready, this`stale, this`paused, this`pumping, this`ports, session, ports
      ensures Valid() && AtRest()
      ensures outcome == Synchronized || outcome == RefusedForSamples || outcome == Failed
      ensures outcome == Failed ==> !env.readable || (!env.installs && !Homeless(old(States(ports)), env.interface))
      ensures outcome == Synchronized ==> env.readable && env.installs && Offers(ports, env.interface)
      ensures outcome == RefusedForSamples <==> env.readable && Homeless(old(States(ports)), env.interface)
      ensures outcome == Synchronized ==> ready && !stale && !paused && session.state == Connected && session.access
      ensures outcome == Synchronized ==>
                HandedOver(old(States(ports)), States(ports)) && NoneAbandoned(old(ports), ports)
      ensures outcome == RefusedForSamples ==>
                && old(ready) && ready && !stale && !old(stale) && !paused && session.state == Connected && session.access
                && ports == old(ports) && !NoPending(ports) && States(ports) == old(States(ports))
      ensures outcome == Failed ==> stale && ports == old(ports) && AllDiscarded(old(States(ports)), States(ports))
    {
      hide RemotePortAdapter.Valid, RemotePortAdapter.HasPendingState, RemotePortAdapter.Held,
        RemotePortAdapter.Contents,
        AllValid, Distinct, DistinctIdentities, TaintedOffline, States, NothingPending, AllHaveTwins,
        DiscardedFrom, AllDiscarded, HandedOver;
      var discovered := session.Discover(env.readable, env.connectionLost);
      UntaintedWhenConnected(States(ports), session.state);
      if !discovered {
        MarkInterfaceStale();
        return Failed;
      }
      var staged := StagePorts(env.interface);
      var accepted := CanReplacePortAdapters(staged);
      PendingWithoutTwin(States(ports), staged, env.interface);
      if !accepted {
        if restorable && session.state == Connected {
          session.SetInterfaceAccessEnabled(true);
        }
        ResumePortPump();
        return RefusedForSamples;
      }
      InstallInterface(staged, env.installs);
      return if env.installs then Synchronized else Failed;
    }

    /**
      Synchronises the mirrored interface. There are only clean outcomes: success; refusal
      over an unacknowledged sample, which leaves the interface and its samples as they were;
      and failure, which leaves a stale interface without pending samples.
     */
    method Synchronize(env: Environment) returns (outcome: SyncOutcome)
      requires Valid() && AtRest()
      modifies this`ready, this`stale, this`paused, this`pumping, this`ports, session, ports
      ensures Valid() && AtRest()
      ensures outcome == Synchronized ==> ready && !stale && !paused && session.state == Connected && session.access
      ensures outcome == RefusedForSamples ==>
                && old(ready) && ready && !stale && !paused && session.state == Connected && session.access
                && ports == old(ports) && !NoPending(ports)
      ensures outcome == Failed ==> stale && paused && !session.access && ports == old(ports) && NoPending(ports)
      ensures outcome == ThreadSetupFailed <==> !env.threadReady
      ensures outcome == Failed ==> !(env.reachable && env.readable && env.installs)
      ensures outcome == Synchronized ==> env.readable && env.installs && Offers(ports, env.interface)
      ensures outcome == RefusedForSamples ==> env.readable && Homeless(States(ports), env.interface)
      ensures outcome == ThreadSetupFailed ==>
                && ready == old(ready) && stale == old(stale) && paused == old(paused)
                && ports == old(ports) && States(ports) == old(States(ports))
      ensures outcome == Synchronized ==>
                ContinuedIn(old(States(ports)), States(ports)) && NoneAbandoned(old(ports), ports)
      ensures outcome != Synchronized ==> AllContinue(old(States(ports)), States(ports))
      ensures outcome == RefusedForSamples ==> AllDelivered(old(States(ports)), States(ports))
    {
      if !env.threadReady {
        return ThreadSetupFailed;
      }
      hide Pumped, DiscardedFrom, AllContinue, AllDiscarded, AllPumped, AllDelivered, HandedOver, ContinuedIn, States;
      ghost var s0 := States(ports);
      EnterSynchronize();
      ghost var s1 := States(ports);
      PumpingContinues(s0, s1);
      var connected, restorable := Reconnect(env.reachable);
      ghost var s2 := States(ports);
      Continuing(s0, s1, s2);
      if !connected {
        MarkInterfaceStale();
        Continuing(s0, s2, States(ports));
        return Failed;
      }
      outcome := StageAndInstall(restorable, env);
      if outcome == Synchronized {
        HandedOverContinues(s0, s2, States(ports));
      } else if outcome == Failed {
        Continuing(s0, s2, States(ports));
      }
    }

    /**
      The part of synchronize between pausing and staging: an interface whose session is gone
      becomes stale, and the session is connected. Returns whether the session is connected,
      and whether the existing interface may be restored.
     */
    method Reconnect(reachable: bool) returns (connected: bool, restorable: bool)
      requires Valid() && paused && !pumping && !session.access
      requires stale ==> NoPending(ports)
      requires !ready && !stale ==> ports == []
      modifies this`stale, this`paused, this`pumping, session, ports
      ensures Valid() && paused && !pumping && !session.access
      ensures connected ==> session.state == Connected
      ensures reachable ==> connected
      ensures restorable <==> ready && !stale && old(session.state) == Connected
      ensures !restorable ==> NoPending(ports)
      ensures restorable ==> !old(stale) && States(ports) == old(States(ports))
      ensures stale ==> NoPending(ports)
      ensures stale || old(!stale)
      ensures AllContinue(old(States(ports)), States(ports))
      ensures !ready && !stale ==> ports == []
      ensures ready && !stale ==> restorable
    {
      hide RemotePortAdapter.Valid, RemotePortAdapter.HasPendingState, Accounted, PendingIn, Samples, Pumped,
        AllPumped, DiscardedFrom, AllDiscarded, AllContinue, Continues;
      var entry := session.state;
      SameIsPumped(States(ports));
      if ready && entry != Connected && !stale {
        MarkInterfaceStale();
        DiscardingContinues(old(States(ports)), States(ports));
      }
      if NothingPending(States(ports)) {
        NothingPendingIsUntainted(States(ports), Connected);
        NothingPendingIsUntainted(States(ports), Disconnected);
      }
      restorable := ready && !stale && entry == Connected;
      if entry != Connected {
        session.Connect(reachable);
        if !reachable {
          return false, restorable;
        }
      }
      return true, restorable;
    }
  }

  /** A log goes on from an earlier one. */
  ghost predicate Continues(before: Log, after: Log)
  {
    before.taken <= after.taken && before.settled <= after.settled
  }

  /** And nothing was discarded in between. */
  ghost predicate OnlyDelivered(before: Log, after: Log)
  {
    && Continues(before, after)
    && forall i :: |before.settled| <= i < |after.settled| ==> after.settled[i].Delivered?
  }

  /** The port adapters of a newly discovered interface; a port's identity is unique in it. */
  method StagePorts(interface: seq<Identity>) returns (adapters: Adapters)
    ensures Distinct(adapters) && DistinctIdentities(adapters) && AllValid(adapters) && Offers(adapters, interface)
    ensures forall a :: a in adapters ==> a.Contents() == NOTHING
    ensures forall i :: 0 <= i < |adapters| ==> fresh(adapters[i])
  {
    hide RemotePortAdapter.Valid;
    adapters := [];
    for k := 0 to |interface|
      modifies {}
      invariant Distinct(adapters) && DistinctIdentities(adapters) && AllValid(adapters)
      invariant Offers(adapters, interface[..k])
      invariant forall a :: a in adapters ==> a.Contents() == NOTHING
      invariant forall i :: 0 <= i < |adapters| ==> fresh(adapters[i])
    {
      var a := new RemotePortAdapter(interface[k]);
      var twin := FindTwin(adapters, a);
      OfferedMore(adapters, interface, k, a);
      if twin.None? {
        assert forall j :: 0 <= j < |adapters| ==> adapters[j] in adapters;
        adapters := adapters + [a];
      }
    }
    assert interface[..|interface|] == interface;
  }

  lemma OfferedMore(adapters: Adapters, interface: seq<Identity>, k: nat, a: RemotePortAdapter)
    requires k < |interface| && Offers(adapters, interface[..k]) && a.identity == interface[k]
    ensures HasTwin(adapters, a) ==> Offers(adapters, interface[..k + 1])
    ensures Offers(adapters + [a], interface[..k + 1])
  {
    var more := interface[..k + 1];
    assert more == interface[..k] + [interface[k]];
    forall id | id in more
      ensures exists b :: b in adapters + [a] && b.identity == id
      ensures HasTwin(adapters, a) ==> exists b :: b in adapters && b.identity == id
    {
      if id == interface[k] {
        assert a in adapters + [a];
      } else {
        var b :| b in adapters && b.identity == id;
        assert b in adapters + [a];
      }
    }
  }

  ghost predicate HasTwin(adapters: Adapters, p: RemotePortAdapter)
  {
    exists a :: a in adapters && a.identity == p.identity
  }

  method FindTwin(adapters: Adapters, p: RemotePortAdapter) returns (found: Option<nat>)
    ensures found.Some? <==> HasTwin(adapters, p)
    ensures found.Some? ==> found.value < |adapters| && adapters[found.value].identity == p.identity
  {
    for j := 0 to |adapters|
      invariant forall k :: 0 <= k < j ==> adapters[k].identity != p.identity
    {
      if adapters[j].identity == p.identity {
        assert adapters[j] in adapters;
        return Some(j);
      }
    }
    return None;
  }

  /** Everything an adapter holds comes from its namesake among the old ones. */
  ghost predicate FromTwins(before: PortStates, after: PortStates)
  {
    && SameContents(before, after)
    && forall a :: a in after && after[a] != NOTHING ==> exists p :: p in before && p.identity == a.identity
  }

  lemma TwinsStayOffline(before: PortStates, after: PortStates, state: ConnectionState)
    requires FromTwins(before, after) && TaintedOffline(before, state)
    ensures TaintedOffline(after, state) && SameContents(before, after)
  {
  }

  lemma TwinsStayAcknowledged(before: PortStates, after: PortStates, writes: seq<Write>)
    requires FromTwins(before, after) && Acknowledged(before, writes)
    ensures Acknowledged(after, writes)
  {
    hide AcceptedFor;
    forall a | a in after && a.identity.input
      ensures IsSuffix(DeliveredIn(after[a].log.settled), AcceptedFor(writes, a.identity))
    {
      if after[a] != NOTHING {
        var p :| p in before && p.identity == a.identity;
        assert after[a] == before[p];
      }
    }
  }

  method HandOverAll(previous: Adapters, adapters: Adapters)
    requires Distinct(previous) && DistinctIdentities(previous) && AllValid(previous)
    requires Distinct(adapters) && DistinctIdentities(adapters) && AllValid(adapters)
    requires forall a :: a in adapters ==> a !in previous && a.Contents() == NOTHING
    modifies previous, adapters
    ensures AllValid(adapters) && FromTwins(old(States(previous)), States(adapters))
    ensures AllValid(previous)
    ensures forall k :: 0 <= k < |previous| && !HasTwin(adapters, previous[k]) ==>
              previous[k].Contents() == old(previous[k].Contents())
  {
    hide RemotePortAdapter.Valid, RemotePortAdapter.HasPendingState, Accounted, PendingIn;
    for i := 0 to |previous|
      modifies previous, adapters
      invariant AllValid(previous) && AllValid(adapters)
      invariant forall k :: i <= k < |previous| ==> previous[k].Contents() == old(previous[k].Contents())
      invariant forall k :: 0 <= k < |previous| && !HasTwin(adapters, previous[k]) ==>
                  previous[k].Contents() == old(previous[k].Contents())
      invariant forall k, j :: 0 <= k < i && 0 <= j < |adapters| && previous[k].identity == adapters[j].identity ==>
                  adapters[j].Contents() == old(previous[k].Contents())
      invariant forall j :: 0 <= j < |adapters| && (forall k :: 0 <= k < i ==> previous[k].identity != adapters[j].identity) ==>
                  adapters[j].Contents() == NOTHING
    {
      HandOver(previous[i], adapters);
    }
    ghost var before, after := old(States(previous)), States(adapters);
    forall p, a | p in before && a in after && p.identity == a.identity ensures after[a] == before[p] {
      var k :| 0 <= k < |previous| && previous[k] == p;
      var j :| 0 <= j < |adapters| && adapters[j] == a;
    }
    forall a | a in after && after[a] != NOTHING ensures exists p :: p in before && p.identity == a.identity {
      var j :| 0 <= j < |adapters| && adapters[j] == a;
      var k :| 0 <= k < |previous| && previous[k].identity == a.identity;
      assert previous[k] in before;
    }
  }

  /** One old adapter's turn: its contents go to the first adapter of the same identity. */
  method HandOver(p: RemotePortAdapter, adapters: Adapters)
    requires p.Valid() && AllValid(adapters) && p !in adapters
    requires Distinct(adapters) && DistinctIdentities(adapters)
    modifies p, adapters
    ensures p.Valid() && AllValid(adapters)
    ensures !HasTwin(adapters, p) ==> p.Contents() == old(p.Contents())
    ensures forall j :: 0 <= j < |adapters| ==>
              adapters[j].Contents() == if adapters[j].identity == p.identity then old(p.Contents())
                                        else old(adapters[j].Contents())
  {
    for j := 0 to |adapters|
      modifies p, adapters
      invariant p.Valid() && AllValid(adapters) && p.Contents() == old(p.Contents())
      invariant forall k :: 0 <= k < |adapters| ==> adapters[k].Contents() == old(adapters[k].Contents())
      invariant forall k :: 0 <= k < j ==> adapters[k].identity != p.identity
    {
      var moved := p.TransferPendingStateTo(adapters[j]);
      if moved {
        assert adapters[j] in adapters;
        return;
      }
    }
  }

  /** What was pending is discarded, and on the record as such. */
  ghost predicate DiscardedFrom(before: AdapterState, after: AdapterState)
  {
    && after.slots == EMPTY_SLOTS && !after.tainted
    && after.log.taken == before.log.taken && after.log.life == before.log.life
    && after.log.settled == before.log.settled + Dropped(before.slots)
  }
}
