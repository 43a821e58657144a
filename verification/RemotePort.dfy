/**
  A client session's access state (src/client_session.cpp) and a proxy's port adapters
  (src/remote_port.cpp). Ghost logs record which samples an adapter took and what became of
  each, so that losing or repeating one shows.
 */
module RemotePort {
  import opened Wrappers

  type Sample = int

  datatype ConnectionState = Disconnected | Connecting | Connected | Stale

  /** The status codes that the session tells apart. */
  datatype StatusCode =
    | Good
    | BadNodeIdInvalid | BadNodeIdUnknown | BadNotFound | BadMethodInvalid | BadSessionIdInvalid | BadSessionClosed
    | BadSessionNotActivated | BadSecureChannelIdInvalid | BadSecureChannelClosed | BadSecureChannelTokenUnknown
    | BadConnectionRejected | BadConnectionClosed | BadServerNotConnected | BadNotConnected | BadCommunicationError
    | BadTimeout | BadTypeMismatch | BadInvalidArgument
    | BadWaitingForInitialData | BadOther

  /** The statuses after which the mirrored interface cannot be trusted. */
  predicate InvalidatesInterface(status: StatusCode): (invalidates: bool)
    ensures invalidates <==>
            status in {BadNodeIdInvalid, BadNodeIdUnknown, BadNotFound, BadMethodInvalid, BadSessionIdInvalid,
                       BadSessionClosed, BadSessionNotActivated, BadSecureChannelIdInvalid, BadSecureChannelClosed,
                       BadSecureChannelTokenUnknown, BadConnectionRejected, BadConnectionClosed, BadServerNotConnected,
                       BadNotConnected, BadCommunicationError, BadTimeout, BadTypeMismatch, BadInvalidArgument}
  {
    !(status.Good? || status.BadWaitingForInitialData? || status.BadOther?)
  }

  /** What the server makes of a request: an answer, or an exception in the client library. */
  datatype Reply = Answer(status: StatusCode, stillConnected: bool) | Threw

  /** A port request may meet an inactive component without the interface being gone. */
  predicate EndsInterface(reply: Reply)
  {
    match reply
    case Threw => true
    case Answer(status, stillConnected) =>
      status != Good && ((status != BadNotConnected && InvalidatesInterface(status)) || !stillConnected)
  }

  /** Any other request takes an inactive component for the end of the interface, too. */
  predicate EndsCalls(reply: Reply)
  {
    match reply
    case Threw => true
    case Answer(status, stillConnected) => status != Good && (InvalidatesInterface(status) || !stillConnected)
  }

  datatype WriteOutcome = NotAttempted | Accepted | Refused | Invalidated

  datatype ReadOutcome = NoAccess | Waiting | ReadFailed | Value(sample: Sample)

  /** Requests leave the session as it is or, if they could reach the server, end the interface. */
  predicate SessionKept(state0: ConnectionState, access0: bool, state: ConnectionState, access: bool)
  {
    (state == state0 && access == access0) || (state0 == Connected && access0 && state == Stale && !access)
  }

  /**
    A sample sent to the server for a port, and the answer. `position` is the sample's place
    among those taken in one log, `life` tells the logs of a port apart.
   */
  datatype Write = Write(port: Identity, sample: Sample, reply: Reply, life: nat, position: nat)
  {
    function Outcome(): WriteOutcome
    {
      if EndsInterface(reply) then Invalidated else if reply.status == Good then Accepted else Refused
    }
  }

  class ClientSession {
    var state: ConnectionState
    var access: bool
    /** Every write that was sent to the server. */
    ghost var writes: seq<Write>

    constructor ()
      ensures state == Disconnected && !access && writes == []
    {
      state, access, writes := Disconnected, false, [];
    }

    predicate Usable()
      reads this
    {
      access && state == Connected
    }

    method InvalidateInterface()
      modifies this`state, this`access
      ensures state == Stale && !access
    {
      access, state := false, Stale;
    }

    /** writePortValue: attempted only with access, and the end of access when the interface is gone. */
    method WritePortValue(port: Identity, sample: Sample, reply: Reply, ghost life: nat, ghost position: nat)
      returns (outcome: WriteOutcome)
      modifies this
      ensures outcome == NotAttempted <==> !old(access) || old(state) != Connected
      ensures outcome == Accepted <==>
              old(access) && old(state) == Connected && reply.Answer? && reply.status == Good
      ensures outcome == Invalidated <==>
              && old(access) && old(state) == Connected
              && (reply.Threw? || (reply.status != Good
                                   && (!reply.stillConnected || (InvalidatesInterface(reply.status)
                                                                 && reply.status != BadNotConnected))))
      ensures writes == old(writes)
              + (if outcome == NotAttempted then [] else [Write(port, sample, reply, life, position)])
      ensures outcome != NotAttempted ==> outcome == writes[|old(writes)|].Outcome()
      ensures outcome == Invalidated ==> state == Stale && !access
      ensures outcome != Invalidated ==> state == old(state) && access == old(access)
      ensures SessionKept(old(state), old(access), state, access)
    {
      if !access || state != Connected {
        return NotAttempted;
      }
      match reply {
        case Threw =>
          InvalidateInterface();
          outcome := Invalidated;
        case Answer(status, stillConnected) =>
          if status == Good {
            outcome := Accepted;
          } else if (status != BadNotConnected && InvalidatesInterface(status)) || !stillConnected {
            InvalidateInterface();
            outcome := Invalidated;
          } else {
            outcome := Refused;
          }
      }
      writes := writes + [Write(port, sample, reply, life, position)];
    }

    method ReadPortValue(reply: Reply, sample: Sample) returns (outcome: ReadOutcome)
      modifies this`state, this`access
      ensures outcome == if !old(Usable()) then NoAccess
                         else if reply == Threw then ReadFailed
                         else if reply.status == BadWaitingForInitialData then Waiting
                         else if reply.status == Good then Value(sample)
                         else ReadFailed
      ensures if && old(access) && old(state) == Connected
                 && (reply.Threw?
                     || (reply.status != Good && reply.status != BadWaitingForInitialData
                         && (!reply.stillConnected
                             || (InvalidatesInterface(reply.status) && reply.status != BadNotConnected))))
              then state == Stale && !access
              else state == old(state) && access == old(access)
      ensures SessionKept(old(state), old(access), state, access)
    {
      if !access || state != Connected {
        return NoAccess;
      }
      match reply
      case Threw =>
        InvalidateInterface();
        return ReadFailed;
      case Answer(status, stillConnected) =>
        if status == BadWaitingForInitialData {
          return Waiting;
        }
        if status != Good {
          if (status != BadNotConnected && InvalidatesInterface(status)) || !stillConnected {
            InvalidateInterface();
          }
          return ReadFailed;
        }
        return Value(sample);
    }

    /** Any other request through the mirrored interface: it can end the interface, nothing else. */
    method UseInterface(reply: Reply)
      modifies this`state, this`access
      ensures if && old(Usable())
                 && (reply.Threw? || (reply.status != Good
                                      && (!reply.stillConnected || InvalidatesInterface(reply.status))))
              then state == Stale && !access
              else state == old(state) && access == old(access)
    {
      if !access || state != Connected {
        return;
      }
      if EndsCalls(reply) {
        InvalidateInterface();
      }
    }

    method Connect(reachable: bool)
      modifies this`state
      ensures state == if reachable then Connected else Disconnected
    {
      state := Connecting;
      state := if reachable then Connected else Disconnected;
    }

    /** Discovering the remote interface: needs a connection, and may lose it. */
    method Discover(readable: bool, lost: bool) returns (ok: bool)
      modifies this`state
      ensures ok <==> old(state) == Connected && readable
      ensures state == if old(state) == Connected && !readable && lost then Stale else old(state)
    {
      if state != Connected {
        return false;
      }
      if !readable && lost {
        state := Stale;
      }
      return readable;
    }

    /** callOperation: needs a connection but no access; a bad answer may end the interface. */
    method CallOperation(reply: Reply) returns (ok: bool)
      modifies this`state, this`access
      ensures ok <==> old(state) == Connected && reply.Answer? && reply.status == Good
      ensures if && old(state) == Connected
                 && (reply.Threw? || (reply.status != Good
                                      && (!reply.stillConnected || InvalidatesInterface(reply.status))))
              then state == Stale && !access
              else state == old(state) && access == old(access)
    {
      if state != Connected {
        return false;
      }
      match reply
      case Threw =>
        InvalidateInterface();
        return false;
      case Answer(status, stillConnected) =>
        if status != Good {
          if InvalidatesInterface(status) || !stillConnected {
            InvalidateInterface();
          }
          return false;
        }
        return true;
    }

    method SetInterfaceAccessEnabled(enabled: bool)
      modifies this`access
      ensures access == enabled
    {
      access := enabled;
    }
  }

  // ------------------------------------------------------------------- adapters

  /**
    What a turn meets: the local port's new sample, whether it is connected and whether it takes
    a sample; the server's reply and the sample it comes with; whether the codec converts.
   */
  datatype Turn =
    Turn(offered: Option<Sample>, connected: bool, accepts: bool, reply: Reply, fetched: Sample, converts: bool)

  /** A port is replaced by the port of the same identity. */
  datatype Identity = Identity(name: string, typeName: string, servicePath: seq<string>, input: bool)

  datatype Settled = Delivered(sample: Sample) | Discarded(sample: Sample)

  /** The samples an adapter took, and what became of them so far, in order. */
  datatype Log = Log(taken: seq<Sample>, settled: seq<Settled>, life: Option<nat>)

  const EMPTY_LOG: Log := Log([], [], None)

  function SampleOf(s: Settled): Sample
  {
    match s case Delivered(x) => x case Discarded(x) => x
  }

  function Samples(settled: seq<Settled>): (r: seq<Sample>)
    ensures |r| == |settled|
  {
    seq(|settled|, i requires 0 <= i < |settled| => SampleOf(settled[i]))
  }

  lemma SamplesGrow(settled: seq<Settled>, last: Settled)
    ensures Samples(settled + [last]) == Samples(settled) + [SampleOf(last)]
  {
  }

  /** What an adapter holds besides its identity. */
  datatype Slots = Slots(source: Option<Sample>, encoded: Option<Sample>, output: Option<Sample>)

  const EMPTY_SLOTS: Slots := Slots(None, None, None)

  function PendingIn(s: Slots): seq<Sample>
  {
    if s.source.Some? then [s.source.value]
    else if s.encoded.Some? then [s.encoded.value]
    else if s.output.Some? then [s.output.value]
    else []
  }

  /** Every sample taken was delivered or discarded, in order, but for at most one that is pending. */
  ghost predicate Accounted(log: Log, slots: Slots)
  {
    && log.taken == Samples(log.settled) + PendingIn(slots)
    && !(slots.source.Some? && slots.encoded.Some?)
    && (slots.output.Some? ==> slots.source.None? && slots.encoded.None?)
  }

  datatype AdapterState = AdapterState(slots: Slots, log: Log, tainted: bool)

  const NOTHING: AdapterState := AdapterState(EMPTY_SLOTS, EMPTY_LOG, false)

  class RemotePortAdapter {
    const identity: Identity
    var pendingInputSource: Option<Sample>
    var pendingInput: Option<Sample>
    var pendingOutput: Option<Sample>
    ghost var log: Log
    /** The pending sample was being written when the interface ended. */
    ghost var tainted: bool

    constructor (identity: Identity)
      ensures this.identity == identity && Contents() == NOTHING && Valid()
    {
      this.identity := identity;
      pendingInputSource, pendingInput, pendingOutput := None, None, None;
      log, tainted := EMPTY_LOG, false;
    }

    function Held(): Slots
      reads this
    {
      Slots(pendingInputSource, pendingInput, pendingOutput)
    }

    ghost function Contents(): AdapterState
      reads this
    {
      AdapterState(Held(), log, tainted)
    }

    ghost predicate Valid()
      reads this
    {
      && Accounted(log, Held())
      && (if identity.input then pendingOutput.None? else pendingInputSource.None? && pendingInput.None?)
      && (tainted ==> pendingInput.Some?)
    }

    predicate HasPendingState()
      reads this
      ensures HasPendingState() <==> PendingIn(Held()) != []
    {
      pendingInputSource.Some? || pendingInput.Some? || pendingOutput.Some?
    }

    method Pump(session: ClientSession, turn: Turn)
      requires Valid() && (tainted ==> !session.Usable())
      modifies this, session
      ensures Valid()
      ensures if identity.input then Wrote(identity, old(Contents()), Contents(), old(session.writes), session.writes)
              else session.writes == old(session.writes) && !tainted
      ensures tainted && !old(tainted) ==> session.state == Stale && !session.access
      ensures PumpedLog(old(log), log)
      ensures SessionKept(old(session.state), old(session.access), session.state, session.access)
      ensures old(tainted) ==> Contents() == old(Contents())
    {
      if identity.input {
        PumpInput(session, turn);
      } else {
        PumpOutput(session, turn);
      }
    }

    /**
      Takes a sample if none is pending, and tries to write the pending one. A tainted sample is
      not written: the session is not usable while there is one.
     */
    method PumpInput(session: ClientSession, turn: Turn)
      requires Valid() && identity.input && (tainted ==> !session.Usable())
      modifies this, session
      ensures Valid()
      ensures log.taken == old(log.taken) + (if !old(HasPendingState()) && turn.offered.Some? then [turn.offered.value] else [])
      ensures Wrote(identity, old(Contents()), Contents(), old(session.writes), session.writes)
      ensures session.writes != old(session.writes) <==>
              && old(session.Usable())
              && (old(pendingInput).Some? || (turn.converts && (old(pendingInputSource).Some? || turn.offered.Some?)))
      ensures session.writes != old(session.writes) ==> session.writes[|old(session.writes)|].reply == turn.reply
      ensures if tainted && !old(tainted) then session.state == Stale && !session.access
              else session.state == old(session.state) && session.access == old(session.access)
      ensures PumpedLog(old(log), log)
      ensures SessionKept(old(session.state), old(session.access), session.state, session.access)
      ensures old(tainted) ==> Contents() == old(Contents())
    {
      var ready := TakeInput(turn);
      if ready {
        WritePending(session, turn.reply);
      }
    }

    /** Reads the local port if nothing is pending, and encodes what was read. */
    method TakeInput(turn: Turn) returns (ready: bool)
      requires Valid() && identity.input
      modifies this
      ensures Valid() && tainted == old(tainted) && log.settled == old(log.settled) && log.life == old(log.life)
      ensures log.taken == old(log.taken) + (if !old(HasPendingState()) && turn.offered.Some? then [turn.offered.value] else [])
      ensures ready <==>
              old(pendingInput).Some? || (turn.converts && (old(pendingInputSource).Some? || turn.offered.Some?))
      ensures ready ==> pendingInput.Some?
      ensures old(tainted) ==> Contents() == old(Contents())
    {
      if pendingInputSource.None? && pendingInput.None? {
        if turn.offered.None? {
          return false;
        }
        pendingInputSource := turn.offered;
        log := log.(taken := log.taken + [turn.offered.value]);
      }
      if pendingInput.None? {
        if !turn.converts {
          return false;
        }
        pendingInput := pendingInputSource;
        pendingInputSource := None;
      }
      return true;
    }

    /** Sends the encoded sample; it stays pending unless the server accepts it. */
    method WritePending(session: ClientSession, reply: Reply)
      requires Valid() && identity.input && pendingInput.Some? && (tainted ==> !session.Usable())
      modifies this, session
      ensures Valid() && log.taken == old(log.taken)
      ensures Wrote(identity, old(Contents()), Contents(), old(session.writes), session.writes)
      ensures session.writes != old(session.writes) <==> old(session.Usable())
      ensures session.writes != old(session.writes) ==> session.writes[|old(session.writes)|].reply == reply
      ensures if tainted && !old(tainted) then session.state == Stale && !session.access
              else session.state == old(session.state) && session.access == old(session.access)
      ensures PumpedLog(old(log), log)
      ensures SessionKept(old(session.state), old(session.access), session.state, session.access)
      ensures old(tainted) ==> Contents() == old(Contents())
    {
      ghost var life := if log.life.Some? then log.life.value else |session.writes|;
      ghost var position := |log.settled|;
      assert log.taken[position] == pendingInput.value;
      var outcome := session.WritePortValue(identity, pendingInput.value, reply, life, position);
      if outcome == NotAttempted {
        return;
      }
      log := log.(life := Some(life));
      if outcome != Accepted {
        tainted := outcome == Invalidated;
        return;
      }
      SamplesGrow(log.settled, Delivered(pendingInput.value));
      log := log.(settled := log.settled + [Delivered(pendingInput.value)]);
      pendingInput := None;
    }

    /** Fetches a sample if none is pending, and offers the pending one to the local port. */
    method PumpOutput(session: ClientSession, turn: Turn)
      requires Valid() && !identity.input
      modifies this, session`state, session`access
      ensures Valid() && !tainted
      ensures !turn.connected ==> Contents() == old(Contents())
      ensures log.taken == old(log.taken)
              + if turn.connected && !old(HasPendingState()) && old(session.Usable())
                   && turn.reply.Answer? && turn.reply.status == Good && turn.converts
                then [turn.fetched] else []
      ensures if && turn.connected && !old(HasPendingState()) && old(session.Usable()) && EndsInterface(turn.reply)
                 && !(turn.reply.Answer? && turn.reply.status == BadWaitingForInitialData)
              then session.state == Stale && !session.access
              else session.state == old(session.state) && session.access == old(session.access)
      ensures turn.connected && turn.accepts ==> !HasPendingState()
      ensures !turn.accepts ==> log.settled == old(log.settled)
      ensures PumpedLog(old(log), log)
      ensures SessionKept(old(session.state), old(session.access), session.state, session.access)
    {
      if !turn.connected {
        return;
      }
      if pendingOutput.None? {
        var result := session.ReadPortValue(turn.reply, turn.fetched);
        if !result.Value? {
          return;
        }
        if !turn.converts {
          return;
        }
        pendingOutput := Some(result.sample);
        log := log.(taken := log.taken + [result.sample]);
      }
      if !turn.accepts {
        return;
      }
      SamplesGrow(log.settled, Delivered(pendingOutput.value));
      log := log.(settled := log.settled + [Delivered(pendingOutput.value)]);
      pendingOutput := None;
    }

    method DiscardPendingState()
      requires Valid()
      modifies this
      ensures Valid() && !HasPendingState() && !tainted
      ensures log.taken == old(log.taken) && log.life == old(log.life)
      ensures log.settled == old(log.settled) + Dropped(old(Held()))
    {
      ghost var pending := PendingIn(Held());
      if pending != [] {
        SamplesGrow(log.settled, Discarded(pending[0]));
      }
      log := log.(settled := log.settled + Dropped(Held()));
      pendingInputSource, pendingInput, pendingOutput := None, None, None;
      tainted := false;
    }

    /** Hands everything pending to a replacement of the same identity. */
    method TransferPendingStateTo(replacement: RemotePortAdapter) returns (ok: bool)
      requires Valid() && replacement.Valid() && replacement != this
      modifies this, replacement
      ensures Valid() && replacement.Valid()
      ensures ok <==> replacement.identity == identity
      ensures ok ==> replacement.Contents() == old(Contents()) && Contents() == old(replacement.Contents())
      ensures !ok ==> replacement.Contents() == old(replacement.Contents()) && Contents() == old(Contents())
    {
      if replacement.identity != identity {
        return false;
      }
      pendingInputSource, replacement.pendingInputSource := replacement.pendingInputSource, pendingInputSource;
      pendingInput, replacement.pendingInput := replacement.pendingInput, pendingInput;
      pendingOutput, replacement.pendingOutput := replacement.pendingOutput, pendingOutput;
      log, replacement.log := replacement.log, log;
      tainted, replacement.tainted := replacement.tainted, tainted;
      return true;
    }
  }

  function Dropped(slots: Slots): seq<Settled>
  {
    if PendingIn(slots) == [] then [] else [Discarded(PendingIn(slots)[0])]
  }

  /**
    An input port's turn sends at most one write: of its pending sample, which counts as
    delivered exactly when the server accepts it, and is tainted exactly when the interface ends.
   */
  ghost predicate Wrote(port: Identity, before: AdapterState, after: AdapterState, writes0: seq<Write>,
                        writes: seq<Write>)
  {
    if writes == writes0 then
      && after.log.settled == before.log.settled && after.log.life == before.log.life
      && after.tainted == before.tainted && (after.tainted ==> after.slots == before.slots)
    else
      && !before.tainted
      && |writes| == |writes0| + 1 && writes[..|writes0|] == writes0
      && var w := writes[|writes0|];
        && w.port == port
        && after.log.settled == before.log.settled + (if w.Outcome() == Accepted then [Delivered(w.sample)] else [])
        && (w.Outcome() != Accepted ==> after.slots.encoded == Some(w.sample))
        && after.tainted == (w.Outcome() == Invalidated)
        && after.log.life == Some(w.life)
        && w.life == (if before.log.life.Some? then before.log.life.value else |writes0|)
        && w.position == |before.log.settled| < |after.log.taken| && after.log.taken[w.position] == w.sample
  }

  /** The write b may come after a: it is of a later sample, or of the same one if that was refused. */
  predicate Precedes(a: Write, b: Write)
  {
    || a.life < b.life
    || (a.life == b.life && (a.position < b.position || (a.position == b.position && a.Outcome() == Refused)))
  }

  /** The writes of every port are in order, and later logs of a port begin later. */
  ghost predicate InOrder(writes: seq<Write>)
  {
    && (forall i, j :: 0 <= i < j < |writes| && writes[i].port == writes[j].port ==> Precedes(writes[i], writes[j]))
    && forall k :: 0 <= k < |writes| ==> writes[k].life <= k
  }

  /** Where a log has come to: past all writes of its port, but for its pending sample. */
  ghost predicate Past(state: AdapterState, w: Write)
    requires state.log.life.Some?
  {
    || w.life < state.log.life.value
    || (w.life == state.log.life.value
        && (w.position < |state.log.settled|
            || (w.position == |state.log.settled| && (w.Outcome() == Refused || state.tainted))))
  }

  ghost predicate PastAll(port: Identity, state: AdapterState, writes: seq<Write>)
  {
    && (state.tainted ==> state.slots.encoded.Some?)
    && (state.log.life.Some? ==>
          && state.log.life.value <= |writes|
          && forall k :: 0 <= k < |writes| && writes[k].port == port ==> Past(state, writes[k]))
  }

  lemma WroteKeepsOrder(port: Identity, before: AdapterState, after: AdapterState, writes0: seq<Write>,
                        writes: seq<Write>)
    requires Wrote(port, before, after, writes0, writes) && InOrder(writes0) && PastAll(port, before, writes0)
    ensures InOrder(writes) && PastAll(port, after, writes)
    ensures |writes| >= |writes0|
    ensures forall k :: 0 <= k < |writes| && writes[k].port != port ==> k < |writes0| && writes[k] == writes0[k]
  {
    if writes != writes0 {
      var n := |writes0|;
      var w := writes[n];
      assert forall k :: 0 <= k < n ==> writes[k] == writes[..n][k] == writes0[k];
      forall k | 0 <= k < n && writes[k].port == port
        ensures Precedes(writes[k], w) && Past(after, writes[k])
      {
        OlderIsPast(before, after, w, writes0, k);
      }
      assert Past(after, w);
    }
  }

  lemma OlderIsPast(before: AdapterState, after: AdapterState, w: Write, writes0: seq<Write>, k: nat)
    requires InOrder(writes0) && k < |writes0| && writes0[k].port == w.port && PastAll(w.port, before, writes0)
    requires !before.tainted && after.log.life == Some(w.life) && w.position == |before.log.settled|
    requires w.life == if before.log.life.Some? then before.log.life.value else |writes0|
    requires |before.log.settled| <= |after.log.settled|
    ensures Precedes(writes0[k], w) && Past(after, writes0[k])
  {
    if before.log.life.Some? {
      assert Past(before, writes0[k]);
    } else {
      assert writes0[k].life <= k;
    }
  }

  lemma DiscardingKeepsPast(port: Identity, before: AdapterState, after: AdapterState, writes: seq<Write>)
    requires PastAll(port, before, writes) && !after.tainted && after.log.life == before.log.life
    requires after.log.settled == before.log.settled + Dropped(before.slots)
    ensures PastAll(port, after, writes)
  {
    if after.log.life.Some? {
      forall k | 0 <= k < |writes| && writes[k].port == port ensures Past(after, writes[k]) {
        assert Past(before, writes[k]);
      }
    }
  }

  /** Positions never go back, and a sample whose write was accepted or ended the interface is never written again. */
  lemma SettledIsNotResent(writes: seq<Write>, i: nat, j: nat)
    requires InOrder(writes) && i < j < |writes| && writes[i].port == writes[j].port
    ensures writes[i].life <= writes[j].life
    ensures writes[i].life == writes[j].life ==> writes[i].position <= writes[j].position
    ensures writes[i].Outcome() == Accepted || writes[i].Outcome() == Invalidated ==>
              (writes[i].life, writes[i].position) != (writes[j].life, writes[j].position)
  {
    assert Precedes(writes[i], writes[j]);
  }

  /** The samples of a log that count as delivered. */
  function DeliveredIn(settled: seq<Settled>): seq<Sample>
  {
    if settled == [] then []
    else
      var rest, last := DeliveredIn(settled[..|settled| - 1]), settled[|settled| - 1];
      if last.Delivered? then rest + [last.sample] else rest
  }

  /** The samples that the server accepted for a port. */
  function AcceptedFor(writes: seq<Write>, port: Identity): seq<Sample>
  {
    if writes == [] then []
    else
      var rest, last := AcceptedFor(writes[..|writes| - 1], port), writes[|writes| - 1];
      if last.port == port && last.Outcome() == Accepted then rest + [last.sample] else rest
  }

  lemma DeliveredGrows(settled: seq<Settled>, last: Settled)
    ensures DeliveredIn(settled + [last])
            == if last.Delivered? then DeliveredIn(settled) + [last.sample] else DeliveredIn(settled)
  {
    assert (settled + [last])[..|settled|] == settled;
  }

  lemma AcceptedGrows(writes: seq<Write>, last: Write, port: Identity)
    ensures AcceptedFor(writes + [last], port)
            == if last.port == port && last.Outcome() == Accepted then AcceptedFor(writes, port) + [last.sample]
               else AcceptedFor(writes, port)
  {
    assert (writes + [last])[..|writes|] == writes;
  }

  predicate IsSuffix<T(==)>(part: seq<T>, all: seq<T>)
  {
    |part| <= |all| && all[|all| - |part|..] == part
  }

  /** What an input port counts as delivered are the last writes that the server accepted for it. */
  lemma WroteKeepsAcknowledged(port: Identity, before: AdapterState, after: AdapterState, writes0: seq<Write>,
                               writes: seq<Write>)
    requires Wrote(port, before, after, writes0, writes)
    requires IsSuffix(DeliveredIn(before.log.settled), AcceptedFor(writes0, port))
    ensures IsSuffix(DeliveredIn(after.log.settled), AcceptedFor(writes, port))
    ensures forall other :: other != port ==> AcceptedFor(writes, other) == AcceptedFor(writes0, other)
  {
    if writes != writes0 {
      var w := writes[|writes0|];
      assert writes == writes0 + [w];
      forall other ensures other != port ==> AcceptedFor(writes, other) == AcceptedFor(writes0, other) {
        AcceptedGrows(writes0, w, other);
      }
      AcceptedGrows(writes0, w, port);
      if w.Outcome() == Accepted {
        DeliveredGrows(before.log.settled, Delivered(w.sample));
      } else {
        assert after.log.settled == before.log.settled;
      }
    }
  }

  ghost predicate Ascending(positions: seq<nat>, bound: nat)
  {
    && (forall i, j :: 0 <= i < j < |positions| ==> positions[i] < positions[j])
    && forall i :: 0 <= i < |positions| ==> positions[i] < bound
  }

  /** Every delivered sample is a sample of its own among those taken, in the order of taking. */
  lemma {:induction false} DeliveredOncePosition(settled: seq<Settled>) returns (positions: seq<nat>)
    ensures Ascending(positions, |settled|) && |positions| == |DeliveredIn(settled)|
    ensures forall i :: 0 <= i < |positions| ==>
              positions[i] < |settled| && settled[positions[i]] == Delivered(DeliveredIn(settled)[i])
    ensures forall k :: 0 <= k < |settled| && settled[k].Delivered? ==> k in positions
  {
    if settled == [] {
      return [];
    }
    var n := |settled| - 1;
    var before := DeliveredOncePosition(settled[..n]);
    if settled[n].Delivered? {
      positions := before + [n];
      assert positions[|before|] == n;
      assert forall i :: 0 <= i < |before| ==> positions[i] == before[i];
    } else {
      positions := before;
    }
  }

  /**
    At most once and in order: what the server last accepted for a port are samples that the port
    took, each from its own position; whatever else it took was discarded, or is the one that is pending.
   */
  lemma AcceptedAtMostOnce(log: Log, slots: Slots, writes: seq<Write>, port: Identity) returns (positions: seq<nat>)
    requires Accounted(log, slots) && IsSuffix(DeliveredIn(log.settled), AcceptedFor(writes, port))
    ensures Ascending(positions, |log.taken|)
    ensures var accepted := AcceptedFor(writes, port);
            && |positions| <= |accepted|
            && forall i :: 0 <= i < |positions| ==>
                 positions[i] < |log.taken| && log.taken[positions[i]] == accepted[|accepted| - |positions| + i]
    ensures |log.taken| - |log.settled| <= 1
    ensures forall k :: 0 <= k < |log.settled| && k !in positions ==> log.settled[k] == Discarded(log.taken[k])
  {
    positions := DeliveredOncePosition(log.settled);
    forall k | 0 <= k < |log.settled| ensures SampleOf(log.settled[k]) == log.taken[k] {
      assert Samples(log.settled)[k] == SampleOf(log.settled[k]);
    }
  }

  /** A pump takes at most one sample and delivers at most one; it discards none. */
  ghost predicate PumpedLog(before: Log, after: Log)
  {
    && before.taken <= after.taken && |after.taken| <= |before.taken| + 1
    && before.settled <= after.settled && |after.settled| <= |before.settled| + 1
    && forall i :: |before.settled| <= i < |after.settled| ==> after.settled[i].Delivered?
  }
}
