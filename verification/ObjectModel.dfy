/**
  The object model (src/object_model.cpp): publishing a component as one transaction on the
  shared address space, and what stays true of the model over its whole life.
 */
module ObjectModel {
  import opened Wrappers
  import opened Ordering
  import opened ResourcePaths
  import opened ServiceDiscovery
  import opened PublicationPlan
  import opened Snapshot
  import opened SnapshotTree
  import opened AddressSpace
  import opened Cascades
  import opened Rollback
  import opened Publication
  import Server
  import ServerProtocol
  import ServerSafety

  type InstanceId = nat

  datatype PublishedComponent = PublishedComponent(instance: InstanceId, mode: Mode, effective: set<Bytes>, nodes: NodeMap)

  datatype Outcome =
    | Committed
    | AlreadyPublished
    | ShuttingDown
    | NotRunning
    | NoTypeRegistry
    | BadTimeout
    | Rejected(diagnostics: seq<Diagnostic>)
    | TransactionFailed(complete: bool)

  /** A rollback: how many requests had failed when it began, and whether others had linked new nodes by then. */
  datatype Undo = Undo(faults: nat, linked: bool)

  /** What the server offers to one call: each may be missing. */
  datatype Environment = Environment(
    running: bool, typeRegistry: bool, timeoutPositive: bool, invocation: Server.InvokeOutcome, namespaceKnown: bool)

  /** The server's invoke returned true. */
  predicate Invoked(outcome: Server.InvokeOutcome)
  {
    outcome.Answered? && outcome.ok
  }

  /**
    The callback of a publication catches everything, so what invoke returns tells whether it
    ran: true means once, false means that it never did and never will.
   */
  lemma InvokedMeansRan(states: seq<ServerProtocol.State>, i: nat, outcome: Server.InvokeOutcome, j: nat)
    requires ServerProtocol.Run(states) && i <= j < |states| && Server.OutcomeHolds(states[i], outcome)
    requires outcome.TimeoutReported? || outcome.Answered?
    requires outcome.task < |states[i].tasks| && states[i].tasks[outcome.task].thrown.None?
    ensures Invoked(outcome) ==> states[i].tasks[outcome.task].runs == 1
    ensures !Invoked(outcome) ==> outcome.task < |states[j].tasks| && states[j].tasks[outcome.task].runs == 0
  {
    hide ServerProtocol.Run;
    if !Invoked(outcome) {
      ServerSafety.FalseMeansThrewOrNeverRuns(states, outcome.task, i, j);
    }
  }

  const OBJECTS_FOLDER: ServerNodeId := AssignedId(85)

  // --------------------------------------------------------------- the life of a model

  /** `publishing` names the publication that holds the command mutex and was admitted. */
  datatype ModelState = ModelState(
    components: map<Bytes, PublishedComponent>, revision: nat, closed: bool, shut: bool, publishing: Option<Bytes>)

  const INITIAL: ModelState := ModelState(map[], 0, false, false, None)

  /** Only admission asks whether the model is closed. */
  ghost predicate Admits(s: ModelState, t: ModelState, name: Bytes)
  {
    !s.closed && s.publishing.None? && t == s.(publishing := Some(name))
  }

  /** A commit does not ask again. */
  ghost predicate Commits(s: ModelState, t: ModelState, name: Bytes, c: PublishedComponent)
  {
    && s.publishing == Some(name)
    && name !in s.components
    && t == s.(components := s.components[name := c], revision := s.revision + 1, publishing := None)
  }

  function ClosedTo(s: ModelState): ModelState
  {
    s.(closed := true)
  }

  function Finished(s: ModelState): ModelState
  {
    s.(publishing := None)
  }

  function ShutDown(s: ModelState): ModelState
  {
    s.(closed := true, shut := true, components := if s.shut then s.components else map[])
  }

  /** One step of some thread; the detach needs the command mutex, closing does not. */
  ghost predicate Step(s: ModelState, t: ModelState)
  {
    || t == ClosedTo(s)
    || t == Finished(s)
    || (s.closed && s.publishing.None? && t == ShutDown(s))
    || (exists name :: Admits(s, t, name))
    || exists name, c :: Commits(s, t, name, c)
  }

  ghost predicate Run(states: seq<ModelState>)
  {
    && states != []
    && states[0] == INITIAL
    && forall i :: 0 <= i < |states| - 1 ==> Step(states[i], states[i + 1])
  }

  lemma RunGrows(states: seq<ModelState>, t: ModelState)
    requires Run(states) && Step(states[|states| - 1], t)
    ensures Run(states + [t])
  {
    hide Step;
    var longer := states + [t];
    forall i | 0 <= i < |longer| - 1 ensures Step(longer[i], longer[i + 1]) {
      if i < |states| - 1 { assert Step(states[i], states[i + 1]); }
    }
  }

  /** The revision counts the published components until the model is shut down. */
  ghost predicate Counted(s: ModelState)
  {
    if s.shut then s.closed && s.components == map[] && s.publishing.None? else s.revision == |s.components|
  }

  /** An admitted publication of a new name can still commit. */
  predicate InFlight(s: ModelState)
  {
    s.publishing.Some? && s.publishing.value !in s.components
  }

  function FlightOf(s: ModelState): set<Bytes>
  {
    if InFlight(s) then {s.publishing.value} else {}
  }

  lemma StepKeepsCount(s: ModelState, t: ModelState)
    requires Step(s, t) && Counted(s)
    ensures Counted(t) && s.revision <= t.revision
    ensures !t.shut ==> forall n :: n in s.components ==> n in t.components && t.components[n] == s.components[n]
    ensures s.closed ==> t.closed && (s.publishing.None? ==> t.publishing.None?)
    ensures s.closed ==> t.revision + |FlightOf(t)| <= s.revision + |FlightOf(s)|
    ensures s.closed ==> t.components.Keys + FlightOf(t) <= s.components.Keys + FlightOf(s)
    ensures s.shut ==> t.shut && t.revision == s.revision
  {
    if name, c :| Commits(s, t, name, c) {
      assert t.components.Keys == s.components.Keys + {name};
      assert |t.components| == |t.components.Keys| && |s.components| == |s.components.Keys|;
    }
  }

  /**
    Over any run: once committed, a component's instance, mode, effective set and nodes never
    change until shutdown, and the revision counts the components. After closing, at most the
    publication admitted before commits, and none after the detach.
   */
  lemma {:induction false} LifeOfAModel(states: seq<ModelState>, i: nat, j: nat)
    requires Run(states) && i <= j < |states|
    ensures Counted(states[i]) && Counted(states[j]) && states[i].revision <= states[j].revision
    ensures !states[j].shut ==>
              forall n :: n in states[i].components ==>
                n in states[j].components && states[j].components[n] == states[i].components[n]
    ensures states[i].closed ==> states[j].closed && (states[i].publishing.None? ==> states[j].publishing.None?)
    ensures states[i].closed ==>
              && states[j].revision + |FlightOf(states[j])| <= states[i].revision + |FlightOf(states[i])|
              && states[j].components.Keys + FlightOf(states[j]) <= states[i].components.Keys + FlightOf(states[i])
    ensures states[i].shut ==>
              states[j].shut && states[j].components == map[] && states[j].revision == states[i].revision
    decreases j
  {
    hide FlightOf, Step;
    if j > 0 {
      if i < j {
        LifeOfAModel(states, i, j - 1);
      } else {
        LifeOfAModel(states, j - 1, j - 1);
      }
      assert Step(states[j - 1], states[j - 1 + 1]);
      StepKeepsCount(states[j - 1], states[j]);
    }
  }

  /** However a run goes on, the revision and the names stay, but for the detach. */
  ghost predicate NothingCommitsAfter(states: seq<ModelState>)
    requires states != []
  {
    forall longer: seq<ModelState> :: Run(longer) && states <= longer ==>
      && longer[|longer| - 1].revision == states[|states| - 1].revision
      && longer[|longer| - 1].components.Keys <= states[|states| - 1].components.Keys
  }

  /** A closed model is settled exactly when no publication of a new name is in flight. */
  lemma ClosedIsSettled(states: seq<ModelState>)
    requires Run(states) && states[|states| - 1].closed
    ensures NothingCommitsAfter(states) <==> !InFlight(states[|states| - 1])
  {
    var i := |states| - 1;
    var s := states[i];
    hide Run, Step, Counted;
    if InFlight(s) {
      var name := s.publishing.value;
      var c := PublishedComponent(0, Full, {}, map[]);
      var t := s.(components := s.components[name := c], revision := s.revision + 1, publishing := None);
      CommitIsStep(s, t, name, c);
      RunGrows(states, t);
      assert states <= states + [t] && (states + [t])[|states + [t]| - 1] == t;
    } else {
      forall longer: seq<ModelState> | Run(longer) && states <= longer
        ensures longer[|longer| - 1].revision == s.revision
        ensures longer[|longer| - 1].components.Keys <= s.components.Keys
      {
        LifeOfAModel(longer, i, |longer| - 1);
      }
    }
  }

  lemma CommitIsStep(s: ModelState, t: ModelState, name: Bytes, c: PublishedComponent)
    requires Commits(s, t, name, c)
    ensures Step(s, t)
  {
  }

  /** A publication admitted before the model was closed commits in the closed model. */
  lemma CommitAfterClosing(name: Bytes, c: PublishedComponent)
    ensures exists states: seq<ModelState> :: Run(states) && |states| == 4 && states[2].closed && states[2].revision == 0
                             && states[3].closed && states[3].revision == 1 && name in states[3].components
  {
    var s1 := INITIAL.(publishing := Some(name));
    var s2 := ClosedTo(s1);
    var s3 := s2.(components := map[name := c], revision := 1, publishing := None);
    assert Admits(INITIAL, s1, name);
    assert Commits(s2, s3, name, c);
    assert Run([INITIAL, s1, s2, s3]);
  }

  /** How a publication may leave the model, whatever other threads do: with one component more. */
  ghost predicate Publishes(s: ModelState, t: ModelState, name: Bytes, c: PublishedComponent)
  {
    && name !in s.components
    && t.components == s.components[name := c] && t.revision == s.revision + 1
    && t.shut == s.shut && (s.closed ==> t.closed)
  }

  /** Or as it was. */
  ghost predicate Unpublished(s: ModelState, t: ModelState)
  {
    && t.components == s.components && t.revision == s.revision
    && t.shut == s.shut && (s.closed ==> t.closed)
  }

  // ---------------------------------------------------------------------- roots

  function ModelRoot(): Bytes
  {
    AppendNodeSegment("rtt", "model")
  }

  function RevisionPath(): Bytes
  {
    AppendNodeSegment(ModelRoot(), "revision")
  }

  ghost function RootIds(): set<ServerNodeId>
  {
    {PathId("rtt"), PathId(ComponentsPath()), PathId(ModelRoot()), PathId(RevisionPath())}
  }

  /** The candidate's paths are free and not those of the shared roots. */
  ghost predicate Unused(nodes: NodeMap, present: set<ServerNodeId>)
  {
    PathIds(nodes.Keys) !! present + RootIds()
  }

  lemma SnapshotIsRooted(c: Bytes, root: ServiceId, live: LiveMap, resources: Resources, effective: set<Bytes>,
                         nodes: NodeMap)
    requires Sound(live, resources, effective) && IsSnapshot(c, root, live, resources, effective, nodes)
    ensures Rooted(nodes)
  {
    hide IsSnapshot, Sound, PathDepth, ComponentPath, ComponentsPath;
    forall p | p in nodes
      ensures nodes[p].parent == ComponentsPath()
              || (nodes[p].parent in nodes && PathDepth(nodes[p].parent) < PathDepth(p))
    {
      ParentsPresent(c, root, live, resources, effective, nodes, p);
    }
  }

  // ---------------------------------------------------------------------- class

  class ObjectModel {
    const space: Space
    const mandatory: seq<Mandatory>
    var components: map<Bytes, PublishedComponent>
    var revision: nat
    var rootsReady: bool
    var abandoned: seq<NodeMap>
    var diagnostics: map<Bytes, seq<Diagnostic>>
    var admissionClosed: bool
    var isShutDown: bool
    /** The admitted publication that holds the command mutex. */
    ghost var publishing: Option<Bytes>
    /** All states of the model so far. */
    ghost var history: seq<ModelState>

    constructor (space: Space, mandatory: seq<Mandatory>)
      requires ProperReferences(space.nodes, space.refs)
      ensures this.space == space && this.mandatory == mandatory
      ensures Valid() && State() == INITIAL && history == [INITIAL] && abandoned == [] && !rootsReady
    {
      hide RootIds;
      this.space, this.mandatory := space, mandatory;
      components, revision, rootsReady, abandoned, diagnostics := map[], 0, false, [], map[];
      admissionClosed, isShutDown, publishing, history := false, false, None, [INITIAL];
    }

    ghost function State(): ModelState
      reads this`components, this`revision, this`admissionClosed, this`isShutDown, this`publishing
    {
      ModelState(components, revision, admissionClosed, isShutDown, publishing)
    }

    /**
      Published nodes exist and are nobody else's; the roots exist once they are ready; the
      history is a run that ends here.
     */
    ghost predicate Valid()
      reads this`components, this`revision, this`admissionClosed, this`isShutDown, this`publishing, this`rootsReady,
        this`history, space
    {
      && ProperReferences(space.nodes, space.refs)
      && (rootsReady ==> RootIds() <= space.nodes)
      && Hosted(components, space.nodes)
      && Run(history) && history[|history| - 1] == State()
    }

    /** Takes a step onto the record. */
    ghost method Record()
      requires Run(history) && Step(history[|history| - 1], State())
      modifies this`history
      ensures Run(history) && history == old(history) + [State()]
    {
      RunGrows(history, State());
      history := history + [State()];
    }

    /** While a publication holds the command mutex, another thread may close the model. */
    method OthersAct()
      requires Valid()
      modifies this`admissionClosed, this`history
      ensures Valid() && old(history) <= history
      ensures State() == old(State()) || State() == ClosedTo(old(State()))
    {
      var close: bool := *;
      if close {
        BeginShutdown();
      }
    }

    /** One shared root: already there or added now. */
    method EnsureRoot(id: ServerNodeId, parent: ServerNodeId, kind: ReferenceKind) returns (ok: bool)
      requires ProperReferences(space.nodes, space.refs)
      modifies space
      ensures ProperReferences(space.nodes, space.refs)
      ensures old(space.nodes) <= space.nodes <= old(space.nodes) + {id}
      ensures ok ==> id in space.nodes
      ensures space.faults >= old(space.faults)
      ensures space.faults == old(space.faults) && parent in old(space.nodes) ==> ok
    {
      var status := space.AddNode(id, parent, kind);
      return status == Good || status == BadNodeIdExists;
    }

    method EnsureRoots() returns (ok: bool)
      requires ProperReferences(space.nodes, space.refs) && (rootsReady ==> RootIds() <= space.nodes)
      modifies this`rootsReady, space
      ensures ProperReferences(space.nodes, space.refs)
      ensures old(space.nodes) <= space.nodes <= old(space.nodes) + RootIds()
      ensures rootsReady == (old(rootsReady) || ok)
      ensures rootsReady ==> RootIds() <= space.nodes
      ensures space.faults >= old(space.faults)
      ensures space.faults == old(space.faults) && OBJECTS_FOLDER in old(space.nodes) ==> ok
    {
      hide ComponentsPath, ModelRoot, RevisionPath;
      if rootsReady {
        return true;
      }
      ok := EnsureRoot(PathId("rtt"), OBJECTS_FOLDER, Organizes);
      if !ok {
        return;
      }
      ok := EnsureRoot(PathId(ComponentsPath()), PathId("rtt"), HasComponent);
      if !ok {
        return;
      }
      ok := EnsureRoot(PathId(ModelRoot()), PathId("rtt"), HasComponent);
      if !ok {
        return;
      }
      ok := EnsureRoot(PathId(RevisionPath()), PathId(ModelRoot()), HasComponent);
      if !ok {
        return;
      }
      rootsReady := true;
    }

    /** Creates the candidate below the roots, or takes back whatever was created. */
    method Build(name: Bytes, nodes: NodeMap, namespaceKnown: bool)
      returns (built: bool, complete: bool, ghost created: set<ServerNodeId>, ghost strays: set<ServerNodeId>,
               ghost undo: Undo)
      requires ProperReferences(space.nodes, space.refs) && (rootsReady ==> RootIds() <= space.nodes)
      modifies this`rootsReady, space
      ensures ProperReferences(space.nodes, space.refs) && (rootsReady ==> RootIds() <= space.nodes)
      ensures old(space.nodes) <= space.nodes
      ensures built ==> namespaceKnown
      ensures built ==> BuiltOn(old(space.nodes), space.nodes, nodes, created)
                        && Built(space.refs, space.arguments, nodes, nodes.Keys, created)
      ensures !built && complete ==> space.nodes <= old(space.nodes) + RootIds() + strays
      ensures !undo.linked && space.faults == undo.faults ==> complete
      ensures UndoExplained(space, undo, old(space.faults))
      ensures StraysExplained(space, strays, old(space.faults))
      ensures namespaceKnown && undo.faults == old(space.faults) && Buildable(nodes, old(space.nodes)) ==> built
    {
      hide Built, Rooted, ComponentsPath, RootIds, ComponentPath, Forward, Orderly, MayReach;
      ghost var nodes0 := space.nodes;
      created, strays, complete := {}, {}, true;
      built := false;
      var ledger: seq<CreatedNode> := [];
      if namespaceKnown {
        built := EnsureRoots();
      }
      ghost var nodes1 := space.nodes;
      NothingLedgered(space.nodes, space.refs);
      NothingBackward(space.refs);
      RootsKnown();
      ghost var links1 := space.links;
      if built {
        built, ledger, strays := CreateCandidate(space, nodes, ComponentPath(name));
        created := space.nodes - nodes1;
        if built {
          BuiltIncludes(space.refs, space.arguments, nodes, created);
        }
      }
      undo := Undo(space.faults, space.links > links1);
      if !built {
        complete := RollbackCreatedNodes(space, ledger);
      }
    }

    /** The part of a publication that runs on the server thread. */
    method Transaction(name: Bytes, candidate: PublishedComponent, env: Environment)
      returns (outcome: Outcome, ghost created: set<ServerNodeId>, ghost strays: set<ServerNodeId>, ghost undo: Undo)
      requires Valid() && name !in components && publishing == Some(name)
      modifies this`components, this`revision, this`rootsReady, this`abandoned, this`admissionClosed, this`publishing,
        this`history, space
      ensures Valid() && old(history) <= history
      ensures outcome == Committed || outcome.TransactionFailed?
      ensures old(space.nodes) <= space.nodes
      ensures publishing == if outcome == Committed then None else Some(name)
      ensures outcome == Committed ==>
                && Publishes(old(State()), State(), name, candidate)
                && BuiltOn(old(space.nodes), space.nodes, candidate.nodes, created)
                && Built(space.refs, space.arguments, candidate.nodes, candidate.nodes.Keys, created)
      ensures outcome == Committed ==> Invoked(env.invocation) && env.namespaceKnown
      ensures outcome != Committed ==> Unpublished(old(State()), State())
      ensures outcome == TransactionFailed(true) ==>
                space.nodes <= old(space.nodes) + RootIds() + strays && abandoned == old(abandoned)
      ensures outcome == TransactionFailed(false) ==>
                abandoned == old(abandoned) + [candidate.nodes] && (undo.linked || space.faults > undo.faults)
      ensures UndoExplained(space, undo, old(space.faults))
      ensures StraysExplained(space, strays, old(space.faults))
      ensures !Invoked(env.invocation) ==> outcome == TransactionFailed(true) && space.nodes == old(space.nodes)
      ensures Undisturbed(env, undo, old(space.faults)) && Buildable(candidate.nodes, old(space.nodes)) ==>
                outcome == Committed
    {
      hide Built, Buildable, RootIds, Hosted, BuiltOn, Run, Step, Invoked;
      created, strays, undo := {}, {}, Undo(space.faults, false);
      OthersAct();
      if !Invoked(env.invocation) {
        return TransactionFailed(true), {}, {}, undo;
      }
      var built, complete;
      built, complete, created, strays, undo := Build(name, candidate.nodes, env.namespaceKnown);
      HostedMore(components, old(space.nodes), space.nodes);
      if !built {
        if !complete {
          abandoned := abandoned + [candidate.nodes];
        }
        return TransactionFailed(complete), {}, strays, undo;
      }
      OthersAct();
      HostedWith(components, old(space.nodes), space.nodes, name, candidate, created);
      Commit(name, candidate);
      return Committed, created, strays, undo;
    }

    /** try_emplace and the next revision. */
    method Commit(name: Bytes, candidate: PublishedComponent)
      requires Valid() && name !in components && publishing == Some(name)
      requires Hosted(components[name := candidate], space.nodes)
      modifies this`components, this`revision, this`publishing, this`history
      ensures Valid() && old(history) <= history && Commits(old(State()), State(), name, candidate)
    {
      hide RootIds, Hosted, Step, Run;
      ghost var before := State();
      components, revision := components[name := candidate], revision + 1;
      publishing := None;
      CommitIsStep(before, State(), name, candidate);
      Record();
    }

    /** Releases the command mutex. */
    ghost method Finish()
      requires Valid()
      modifies this`publishing, this`history
      ensures Valid() && old(history) <= history && State() == Finished(old(State()))
    {
      hide RootIds, Hosted, Run;
      publishing := None;
      Record();
    }

    /** Past the test for shutdown, with the command mutex held. */
    ghost method Admit(name: Bytes)
      requires Valid() && !admissionClosed && publishing == None
      modifies this`publishing, this`history
      ensures Valid() && old(history) <= history && Admits(old(State()), State(), name)
    {
      hide RootIds, Hosted, Run;
      publishing := Some(name);
      assert Admits(old(State()), State(), name);
      Record();
    }

    /** Publishing a name again succeeds only for the same instance, mode and effective set. */
    method Republish(instance: InstanceId, name: Bytes, mode: Mode, selectors: seq<Bytes>, g: ServiceGraph,
                     root: ServiceId)
      returns (outcome: Outcome, plan: Plan)
      requires name in components && ClosedGraph(g) && root in g
      modifies this`diagnostics
      ensures IsEffective(RequiredPaths(mandatory), mode, Discovered(g, root).resources, Elements(selectors), plan.effective)
      ensures outcome == AlreadyPublished || outcome.Rejected?
      ensures RightForKnown(components[name], instance, mode, plan.effective,
                            PlanReasons(mandatory, mode, Discovered(g, root), Elements(selectors)), outcome)
      ensures diagnostics == if outcome == AlreadyPublished then old(diagnostics) - {name}
                             else old(diagnostics)[name := outcome.diagnostics]
    {
      hide IsEffective, Discovered, RequiredPaths, PlanFindings;
      var existing := components[name];
      var inventory := DiscoverInventory(g, Some(root));
      plan := BuildPublicationPlan(mandatory, mode, inventory, selectors);
      NoElements(plan.diagnostics);
      if existing.instance != instance {
        outcome := RejectConflict(name, OtherInstance);
        return;
      }
      if existing.mode != mode {
        outcome := RejectConflict(name, OtherMode);
        return;
      }
      if mode.Full? {
        diagnostics := diagnostics - {name};
        return AlreadyPublished, plan;
      }
      if existing.effective != plan.effective {
        outcome := RejectConflict(name, OtherSelection);
        return;
      }
      if plan.diagnostics != [] {
        diagnostics := diagnostics[name := plan.diagnostics];
        return Rejected(plan.diagnostics), plan;
      }
      diagnostics := diagnostics - {name};
      return AlreadyPublished, plan;
    }

    method RejectConflict(name: Bytes, reason: ConflictReason) returns (outcome: Outcome)
      modifies this`diagnostics
      ensures outcome == Rejected([PublicationConflict(reason)])
      ensures diagnostics == old(diagnostics)[name := [PublicationConflict(reason)]]
    {
      diagnostics := diagnostics[name := [PublicationConflict(reason)]];
      return Rejected([PublicationConflict(reason)]);
    }

    /** The snapshot as values, with what it promises. */
    method TakeSnapshot(name: Bytes, mode: Mode, selectors: seq<Bytes>, g: ServiceGraph, root: ServiceId, live: LiveMap)
      returns (nodes: NodeMap, plan: Plan, problems: seq<Diagnostic>)
      requires ClosedGraph(g) && root in g
      ensures plan.mode == mode
      ensures IsEffective(RequiredPaths(mandatory), mode, Discovered(g, root).resources, Elements(selectors), plan.effective)
      ensures Elements(problems) == Reasons(mandatory, mode, Discovered(g, root), Elements(selectors), live, plan.effective)
      ensures problems == [] ==> Published(name, root, live, Discovered(g, root).resources, plan.effective, nodes)
    {
      hide IsEffective, Discovered, RequiredPaths, Sound, IsSnapshot, AllMapped, PlanFindings, Obstacles, OwnersRecorded,
        NoneCalledThis;
      var snapshot;
      ghost var resources;
      snapshot, plan, resources := SnapshotComponent(name, mandatory, g, root, live, mode, selectors);
      return snapshot.nodes, plan, snapshot.diagnostics;
    }

    /** Publishing a new name. */
    method PublishNew(instance: InstanceId, name: Bytes, mode: Mode, selectors: seq<Bytes>, g: ServiceGraph,
                      root: ServiceId, live: LiveMap, env: Environment)
      returns (outcome: Outcome, plan: Plan, ghost created: set<ServerNodeId>, ghost strays: set<ServerNodeId>,
               ghost undo: Undo)
      requires Valid() && name !in components && publishing == Some(name) && ClosedGraph(g) && root in g
      requires env.running && env.typeRegistry && env.timeoutPositive
      modifies this`components, this`revision, this`rootsReady, this`abandoned, this`diagnostics, this`admissionClosed,
        this`publishing, this`history, space
      ensures Valid() && old(history) <= history && old(space.nodes) <= space.nodes
      ensures publishing == if outcome == Committed then None else Some(name)
      ensures IsEffective(RequiredPaths(mandatory), mode, Discovered(g, root).resources, Elements(selectors), plan.effective)
      ensures outcome == Committed || outcome.Rejected? || outcome.TransactionFailed?
      ensures RightForNew(Reasons(mandatory, mode, Discovered(g, root), Elements(selectors), live, plan.effective), env,
                          outcome)
      ensures outcome == Committed ==>
                && CommittedAs(old(State()), State(), name, instance, mode, plan.effective, root, live,
                               Discovered(g, root).resources)
                && BuiltOn(old(space.nodes), space.nodes, components[name].nodes, created)
                && Built(space.refs, space.arguments, components[name].nodes, components[name].nodes.Keys, created)
      ensures outcome != Committed ==> Unpublished(old(State()), State())
      ensures outcome.Rejected? ==> space.nodes == old(space.nodes) && space.refs == old(space.refs)
      ensures outcome == TransactionFailed(true) ==>
                space.nodes <= old(space.nodes) + RootIds() + strays && abandoned == old(abandoned)
      ensures outcome == TransactionFailed(false) ==>
                |abandoned| == |old(abandoned)| + 1 && (undo.linked || space.faults > undo.faults)
      ensures UndoExplained(space, undo, old(space.faults))
      ensures StraysExplained(space, strays, old(space.faults))
      ensures !outcome.Rejected? && Undisturbed(env, undo, old(space.faults))
              && RoomFor(name, root, live, Discovered(g, root).resources, plan.effective, old(space.nodes)) ==>
                outcome == Committed
      ensures diagnostics == match outcome
                             case Committed => old(diagnostics) - {name}
                             case Rejected(d) => old(diagnostics)[name := d]
                             case _ => old(diagnostics)
    {
      hide IsEffective, Discovered, RequiredPaths, Published, Reasons, Built, BuiltOn, RootIds, Buildable,
        RoomFor, Hosted, Run, Step;
      created, strays, undo := {}, {}, Undo(space.faults, false);
      var nodes, problems;
      nodes, plan, problems := TakeSnapshot(name, mode, selectors, g, root, live);
      NoElements(problems);
      if problems != [] {
        diagnostics := diagnostics[name := problems];
        return Rejected(problems), plan, {}, {}, undo;
      }
      var candidate := PublishedComponent(instance, mode, plan.effective, nodes);
      RoomIsBuildable(name, root, live, Discovered(g, root).resources, plan.effective, nodes, space.nodes);
      outcome, created, strays, undo := Transaction(name, candidate, env);
      if outcome == Committed {
        diagnostics := diagnostics - {name};
      }
    }

    method PublishComponent(instance: InstanceId, name: Bytes, mode: Mode, selectors: seq<Bytes>, g: ServiceGraph,
                            root: ServiceId, live: LiveMap, env: Environment)
      returns (outcome: Outcome, ghost effective: set<Bytes>, ghost created: set<ServerNodeId>,
               ghost strays: set<ServerNodeId>, ghost undo: Undo)
      requires Valid() && publishing == None && ClosedGraph(g) && root in g
      modifies this`components, this`revision, this`rootsReady, this`abandoned, this`diagnostics, this`admissionClosed,
        this`publishing, this`history, space
      ensures Valid() && publishing == None && old(history) <= history
      ensures old(space.nodes) <= space.nodes
      ensures IsEffective(RequiredPaths(mandatory), mode, Discovered(g, root).resources, Elements(selectors), effective)
      ensures !old(admissionClosed) ==> RightAnswer(old(State()), name, instance, mode, effective,
                            PlanReasons(mandatory, mode, Discovered(g, root), Elements(selectors)),
                            Reasons(mandatory, mode, Discovered(g, root), Elements(selectors), live, effective),
                            env, outcome)
      ensures outcome == Committed ==>
                && CommittedAs(old(State()), State(), name, instance, mode, effective, root, live,
                                 Discovered(g, root).resources)
                && BuiltOn(old(space.nodes), space.nodes, components[name].nodes, created)
                && Built(space.refs, space.arguments, components[name].nodes, components[name].nodes.Keys, created)
      ensures outcome == Committed <==> components != old(components)
      ensures outcome != Committed ==> Unpublished(old(State()), State())
      ensures outcome != Committed && !outcome.TransactionFailed? ==> space.nodes == old(space.nodes)
      ensures outcome == TransactionFailed(true) ==>
                space.nodes <= old(space.nodes) + RootIds() + strays && abandoned == old(abandoned)
      ensures outcome == TransactionFailed(false) ==> undo.linked || space.faults > undo.faults
      ensures outcome.TransactionFailed? && Undisturbed(env, undo, old(space.faults)) ==>
                !RoomFor(name, root, live, Discovered(g, root).resources, effective, old(space.nodes))
      ensures diagnostics == match outcome
                             case Committed => old(diagnostics) - {name}
                             case AlreadyPublished => old(diagnostics) - {name}
                             case Rejected(d) => old(diagnostics)[name := d]
                             case _ => old(diagnostics)
      ensures UndoExplained(space, undo, old(space.faults))
      ensures StraysExplained(space, strays, old(space.faults))
      ensures outcome == ShuttingDown <==> old(admissionClosed)
    {
      hide IsEffective, Discovered, RequiredPaths, Published, PlanReasons, Reasons, Built, BuiltOn, RootIds,
        Buildable, RoomFor, Hosted, Run, Step, RightAnswer, CommittedAs, Undisturbed;
      effective, created, strays, undo := EffectiveOf(mode, selectors, g, root), {}, {}, Undo(space.faults, false);
      if admissionClosed {
        return ShuttingDown, effective, {}, {}, undo;
      }
      Admit(name);
      OthersAct();
      ghost var admitted := State();
      outcome, effective, created, strays, undo := PublishAdmitted(instance, name, mode, selectors, g, root, live, env);
      ghost var answered := State();
      Finish();
      AnswerOfAdmission(old(State()), admitted, name, instance, mode, effective,
                        PlanReasons(mandatory, mode, Discovered(g, root), Elements(selectors)),
                        Reasons(mandatory, mode, Discovered(g, root), Elements(selectors), live, effective),
                        env, outcome);
      CommittedSinceAdmission(old(State()), admitted, answered, State(), name, instance, mode, effective, root, live,
                              Discovered(g, root).resources);
    }

    /** What a publication does once it is admitted. */
    method PublishAdmitted(instance: InstanceId, name: Bytes, mode: Mode, selectors: seq<Bytes>, g: ServiceGraph,
                           root: ServiceId, live: LiveMap, env: Environment)
      returns (outcome: Outcome, ghost effective: set<Bytes>, ghost created: set<ServerNodeId>,
               ghost strays: set<ServerNodeId>, ghost undo: Undo)
      requires Valid() && publishing == Some(name) && ClosedGraph(g) && root in g
      modifies this`components, this`revision, this`rootsReady, this`abandoned, this`diagnostics, this`admissionClosed,
        this`publishing, this`history, space
      ensures Valid() && old(history) <= history && old(space.nodes) <= space.nodes
      ensures IsEffective(RequiredPaths(mandatory), mode, Discovered(g, root).resources, Elements(selectors), effective)
      ensures RightAnswer(old(State()), name, instance, mode, effective,
                          PlanReasons(mandatory, mode, Discovered(g, root), Elements(selectors)),
                          Reasons(mandatory, mode, Discovered(g, root), Elements(selectors), live, effective),
                          env, outcome)
      ensures outcome == Committed ==>
                && CommittedAs(old(State()), State(), name, instance, mode, effective, root, live,
                               Discovered(g, root).resources)
                && BuiltOn(old(space.nodes), space.nodes, components[name].nodes, created)
                && Built(space.refs, space.arguments, components[name].nodes, components[name].nodes.Keys, created)
      ensures outcome != Committed ==> Unpublished(old(State()), State())
      ensures outcome != Committed && !outcome.TransactionFailed? ==> space.nodes == old(space.nodes)
      ensures outcome == TransactionFailed(true) ==>
                space.nodes <= old(space.nodes) + RootIds() + strays && abandoned == old(abandoned)
      ensures outcome == TransactionFailed(false) ==> undo.linked || space.faults > undo.faults
      ensures outcome.TransactionFailed? && Undisturbed(env, undo, old(space.faults)) ==>
                !RoomFor(name, root, live, Discovered(g, root).resources, effective, old(space.nodes))
      ensures diagnostics == match outcome
                             case Committed => old(diagnostics) - {name}
                             case AlreadyPublished => old(diagnostics) - {name}
                             case Rejected(d) => old(diagnostics)[name := d]
                             case _ => old(diagnostics)
      ensures UndoExplained(space, undo, old(space.faults))
      ensures StraysExplained(space, strays, old(space.faults))
      ensures outcome != ShuttingDown
    {
      hide IsEffective, Discovered, RequiredPaths, Published, PlanReasons, Reasons, Built, BuiltOn, RootIds,
        Buildable, RoomFor, Hosted, Run, Step, CommittedAs, Undisturbed,
        RightForKnown, RightForNew;
      effective, created, strays, undo := EffectiveOf(mode, selectors, g, root), {}, {}, Undo(space.faults, false);
      var plan;
      if name in components {
        outcome, plan := Republish(instance, name, mode, selectors, g, root);
        effective := plan.effective;
        return;
      }
      var refusal := RefuseOverServer(env);
      if refusal.Some? {
        outcome := refusal.value;
        RefusedRightly(Reasons(mandatory, mode, Discovered(g, root), Elements(selectors), live, effective), env, outcome);
        return;
      }
      outcome, plan, created, strays, undo := PublishNew(instance, name, mode, selectors, g, root, live, env);
      effective := plan.effective;
    }

    /** What is asked of the server before a new name is looked at. */
    method RefuseOverServer(env: Environment) returns (refusal: Option<Outcome>)
      ensures refusal == Some(NotRunning) <==> !env.running
      ensures refusal == Some(NoTypeRegistry) <==> env.running && !env.typeRegistry
      ensures refusal == Some(BadTimeout) <==> env.running && env.typeRegistry && !env.timeoutPositive
      ensures refusal.None? <==> env.running && env.typeRegistry && env.timeoutPositive
    {
      if !env.running {
        return Some(NotRunning);
      }
      if !env.typeRegistry {
        return Some(NoTypeRegistry);
      }
      return if env.timeoutPositive then None else Some(BadTimeout);
    }

    /** The resources that a publication would make effective. */
    ghost function EffectiveOf(mode: Mode, selectors: seq<Bytes>, g: ServiceGraph, root: ServiceId): (e: set<Bytes>)
      requires ClosedGraph(g) && root in g
      ensures IsEffective(RequiredPaths(mandatory), mode, Discovered(g, root).resources, Elements(selectors), e)
    {
      DiscoveredTree(g, root);
      ClosureIsEffective(RequiredPaths(mandatory), mode, Discovered(g, root).resources, Elements(selectors));
      ClosureOf(Discovered(g, root).resources, Chosen(mode, Discovered(g, root).resources, Elements(selectors)))
      + Available(RequiredPaths(mandatory), Discovered(g, root).resources)
    }

    /** Any thread may close the model at any time, without the command mutex. */
    method BeginShutdown()
      requires Valid()
      modifies this`admissionClosed, this`history
      ensures Valid() && old(history) <= history && State() == ClosedTo(old(State()))
    {
      hide RootIds, Hosted, Run;
      admissionClosed := true;
      Record();
    }

    /** The first call detaches all publications; later calls find nothing to do. */
    method Shutdown() returns (detached: map<Bytes, PublishedComponent>, left: seq<NodeMap>)
      requires Valid() && publishing == None
      modifies this`admissionClosed, this`isShutDown, this`components, this`abandoned, this`diagnostics, this`history
      ensures Valid() && old(history) <= history && State() == ShutDown(old(State()))
      ensures !old(isShutDown) ==> detached == old(components) && left == old(abandoned) && abandoned == []
      ensures old(isShutDown) ==> detached == map[] && left == [] && abandoned == old(abandoned)
    {
      hide RootIds, Run;
      BeginShutdown();
      if isShutDown {
        return map[], [];
      }
      detached, left := components, abandoned;
      components, abandoned, diagnostics := map[], [], map[];
      isShutDown := true;
      Record();
    }
  }

  /**
    A known name is accepted again for the same instance, mode and, if selective, a clean selection
    of the same resources; otherwise the first difference is the answer.
   */
  ghost predicate RightForKnown(c: PublishedComponent, instance: InstanceId, mode: Mode, effective: set<Bytes>,
                                planned: set<Diagnostic>, outcome: Outcome)
  {
    && (outcome == AlreadyPublished || outcome.Rejected?)
    && (outcome == AlreadyPublished <==>
        c.instance == instance && c.mode == mode && (mode.Selected? ==> c.effective == effective && planned == {}))
    && (c.instance != instance ==> outcome == Rejected([PublicationConflict(OtherInstance)]))
    && (c.instance == instance && c.mode != mode ==> outcome == Rejected([PublicationConflict(OtherMode)]))
    && (c.instance == instance && c.mode == mode == Selected && c.effective != effective ==>
          outcome == Rejected([PublicationConflict(OtherSelection)]))
    && (c.instance == instance && c.mode == mode && c.effective == effective && outcome.Rejected? ==>
          Elements(outcome.diagnostics) == planned)
  }

  /**
    A new name is refused over the server, then over the component, with all that was found; if
    nothing was, it is committed unless something goes wrong or is in the way.
   */
  ghost predicate RightForNew(found: set<Diagnostic>, env: Environment, outcome: Outcome)
  {
    && (outcome == NotRunning <==> !env.running)
    && (outcome == NoTypeRegistry <==> env.running && !env.typeRegistry)
    && (outcome == BadTimeout <==> env.running && env.typeRegistry && !env.timeoutPositive)
    && (outcome.Rejected? <==> env.running && env.typeRegistry && env.timeoutPositive && found != {})
    && (outcome.Rejected? ==> Elements(outcome.diagnostics) == found)
    && (outcome == Committed || outcome.TransactionFailed? <==>
        env.running && env.typeRegistry && env.timeoutPositive && found == {})
    && (outcome == Committed ==> Invoked(env.invocation) && env.namespaceKnown)
  }

  lemma RefusedRightly(found: set<Diagnostic>, env: Environment, outcome: Outcome)
    requires !env.running || !env.typeRegistry || !env.timeoutPositive
    requires outcome == if !env.running then NotRunning else if !env.typeRegistry then NoTypeRegistry else BadTimeout
    ensures RightForNew(found, env, outcome)
  {
  }

  /** The answer to a publication by the state that it is admitted in. */
  ghost predicate RightAnswer(s: ModelState, name: Bytes, instance: InstanceId, mode: Mode, effective: set<Bytes>,
                              planned: set<Diagnostic>, found: set<Diagnostic>, env: Environment, outcome: Outcome)
  {
    if name in s.components then RightForKnown(s.components[name], instance, mode, effective, planned, outcome)
    else RightForNew(found, env, outcome)
  }

  /** Nothing else that a model goes through in between changes the answer, or what is committed. */
  lemma AnswerOfAdmission(s: ModelState, admitted: ModelState, name: Bytes, instance: InstanceId, mode: Mode,
                          effective: set<Bytes>, planned: set<Diagnostic>, found: set<Diagnostic>, env: Environment,
                          outcome: Outcome)
    requires s.components == admitted.components
    ensures RightAnswer(s, name, instance, mode, effective, planned, found, env, outcome)
            == RightAnswer(admitted, name, instance, mode, effective, planned, found, env, outcome)
  {
  }

  lemma CommittedSinceAdmission(s: ModelState, admitted: ModelState, answered: ModelState, t: ModelState, name: Bytes,
                                instance: InstanceId, mode: Mode, effective: set<Bytes>, root: ServiceId,
                                live: LiveMap, resources: Resources)
    requires admitted.components == s.components && admitted.revision == s.revision && admitted.shut == s.shut
    requires s.closed ==> admitted.closed
    requires t == answered.(publishing := t.publishing)
    ensures CommittedAs(admitted, answered, name, instance, mode, effective, root, live, resources) ==>
              CommittedAs(s, t, name, instance, mode, effective, root, live, resources)
              && name in t.components && name !in s.components
  {
    hide Published;
  }

  /** The selection is clean and nothing is discovered twice. */
  ghost predicate CleanPlan(mandatory: seq<Mandatory>, mode: Mode, discovered: InventoryState, selectors: set<Bytes>)
  {
    && discovered.duplicates == []
    && Clean(RequiredPaths(mandatory), mode, ComponentInventory(discovered.resources, []), selectors)
  }

  /** The plan is clean and every effective resource can be mapped. */
  ghost predicate Publishable(mandatory: seq<Mandatory>, mode: Mode, discovered: InventoryState,
                              selectors: set<Bytes>, live: LiveMap, effective: set<Bytes>)
  {
    && CleanPlan(mandatory, mode, discovered, selectors)
    && AllMapped(mandatory, live, discovered.resources, effective)
  }

  /** What is reported of a plan, and of all that a publication looks at. */
  ghost function PlanReasons(mandatory: seq<Mandatory>, mode: Mode, discovered: InventoryState, selectors: set<Bytes>)
    : set<Diagnostic>
  {
    PlanFindings(mandatory, mode, ComponentInventory(discovered.resources, DuplicateDiagnostics(discovered.duplicates)),
                 selectors)
  }

  ghost function Reasons(mandatory: seq<Mandatory>, mode: Mode, discovered: InventoryState, selectors: set<Bytes>,
                         live: LiveMap, effective: set<Bytes>): set<Diagnostic>
  {
    PlanReasons(mandatory, mode, discovered, selectors) + Obstacles(mandatory, live, discovered.resources, effective)
  }

  /** There is no reason against a component exactly when it is publishable. */
  lemma NoReasons(mandatory: seq<Mandatory>, mode: Mode, discovered: InventoryState,
                  selectors: set<Bytes>, live: LiveMap, effective: set<Bytes>)
    requires effective <= discovered.resources.Keys
    ensures PlanReasons(mandatory, mode, discovered, selectors) == {} <==>
            CleanPlan(mandatory, mode, discovered, selectors)
    ensures Reasons(mandatory, mode, discovered, selectors, live, effective) == {} <==>
            Publishable(mandatory, mode, discovered, selectors, live, effective)
  {
    hide PlanFindings, CanBeMapped, Obstacle;
    var resources := discovered.resources;
    CleanFindsNothing(mandatory, mode, ComponentInventory(resources, DuplicateDiagnostics(discovered.duplicates)),
                      selectors);
    forall p | p in effective && !CanBeMapped(mandatory, live, resources[p])
      ensures Obstacles(mandatory, live, resources, effective) != {}
    {
      assert Obstacle(mandatory, resources[p]) in Obstacles(mandatory, live, resources, effective);
    }
  }

  /** The new entry is the snapshot of the planned resources. */
  ghost predicate CommittedAs(s: ModelState, t: ModelState, name: Bytes, instance: InstanceId, mode: Mode,
                              effective: set<Bytes>, root: ServiceId, live: LiveMap, resources: Resources)
  {
    && name in t.components
    && var c := t.components[name];
    && Publishes(s, t, name, c)
    && c.instance == instance && c.mode == mode && c.effective == effective
    && Published(name, root, live, resources, c.effective, c.nodes)
  }

  /** Nothing occupies the paths of this component. */
  ghost predicate RoomFor(name: Bytes, root: ServiceId, live: LiveMap, resources: Resources, effective: set<Bytes>,
                          present: set<ServerNodeId>)
  {
    OBJECTS_FOLDER in present
    && forall nodes :: IsSnapshot(name, root, live, resources, effective, nodes) ==> Unused(nodes, present)
  }

  lemma RoomIsBuildable(name: Bytes, root: ServiceId, live: LiveMap, resources: Resources, effective: set<Bytes>,
                        nodes: NodeMap, present: set<ServerNodeId>)
    requires Published(name, root, live, resources, effective, nodes)
    ensures RoomFor(name, root, live, resources, effective, present) ==> Buildable(nodes, present)
  {
    hide IsSnapshot, Sound, Rooted, Unused;
    SnapshotIsRooted(name, root, live, resources, effective, nodes);
  }

  /** The address space grew by the candidate's nodes and at most the shared roots. */
  ghost predicate BuiltOn(nodes0: set<ServerNodeId>, present: set<ServerNodeId>, nodes: NodeMap,
                          created: set<ServerNodeId>)
  {
    && created !! nodes0 + RootIds()
    && nodes0 + RootIds() + created == present
    && PathIds(nodes.Keys) <= created
  }

  ghost predicate Buildable(nodes: NodeMap, present: set<ServerNodeId>)
  {
    OBJECTS_FOLDER in present && Rooted(nodes) && Unused(nodes, present)
  }

  lemma BuiltIncludes(refs: set<Reference>, arguments: map<ServerNodeId, ArgumentKind>, nodes: NodeMap,
                      created: set<ServerNodeId>)
    requires Built(refs, arguments, nodes, nodes.Keys, created)
    ensures PathIds(nodes.Keys) <= created
  {
  }

  lemma RootsKnown()
    ensures PathId(ComponentsPath()) in RootIds()
  {
  }

  /** Nothing went wrong around a call before it was, if at all, undone. */
  ghost predicate Undisturbed(env: Environment, undo: Undo, faults0: nat)
  {
    Invoked(env.invocation) && env.namespaceKnown && undo.faults == faults0
  }

  /** The rollback began during the call; others link new nodes only in a request that fails. */
  ghost predicate UndoExplained(space: Space, undo: Undo, faults0: nat)
    reads space
  {
    faults0 <= undo.faults <= space.faults && (undo.linked ==> undo.faults > faults0)
  }

  lemma NothingLedgered(nodes: set<ServerNodeId>, refs: set<Reference>)
    ensures Ledgered(nodes, refs, nodes, refs, [], {})
  {
    assert Created([]) == {};
  }

  lemma HostedMore(components: map<Bytes, PublishedComponent>, present: set<ServerNodeId>, more: set<ServerNodeId>)
    requires Hosted(components, present) && present <= more
    ensures Hosted(components, more)
  {
  }

  lemma HostedWith(components: map<Bytes, PublishedComponent>, present: set<ServerNodeId>, more: set<ServerNodeId>,
                   name: Bytes, c: PublishedComponent, created: set<ServerNodeId>)
    requires Hosted(components, present) && name !in components && BuiltOn(present, more, c.nodes, created)
    ensures Hosted(components[name := c], more)
  {
    hide RootIds;
    forall n, p | n in components && p in components[n].nodes ensures p !in c.nodes {
      assert PathId(p) in PathIds(components[n].nodes.Keys);
      assert p in c.nodes ==> PathId(p) in PathIds(c.nodes.Keys);
    }
  }

  ghost predicate Hosted(components: map<Bytes, PublishedComponent>, present: set<ServerNodeId>)
  {
    && (forall n :: n in components ==> PathIds(components[n].nodes.Keys) <= present)
    && forall m, n :: m in components && n in components && m != n ==>
         components[m].nodes.Keys !! components[n].nodes.Keys
  }
}
