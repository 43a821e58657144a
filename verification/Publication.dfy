/**
  Creating the nodes of a component (createCandidate and ensureRoots in
  src/object_model.cpp). Every node that comes into being is on the ledger, which is what
  lets a rollback undo a publication that fails half way.
 */
module Publication {
  import opened Ordering
  import opened ResourcePaths
  import opened Snapshot
  import opened SnapshotTree
  import opened AddressSpace
  import opened Cascades

  // ---------------------------------------------------------------- the ledger

  /**
    Since the address space was (nodes0, refs0), exactly the nodes of the ledger and the
    strays were added, and references only at them.
   */
  ghost predicate Ledgered(nodes0: set<ServerNodeId>, refs0: set<Reference>, nodes: set<ServerNodeId>, refs: set<Reference>,
                           ledger: seq<CreatedNode>, strays: set<ServerNodeId>)
  {
    && nodes0 <= nodes
    && nodes - nodes0 == Created(ledger) + strays
    && Created(ledger) !! strays
    && DistinctLedger(ledger)
    && refs0 <= refs
    && forall r :: r in refs && r !in refs0 ==>
         r.source in Created(ledger) + strays || r.target in Created(ledger) + strays
  }

  lemma LedgerGrows(ledger: seq<CreatedNode>, c: CreatedNode)
    ensures Created(ledger + [c]) == Created(ledger) + {c.id}
    ensures DistinctLedger(ledger) && c.id !in Created(ledger) ==> DistinctLedger(ledger + [c])
  {
    var longer := ledger + [c];
    assert forall x :: x in longer <==> x in ledger || x == c;
    assert forall i :: 0 <= i < |ledger| ==> ledger[i] in ledger;
  }

  // ------------------------------------------------------------------ creation

  /** A node creator: the node may not come into being, or come into being and still fail. */
  method CreateNode(space: Space, path: Bytes, spec: NodeSpec) returns (ready: bool, created: bool)
    requires ProperReferences(space.nodes, space.refs)
    modifies space
    ensures ProperReferences(space.nodes, space.refs)
    ensures created ==>
              && PathId(path) !in old(space.nodes) && PathId(spec.parent) in old(space.nodes)
              && space.nodes == old(space.nodes) + {PathId(path)}
              && space.arguments == old(space.arguments) - {PathId(path)}
    ensures !created ==>
              space.nodes == old(space.nodes) && space.refs == old(space.refs) && space.arguments == old(space.arguments)
    ensures old(space.refs) <= space.refs && (created ==> ParentReference(path, spec) in space.refs)
    ensures forall r :: r in space.refs && r !in old(space.refs) ==>
              r == ParentReference(path, spec) || (r.source == PathId(path) && !IsArgument(space.arguments, r))
    ensures space.faults >= old(space.faults)
    ensures space.links >= old(space.links) && (space.faults == old(space.faults) ==> space.links == old(space.links))
    ensures space.links == old(space.links) && created ==> space.refs == old(space.refs) + {ParentReference(path, spec)}
    ensures space.faults == old(space.faults) && PathId(path) !in old(space.nodes) && PathId(spec.parent) in old(space.nodes)
            ==> ready && created && space.refs == old(space.refs) + {ParentReference(path, spec)}
  {
    created := false;
    var encoded := space.Attempt();
    if !encoded {
      return false, false;
    }
    var result := space.AddNode(PathId(path), PathId(spec.parent), ReferenceOf(spec.link));
    if result != Good {
      return false, false;
    }
    created := true;
    ready := space.Attempt();
  }

  function ReferenceOf(link: Link): ReferenceKind
  {
    if link.AsProperty? then HasProperty else HasComponent
  }

  function ParentReference(path: Bytes, spec: NodeSpec): Reference
  {
    Reference(PathId(spec.parent), PathId(path), ReferenceOf(spec.link), true)
  }

  predicate ExpectsInputs(spec: NodeSpec)
  {
    spec.content.Callable? && spec.content.inputs != []
  }

  predicate ExpectsOutputs(spec: NodeSpec)
  {
    spec.content.Callable? && spec.content.outputs != []
  }

  /** The argument nodes that browsing finds, and whether there was anything else. */
  method CollectArguments(arguments: map<ServerNodeId, ArgumentKind>, list: seq<Reference>, ledger: seq<CreatedNode>)
    returns (longer: seq<CreatedNode>, unexpected: bool)
    requires NoDuplicates(list) && forall i, j :: 0 <= i < |list| && 0 <= j < |list| ==> list[i].source == list[j].source
    ensures ledger <= longer && Created(longer) == Created(ledger) + ArgumentTargets(arguments, list)
    ensures DistinctLedger(ledger) && Created(ledger) !! ArgumentTargets(arguments, list) ==> DistinctLedger(longer)
    ensures !unexpected <==> forall r :: r in list && r.kind == HasProperty ==> IsArgument(arguments, r)
  {
    longer, unexpected := ledger, false;
    for i := 0 to |list|
      invariant ledger <= longer && Created(longer) == Created(ledger) + ArgumentTargets(arguments, list[..i])
      invariant DistinctLedger(ledger) && Created(ledger) !! ArgumentTargets(arguments, list) ==> DistinctLedger(longer)
      invariant !unexpected <==> forall r :: r in list[..i] && r.kind == HasProperty ==> IsArgument(arguments, r)
    {
      var r := list[i];
      TakeMore(list, i);
      if r.kind != HasProperty {
        continue;
      }
      if !IsArgument(arguments, r) {
        unexpected := true;
        continue;
      }
      LedgerGrows(longer, CreatedNode(r.target, false));
      ArgumentIsNew(arguments, list, i);
      longer := longer + [CreatedNode(r.target, false)];
    }
    TakeAll(list);
  }

  ghost function ArgumentTargets(arguments: map<ServerNodeId, ArgumentKind>, list: seq<Reference>): set<ServerNodeId>
  {
    set r | r in list && IsArgument(arguments, r) :: r.target
  }

  lemma ArgumentIsNew(arguments: map<ServerNodeId, ArgumentKind>, list: seq<Reference>, i: nat)
    requires NoDuplicates(list) && forall i, j :: 0 <= i < |list| && 0 <= j < |list| ==> list[i].source == list[j].source
    requires i < |list| && IsArgument(arguments, list[i])
    ensures list[i].target !in ArgumentTargets(arguments, list[..i])
    ensures list[i].target in ArgumentTargets(arguments, list)
    ensures ArgumentTargets(arguments, list[..i + 1]) == ArgumentTargets(arguments, list[..i]) + {list[i].target}
  {
    TakeMore(list, i);
    assert list[i] in list;
    forall r | r in list[..i] && IsArgument(arguments, r) ensures r.target != list[i].target {
      var j :| 0 <= j < i && list[j] == r;
      assert list[j] != list[i];
    }
  }

  /** Checks that what was found is exactly what the method's schema calls for. */
  method CheckArguments(arguments: map<ServerNodeId, ArgumentKind>, list: seq<Reference>, inputs: bool, outputs: bool)
    returns (ok: bool)
    requires forall r :: r in list && r.kind == HasProperty ==> IsArgument(arguments, r)
    requires NoDuplicates(list) && forall i, j :: 0 <= i < |list| && 0 <= j < |list| ==> list[i].source == list[j].source
    ensures ok <==> ArgumentsComplete(arguments, ArgumentTargets(arguments, list), inputs, outputs)
  {
    var seen: map<ArgumentKind, ServerNodeId> := map[];
    for i := 0 to |list|
      invariant SeenArguments(arguments, ArgumentTargets(arguments, list[..i]), seen, inputs, outputs)
    {
      var r := list[i];
      TakeMore(list, i);
      assert r in list;
      if r.kind != HasProperty {
        continue;
      }
      ArgumentIsNew(arguments, list, i);
      var kind := arguments[r.target];
      var expected := match kind case InputArguments => inputs case OutputArguments => outputs;
      ghost var all := ArgumentTargets(arguments, list);
      if !expected {
        return false;
      }
      if kind in seen {
        assert seen[kind] in ArgumentTargets(arguments, list[..i]);
        assert seen[kind] in all && r.target in all && arguments[seen[kind]] == arguments[r.target];
        return false;
      }
      seen := seen[kind := r.target];
    }
    TakeAll(list);
    return (inputs ==> InputArguments in seen) && (outputs ==> OutputArguments in seen);
  }

  ghost predicate SeenArguments(arguments: map<ServerNodeId, ArgumentKind>, ids: set<ServerNodeId>,
                                seen: map<ArgumentKind, ServerNodeId>, inputs: bool, outputs: bool)
  {
    && (forall a :: a in ids ==> a in arguments && arguments[a] in seen && seen[arguments[a]] == a)
    && (forall k :: k in seen ==> seen[k] in ids && seen[k] in arguments && arguments[seen[k]] == k)
    && (InputArguments in seen ==> inputs)
    && (OutputArguments in seen ==> outputs)
  }

  /** Puts the argument nodes of a new method on the ledger; if they cannot be browsed they are strays. */
  method RecordMethodArguments(space: Space, id: ServerNodeId, spec: NodeSpec, ledger: seq<CreatedNode>)
    returns (ok: bool, longer: seq<CreatedNode>, ghost strays: set<ServerNodeId>)
    requires id in space.nodes
    modifies space`faults
    ensures var added := ArgumentsOf(space.refs, space.arguments, id);
            && ledger <= longer
            && Created(longer) == Created(ledger) + (added - strays)
            && (strays == {} || (strays == added && longer == ledger && !ok))
            && (DistinctLedger(ledger) && Created(ledger) !! added ==> DistinctLedger(longer))
            && (ok ==> ArgumentsComplete(space.arguments, added, ExpectsInputs(spec), ExpectsOutputs(spec)))
            && (space.faults == old(space.faults)
                && ArgumentsComplete(space.arguments, added, ExpectsInputs(spec), ExpectsOutputs(spec))
                && (forall r :: r in space.refs && r.source == id && r.kind == HasProperty ==> IsArgument(space.arguments, r))
                ==> ok)
    ensures space.faults >= old(space.faults) && (space.faults == old(space.faults) ==> strays == {})
    ensures strays <= space.arguments.Keys
  {
    var references := space.Browse(id);
    if references.None? {
      return false, ledger, ArgumentsOf(space.refs, space.arguments, id);
    }
    strays := {};
    var list := references.value;
    assert forall r :: r in list <==> r in Elements(list);
    assert ArgumentTargets(space.arguments, list) == ArgumentsOf(space.refs, space.arguments, id);
    assert forall i :: 0 <= i < |list| ==> list[i] in list;
    var unexpected;
    longer, unexpected := CollectArguments(space.arguments, list, ledger);
    if unexpected {
      return false, longer, {};
    }
    var complete := CheckArguments(space.arguments, list, ExpectsInputs(spec), ExpectsOutputs(spec));
    if !complete {
      return false, longer, {};
    }
    ok := space.Attempt();
  }

  /** What creating one more node may change about the nodes that were there. */
  ghost predicate OthersKept(nodes: set<ServerNodeId>, refs: set<Reference>, arguments: map<ServerNodeId, ArgumentKind>,
                             refs': set<Reference>, arguments': map<ServerNodeId, ArgumentKind>)
  {
    forall n :: n in nodes ==>
      && (n in arguments' <==> n in arguments)
      && (n in arguments ==> arguments'[n] == arguments[n])
      && ArgumentsOf(refs', arguments', n) == ArgumentsOf(refs, arguments, n)
  }

  lemma NewNodeKeepsOthers(nodes: set<ServerNodeId>, refs: set<Reference>, arguments: map<ServerNodeId, ArgumentKind>,
                           refs': set<Reference>, arguments': map<ServerNodeId, ArgumentKind>, id: ServerNodeId)
    requires ProperReferences(nodes, refs) && id !in nodes && refs <= refs' && id !in arguments'
    requires forall r :: r in refs' && r !in refs ==> r.source == id || r.target == id
    requires forall n :: n in nodes ==>
               (n in arguments' <==> n in arguments) && (n in arguments ==> arguments'[n] == arguments[n])
    ensures OthersKept(nodes, refs, arguments, refs', arguments')
  {
    forall n | n in nodes ensures ArgumentsOf(refs', arguments', n) == ArgumentsOf(refs, arguments, n) {
      forall r | r in refs' && r.source == n ensures IsArgument(arguments', r) <==> r in refs && IsArgument(arguments, r) {
      }
    }
  }

  lemma NewNodeHasNoArguments(nodes: set<ServerNodeId>, refs: set<Reference>, refs': set<Reference>,
                              arguments': map<ServerNodeId, ArgumentKind>, id: ServerNodeId)
    requires ProperReferences(nodes, refs) && id !in nodes
    requires forall r :: r in refs' && r !in refs ==> r.source != id || !IsArgument(arguments', r)
    ensures forall r :: r in refs' && r.source == id ==> !IsArgument(arguments', r)
  {
  }

  /** Entries are added to the ledger, and references to their nodes, none of them backwards. */
  lemma ForwardMore(nodes: set<ServerNodeId>, refs: set<Reference>, ledger: seq<CreatedNode>, refs': set<Reference>,
                    longer: seq<CreatedNode>)
    requires ProperReferences(nodes, refs) && Forward(refs, ledger) && ledger <= longer
    requires forall k :: |ledger| <= k < |longer| ==> longer[k].id !in nodes
    requires forall r, i, j ::
      (r in refs' && r !in refs && 0 <= i < |longer| && 0 <= j < |longer|
       && longer[i].id == r.source && longer[j].id == r.target) ==> i <= j
    ensures Forward(refs', longer)
  {
    forall r, i, j | r in refs' && r.local && 0 <= i < |longer| && 0 <= j < |longer|
                     && longer[i].id == r.source && longer[j].id == r.target
      ensures i <= j
    {
      if r in refs {
        assert i < |ledger| && j < |ledger|;
        assert ledger[i] == longer[i] && ledger[j] == longer[j];
      }
    }
  }

  lemma LaterEntryDiffers(ledger: seq<CreatedNode>, longer: seq<CreatedNode>, k: nat)
    requires ledger <= longer && DistinctLedger(longer) && |ledger| <= k < |longer|
    ensures longer[k].id !in Created(ledger)
  {
    forall c | c in ledger ensures c.id != longer[k].id {
      var m :| 0 <= m < |ledger| && ledger[m] == c;
      assert longer[m] == c;
    }
  }

  /** A method's arguments come after it. */
  lemma ForwardArguments(nodes: set<ServerNodeId>, refs: set<Reference>, ledger: seq<CreatedNode>, refs': set<Reference>,
                         longer: seq<CreatedNode>, id: ServerNodeId, added: set<ServerNodeId>, strays: set<ServerNodeId>)
    requires ProperReferences(nodes, refs) && Forward(refs, ledger) && ledger <= longer && DistinctLedger(longer)
    requires ledger != [] && ledger[|ledger| - 1].id == id && Created(ledger) <= nodes
    requires added !! nodes && Created(longer) == Created(ledger) + (added - strays)
    requires forall r :: r in refs' && r !in refs ==> r.source == id && r.target in added
    ensures Forward(refs', longer)
  {
    var last := |ledger| - 1;
    assert longer[last] == ledger[last];
    forall k | |ledger| <= k < |longer| ensures longer[k].id !in nodes {
      EntryIsCreated(longer, k);
      LaterEntryDiffers(ledger, longer, k);
    }
    forall j | 0 <= j < |ledger| ensures longer[j].id in nodes {
      EntryIsCreated(ledger, j);
      assert ledger[j] == longer[j];
    }
    forall r, i, j | r in refs' && r !in refs && 0 <= i < |longer| && 0 <= j < |longer|
                     && longer[i].id == r.source && longer[j].id == r.target
      ensures i <= j
    {
      assert i == last;
    }
    ForwardMore(nodes, refs, ledger, refs', longer);
  }

  /** A new method gets its arguments, and they are put on the ledger. */
  method AddAndRecordArguments(space: Space, id: ServerNodeId, spec: NodeSpec, ledger: seq<CreatedNode>,
                               ghost nodes0: set<ServerNodeId>, ghost refs0: set<Reference>)
    returns (recorded: bool, longer: seq<CreatedNode>, ghost strays: set<ServerNodeId>)
    requires ProperReferences(space.nodes, space.refs) && id in space.nodes
    requires forall r :: r in space.refs && r.source == id ==> !IsArgument(space.arguments, r)
    requires Ledgered(nodes0, refs0, space.nodes, space.refs, ledger, {})
    modifies space
    ensures ProperReferences(space.nodes, space.refs)
    ensures Ledgered(nodes0, refs0, space.nodes, space.refs, longer, strays)
    ensures recorded ==> strays == {}
    ensures var added := ArgumentsOf(space.refs, space.arguments, id);
            && added !! old(space.nodes) && space.nodes == old(space.nodes) + added
            && space.arguments.Keys == old(space.arguments).Keys + added
            && (forall n :: n in old(space.nodes) && n in space.arguments ==> space.arguments[n] == old(space.arguments)[n])
            && (recorded ==> ArgumentsComplete(space.arguments, added, ExpectsInputs(spec), ExpectsOutputs(spec)))
            && (space.faults == old(space.faults) && NoProperties(old(space.refs), id) ==>
                  recorded && forall n :: n in added ==> n.AssignedId?)
    ensures old(space.refs) <= space.refs && forall r :: r in space.refs && r !in old(space.refs) ==> r.source == id
    ensures StraysExplained(space, strays, old(space.faults))
    ensures space.links == old(space.links)
    ensures Forward(old(space.refs), ledger) && ledger != [] && ledger[|ledger| - 1].id == id ==>
              Forward(space.refs, longer)
  {
    ghost var added := space.AddArguments(id, ExpectsInputs(spec), ExpectsOutputs(spec));
    recorded, longer, strays := RecordMethodArguments(space, id, spec, ledger);
    if Forward(old(space.refs), ledger) && ledger != [] && ledger[|ledger| - 1].id == id {
      ForwardArguments(old(space.nodes), old(space.refs), ledger, space.refs, longer, id, added, strays);
    }
  }

  /** Only arguments of methods can go astray, and only when the address space is at fault. */
  ghost predicate StraysExplained(space: Space, strays: set<ServerNodeId>, faults0: nat)
    reads space
  {
    strays <= space.arguments.Keys && space.faults >= faults0 && (space.faults == faults0 ==> strays == {})
  }

  ghost predicate NoProperties(refs: set<Reference>, id: ServerNodeId)
  {
    forall r :: r in refs && r.source == id ==> r.kind != HasProperty
  }

  /** One turn of createCandidate's loop. */
  method CreateAndRecord(space: Space, path: Bytes, spec: NodeSpec, recursive: bool, ledger0: seq<CreatedNode>,
                         ghost nodes0: set<ServerNodeId>, ghost refs0: set<Reference>)
    returns (ok: bool, ledger: seq<CreatedNode>, ghost strays: set<ServerNodeId>)
    requires ProperReferences(space.nodes, space.refs)
    requires Ledgered(nodes0, refs0, space.nodes, space.refs, ledger0, {})
    modifies space
    ensures ProperReferences(space.nodes, space.refs)
    ensures Ledgered(nodes0, refs0, space.nodes, space.refs, ledger, strays)
    ensures ok ==>
              && strays == {}
              && PathId(path) !in old(space.nodes) && PathId(spec.parent) in old(space.nodes)
              && space.nodes == old(space.nodes) + {PathId(path)} + NewArguments(space, path, spec)
              && NewArguments(space, path, spec) !! old(space.nodes)
              && (spec.class_.MethodNode? ==>
                    ArgumentsComplete(space.arguments, NewArguments(space, path, spec),
                                      ExpectsInputs(spec), ExpectsOutputs(spec)))
              && OthersKept(old(space.nodes), old(space.refs), old(space.arguments), space.refs, space.arguments)
              && ParentReference(path, spec) in space.refs
    ensures old(space.refs) <= space.refs
    ensures StraysExplained(space, strays, old(space.faults))
    ensures space.links >= old(space.links) && (space.faults == old(space.faults) ==> space.links == old(space.links))
    ensures Forward(old(space.refs), ledger0) && space.links == old(space.links) ==> Forward(space.refs, ledger)
    ensures space.faults == old(space.faults) && PathId(path) !in old(space.nodes) && PathId(spec.parent) in old(space.nodes)
            ==> ok && forall n :: n in space.nodes - old(space.nodes) ==> n == PathId(path) || n.AssignedId?
  {
    hide ArgumentsOf, ArgumentsComplete, OthersKept, ExpectsInputs, ExpectsOutputs, Forward;
    ledger, strays := ledger0, {};
    var id := PathId(path);
    var primary := CreatedNode(id, recursive);
    var ready, created := CreateNode(space, path, spec);
    if !created {
      return false, ledger, {};
    }
    LedgerGrows(ledger, primary);
    ledger := ledger + [primary];
    if Forward(old(space.refs), ledger0) && space.links == old(space.links) {
      ForwardMore(old(space.nodes), old(space.refs), ledger0, space.refs, ledger);
    }
    NewNodeHasNoArguments(old(space.nodes), old(space.refs), space.refs, space.arguments, id);
    if spec.class_.MethodNode? {
      var recorded;
      recorded, ledger, strays := AddAndRecordArguments(space, id, spec, ledger, nodes0, refs0);
      if !recorded {
        return false, ledger, strays;
      }
    }
    NewNodeKeepsOthers(old(space.nodes), old(space.refs), old(space.arguments), space.refs, space.arguments, id);
    return ready, ledger, {};
  }

  ghost function NewArguments(space: Space, path: Bytes, spec: NodeSpec): set<ServerNodeId>
    reads space
  {
    if spec.class_.MethodNode? then ArgumentsOf(space.refs, space.arguments, PathId(path)) else {}
  }

  // ---------------------------------------------------------- the whole candidate

  ghost function PathIds(paths: set<Bytes>): set<ServerNodeId>
  {
    set p | p in paths :: PathId(p)
  }

  /** Exactly the nodes `done`, below their parents, and the arguments that their schemas call for have been created. */
  ghost predicate Built(refs: set<Reference>, arguments: map<ServerNodeId, ArgumentKind>, nodes: NodeMap,
                        done: set<Bytes>, created: set<ServerNodeId>)
  {
    && done <= nodes.Keys
    && (forall p :: p in done ==> PathId(p) in created)
    && (forall p :: p in done ==>
          Reference(PathId(nodes[p].parent), PathId(p), if nodes[p].link == AsProperty then HasProperty else HasComponent,
                    true) in refs)
    && (forall p :: p in done && nodes[p].class_.MethodNode? ==>
          && ArgumentsOf(refs, arguments, PathId(p)) <= created
          && ArgumentsComplete(arguments, ArgumentsOf(refs, arguments, PathId(p)),
                               nodes[p].content.Callable? && nodes[p].content.inputs != [],
                               nodes[p].content.Callable? && nodes[p].content.outputs != []))
    && forall n :: n in created ==> n in PathIds(done) || IsArgumentOfOne(refs, arguments, nodes, done, n)
  }

  ghost predicate IsArgumentOfOne(refs: set<Reference>, arguments: map<ServerNodeId, ArgumentKind>, nodes: NodeMap,
                                  done: set<Bytes>, n: ServerNodeId)
  {
    exists p :: p in done && p in nodes && nodes[p].class_.MethodNode? && n in ArgumentsOf(refs, arguments, PathId(p))
  }

  lemma NothingBackward(refs: set<Reference>)
    ensures Forward(refs, [])
  {
  }

  lemma ArgumentsAgree(arguments: map<ServerNodeId, ArgumentKind>, arguments': map<ServerNodeId, ArgumentKind>,
                       ids: set<ServerNodeId>, inputs: bool, outputs: bool)
    requires ArgumentsComplete(arguments, ids, inputs, outputs)
    requires forall n :: n in ids ==> n in arguments' && (n in arguments ==> arguments'[n] == arguments[n])
    ensures ArgumentsComplete(arguments', ids, inputs, outputs)
  {
    if inputs {
      var a :| a in ids && a in arguments && arguments[a] == InputArguments;
      assert arguments'[a] == InputArguments;
    }
    if outputs {
      var a :| a in ids && a in arguments && arguments[a] == OutputArguments;
      assert arguments'[a] == OutputArguments;
    }
  }

  lemma BuiltMore(refs: set<Reference>, arguments: map<ServerNodeId, ArgumentKind>, refs': set<Reference>,
                  arguments': map<ServerNodeId, ArgumentKind>, nodes: NodeMap, done: set<Bytes>, p: Bytes,
                  present: set<ServerNodeId>, created: set<ServerNodeId>, fresh_: set<ServerNodeId>)
    requires Built(refs, arguments, nodes, done, created) && created <= present && p in nodes
    requires OthersKept(present, refs, arguments, refs', arguments')
    requires refs <= refs' && ParentReference(p, nodes[p]) in refs'
    requires fresh_ == if nodes[p].class_.MethodNode? then ArgumentsOf(refs', arguments', PathId(p)) else {}
    requires nodes[p].class_.MethodNode? ==>
               ArgumentsComplete(arguments', fresh_, ExpectsInputs(nodes[p]), ExpectsOutputs(nodes[p]))
    ensures Built(refs', arguments', nodes, done + {p}, created + {PathId(p)} + fresh_)
  {
    hide ArgumentsOf, ArgumentsComplete;
    forall q | q in done && nodes[q].class_.MethodNode?
      ensures ArgumentsOf(refs', arguments', PathId(q)) == ArgumentsOf(refs, arguments, PathId(q))
      ensures ArgumentsComplete(arguments', ArgumentsOf(refs', arguments', PathId(q)),
                                ExpectsInputs(nodes[q]), ExpectsOutputs(nodes[q]))
    {
      assert PathId(q) in present;
      var ids := ArgumentsOf(refs, arguments, PathId(q));
      TargetsAreArguments(refs, arguments, PathId(q));
      ArgumentsAgree(arguments, arguments', ids, ExpectsInputs(nodes[q]), ExpectsOutputs(nodes[q]));
    }
    forall n | n in created + {PathId(p)} + fresh_
      ensures n in PathIds(done + {p}) || IsArgumentOfOne(refs', arguments', nodes, done + {p}, n)
    {
      if n in created && n !in PathIds(done) {
        var q :| q in done && q in nodes && nodes[q].class_.MethodNode? && n in ArgumentsOf(refs, arguments, PathId(q));
        assert n in ArgumentsOf(refs', arguments', PathId(q));
      } else if n in fresh_ {
        assert p in done + {p} && n in ArgumentsOf(refs', arguments', PathId(p));
      }
    }
  }

  lemma NothingBuilt(refs: set<Reference>, arguments: map<ServerNodeId, ArgumentKind>, nodes: NodeMap,
                     nodes0: set<ServerNodeId>)
    ensures Built(refs, arguments, nodes, {}, nodes0 - nodes0)
    ensures OnlyExpected({}, nodes0, nodes0)
    ensures PathIds({}) == {}
  {
  }

  lemma TargetsAreArguments(refs: set<Reference>, arguments: map<ServerNodeId, ArgumentKind>, id: ServerNodeId)
    ensures forall n :: n in ArgumentsOf(refs, arguments, id) ==> n in arguments
  {
  }

  /** Every parent but the shared components node is one of the nodes, and less deep. */
  ghost predicate Rooted(nodes: NodeMap)
  {
    forall p :: p in nodes ==>
      || nodes[p].parent == ComponentsPath()
      || (nodes[p].parent in nodes && PathDepth(nodes[p].parent) < PathDepth(p))
  }

  /** Nothing stands in the way of creating these nodes. */
  ghost predicate Plantable(nodes: NodeMap, present: set<ServerNodeId>)
  {
    Rooted(nodes) && PathIds(nodes.Keys) !! present && PathId(ComponentsPath()) in present
  }

  lemma ParentIsThere(nodes: NodeMap, order: seq<Bytes>, i: nat, nodes0: set<ServerNodeId>, present: set<ServerNodeId>)
    requires StrictlySorted(DepthLess, order) && Elements(order) == nodes.Keys && i < |order|
    requires Plantable(nodes, nodes0) && nodes0 <= present && PathIds(Elements(order[..i])) <= present
    requires order[i] in nodes
    ensures PathId(nodes[order[i]].parent) in present
  {
    hide PathDepth, ComponentsPath;
    var parent := nodes[order[i]].parent;
    if parent != ComponentsPath() {
      assert parent in Elements(order);
      var j :| 0 <= j < |order| && order[j] == parent;
      ShallowerIsEarlier(order, i, j);
      assert order[..i][j] == parent;
      assert PathId(parent) in PathIds(Elements(order[..i]));
    }
  }

  /** What was created bears an expected path or an id of the server's own. */
  ghost predicate OnlyExpected(done: set<Bytes>, nodes0: set<ServerNodeId>, present: set<ServerNodeId>)
  {
    forall n :: n in present - nodes0 ==> n in PathIds(done) || n.AssignedId?
  }

  lemma OnlyExpectedMore(done: set<Bytes>, path: Bytes, nodes0: set<ServerNodeId>, present: set<ServerNodeId>,
                         present': set<ServerNodeId>)
    requires OnlyExpected(done, nodes0, present)
    requires forall n :: n in present' - present ==> n == PathId(path) || n.AssignedId?
    ensures OnlyExpected(done + {path}, nodes0, present')
  {
    assert PathIds(done + {path}) == PathIds(done) + {PathId(path)};
  }

  lemma NotThereYet(nodes: NodeMap, order: seq<Bytes>, i: nat, nodes0: set<ServerNodeId>, present: set<ServerNodeId>)
    requires StrictlySorted(DepthLess, order) && Elements(order) == nodes.Keys && i < |order|
    requires Plantable(nodes, nodes0) && order[i] in nodes
    requires OnlyExpected(Elements(order[..i]), nodes0, present)
    ensures PathId(order[i]) !in present
  {
    hide PathDepth, ComponentsPath;
    assert PathId(order[i]) in PathIds(nodes.Keys);
    if PathId(order[i]) in PathIds(Elements(order[..i])) {
      var p :| p in Elements(order[..i]) && PathId(p) == PathId(order[i]);
      var j :| 0 <= j < i && order[j] == p;
      ShallowerIsEarlier(order, i, j);
    }
  }

  lemma NextIsPlantable(refs: set<Reference>, arguments: map<ServerNodeId, ArgumentKind>, nodes: NodeMap,
                        order: seq<Bytes>, i: nat, nodes0: set<ServerNodeId>, present: set<ServerNodeId>)
    requires StrictlySorted(DepthLess, order) && Elements(order) == nodes.Keys && i < |order|
    requires Built(refs, arguments, nodes, Elements(order[..i]), present - nodes0) && nodes0 <= present
    requires order[i] in nodes
    ensures Plantable(nodes, nodes0) && OnlyExpected(Elements(order[..i]), nodes0, present) ==>
              PathId(nodes[order[i]].parent) in present && PathId(order[i]) !in present
  {
    hide Plantable, OnlyExpected;
    if Plantable(nodes, nodes0) && OnlyExpected(Elements(order[..i]), nodes0, present) {
      ParentIsThere(nodes, order, i, nodes0, present);
      NotThereYet(nodes, order, i, nodes0, present);
    }
  }

  lemma TurnDone(refs: set<Reference>, arguments: map<ServerNodeId, ArgumentKind>, refs': set<Reference>,
                 arguments': map<ServerNodeId, ArgumentKind>, nodes: NodeMap, order: seq<Bytes>, i: nat,
                 nodes0: set<ServerNodeId>, present: set<ServerNodeId>, present': set<ServerNodeId>,
                 added: set<ServerNodeId>)
    requires i < |order| && order[i] in nodes && nodes0 <= present
    requires Built(refs, arguments, nodes, Elements(order[..i]), present - nodes0)
    requires OthersKept(present, refs, arguments, refs', arguments')
    requires refs <= refs' && ParentReference(order[i], nodes[order[i]]) in refs'
    requires added == if nodes[order[i]].class_.MethodNode? then ArgumentsOf(refs', arguments', PathId(order[i])) else {}
    requires nodes[order[i]].class_.MethodNode? ==>
               ArgumentsComplete(arguments', added, ExpectsInputs(nodes[order[i]]), ExpectsOutputs(nodes[order[i]]))
    requires PathId(order[i]) !in present && added !! present && present' == present + {PathId(order[i])} + added
    requires PathIds(Elements(order[..i])) !! nodes0
    ensures Built(refs', arguments', nodes, Elements(order[..i + 1]), present' - nodes0)
    ensures PathIds(Elements(order[..i + 1])) !! nodes0
    ensures OnlyExpected(Elements(order[..i]), nodes0, present)
            && (forall n :: n in present' - present ==> n == PathId(order[i]) || n.AssignedId?) ==>
              OnlyExpected(Elements(order[..i + 1]), nodes0, present')
  {
    hide Built, OnlyExpected, OthersKept, ArgumentsComplete, ArgumentsOf, ExpectsInputs, ExpectsOutputs;
    TakeMore(order, i);
    BuiltMore(refs, arguments, refs', arguments', nodes, Elements(order[..i]), order[i], present, present - nodes0, added);
    assert present' - nodes0 == present - nodes0 + {PathId(order[i])} + added;
    assert PathIds(Elements(order[..i + 1])) == PathIds(Elements(order[..i])) + {PathId(order[i])};
    if OnlyExpected(Elements(order[..i]), nodes0, present)
       && forall n :: n in present' - present ==> n == PathId(order[i]) || n.AssignedId? {
      OnlyExpectedMore(Elements(order[..i]), order[i], nodes0, present, present');
    }
  }

  /**
    Creates the candidate's nodes, parents first. Success means exactly the candidate and its
    method arguments; failure leaves everything created on the ledger, save the arguments of
    a method that could not be browsed. Unless others link the new nodes elsewhere, every
    reference leads from an earlier to a later entry. Without faults, creation succeeds on
    fresh paths.
   */
  method CreateCandidate(space: Space, nodes: NodeMap, componentRoot: Bytes)
    returns (ok: bool, ledger: seq<CreatedNode>, ghost strays: set<ServerNodeId>)
    requires ProperReferences(space.nodes, space.refs)
    modifies space
    ensures ProperReferences(space.nodes, space.refs)
    ensures Ledgered(old(space.nodes), old(space.refs), space.nodes, space.refs, ledger, strays)
    ensures ok ==>
              && strays == {}
              && PathIds(nodes.Keys) !! old(space.nodes)
              && Built(space.refs, space.arguments, nodes, nodes.Keys, space.nodes - old(space.nodes))
    ensures StraysExplained(space, strays, old(space.faults))
    ensures space.links >= old(space.links) && (space.faults == old(space.faults) ==> space.links == old(space.links))
    ensures space.links == old(space.links) ==> Forward(space.refs, ledger)
    ensures space.faults == old(space.faults) && Plantable(nodes, old(space.nodes)) ==> ok
  {
    hide PathDepth, ComponentsPath, DepthLess, ArgumentsOf, ArgumentsComplete, IsArgumentOfOne, OthersKept, Rooted,
      Built, OnlyExpected, Plantable, ExpectsInputs, ExpectsOutputs, Forward;
    var keys := ListOf(nodes.Keys);
    DepthLessIsStrictTotalOrder();
    var order := SortUnique(DepthLess, keys);
    ghost var nodes0, refs0, faults0 := space.nodes, space.refs, space.faults;
    ledger, strays := [], {};
    assert Elements(order[..0]) == {};
    ghost var links0 := space.links;
    NothingBackward(space.refs);
    NothingBuilt(space.refs, space.arguments, nodes, nodes0);
    for i := 0 to |order|
      invariant ProperReferences(space.nodes, space.refs)
      invariant Ledgered(nodes0, refs0, space.nodes, space.refs, ledger, {})
      invariant Built(space.refs, space.arguments, nodes, Elements(order[..i]), space.nodes - nodes0)
      invariant PathIds(Elements(order[..i])) !! nodes0
      invariant space.links >= links0 && (space.faults == faults0 ==> space.links == links0)
      invariant space.links == links0 ==> Forward(space.refs, ledger)
      invariant space.faults >= faults0
      invariant space.faults == faults0 && Plantable(nodes, nodes0) ==>
                  OnlyExpected(Elements(order[..i]), nodes0, space.nodes)
    {
      var path := order[i];
      assert path in Elements(order);
      TakeMore(order, i);
      var spec := nodes[path];
      NextIsPlantable(space.refs, space.arguments, nodes, order, i, nodes0, space.nodes);
      ghost var present, refs1, arguments1 := space.nodes, space.refs, space.arguments;
      var created;
      created, ledger, strays := CreateAndRecord(space, path, spec, path == componentRoot || spec.class_.MethodNode?,
                                                 ledger, nodes0, refs0);
      if !created {
        return false, ledger, strays;
      }
      TurnDone(refs1, arguments1, space.refs, space.arguments, nodes, order, i, nodes0, present, space.nodes,
               NewArguments(space, path, spec));
    }
    TakeAll(order);
    return true, ledger, {};
  }
}
