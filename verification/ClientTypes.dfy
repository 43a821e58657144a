/**
  Which published components a client can stage when it knows the types of the server: a
  condition on what the server mapped, and a published operation that no client accepts.
 */
module ClientTypes {
  import opened Wrappers
  import opened Ordering
  import opened ResourcePaths
  import opened ServiceDiscovery
  import opened PublicationPlan
  import opened Snapshot
  import Calls = RemoteOperation
  import opened SnapshotTree
  import opened Staging
  import opened VisibleResources
  import opened StagingRoundTrip

  /** What a server with these types maps: `operations` are what it describes, and it has values of its types. */
  ghost predicate MappedWith(types: TypeRegistry, operations: map<Bytes, Calls.Operation>, live: LiveMap)
  {
    forall q :: q in live ==>
      match live[q]
      case LiveOperation(schema) => q in operations && schema == Calls.Described(operations[q], types)
      case LiveValue(typeName, hasValue, _) => hasValue == Calls.HasValue(types, typeName)
      case LivePort(typeName, hasValue, _, _, _, _) => hasValue == Calls.HasValue(types, typeName)
  }

  /** A property that can be assigned, an operation that collects its outputs in order, or anything else. */
  ghost predicate PlainToBuild(types: TypeRegistry, operations: map<Bytes, Calls.Operation>, live: LiveMap,
                               kind: ResourceKind, q: Bytes)
  {
    && (kind == Property ==> q in live && live[q].LiveValue? && live[q].assignable)
    && (kind == Operation ==> q in operations && Calls.CollectsInOrder(operations[q], types))
  }

  ghost predicate VisiblePlainToBuild(types: TypeRegistry, operations: map<Bytes, Calls.Operation>, live: LiveMap,
                                      resources: Resources, effective: set<Bytes>, names: seq<Bytes>)
  {
    forall q :: Visible(resources, effective, names, q) ==>
      PlainToBuild(types, operations, live, resources[q].kind, q)
  }

  lemma BuiltFromMapped(client: TypeRegistry, types: TypeRegistry, operations: map<Bytes, Calls.Operation>,
                        live: LiveMap, r: ResourceRecord)
    requires MappedWith(types, operations, live) && Calls.Serves(client, types) && Mappable(live, r)
    ensures CanBuildFrom(client, live, r.kind, r.path) <==> PlainToBuild(types, operations, live, r.kind, r.path)
  {
    hide Calls.CollectsInOrder, Calls.Acceptable, Calls.Described;
    if r.kind == Operation {
      Calls.DescriptionIsAccepted(operations[r.path], types, client);
    }
  }

  /**
    A client that knows the server's types can build what it sees exactly when every property
    among it can be assigned and every operation among it collects its outputs in order.
   */
  lemma TypesOfServerSuffice(client: TypeRegistry, types: TypeRegistry, operations: map<Bytes, Calls.Operation>,
                             c: Bytes, root: ServiceId, live: LiveMap, resources: Resources, effective: set<Bytes>,
                             nodes: NodeMap, names: seq<Bytes>)
    requires Published(c, root, live, resources, effective, nodes)
    requires MappedWith(types, operations, live) && Calls.Serves(client, types)
    ensures VisibleCanBeBuilt(client, live, resources, effective, names)
            <==> VisiblePlainToBuild(types, operations, live, resources, effective, names)
  {
    hide Published, CanBuildFrom, PlainToBuild, MappedWith, Mappable;
    forall q | Visible(resources, effective, names, q)
      ensures CanBuildFrom(client, live, resources[q].kind, q)
              <==> PlainToBuild(types, operations, live, resources[q].kind, q)
    {
      PublishedRecord(c, root, live, resources, effective, nodes, q);
      BuiltFromMapped(client, types, operations, live, resources[q]);
    }
  }

  ghost predicate AssignableBelow(live: LiveMap, resources: Resources, effective: set<Bytes>, names: seq<Bytes>)
  {
    forall q :: Visible(resources, effective, names, q) && resources[q].kind == Property ==>
      q in live && live[q].LiveValue? && live[q].assignable
  }

  ghost predicate RegularBelow(types: TypeRegistry, operations: map<Bytes, Calls.Operation>, resources: Resources,
                               effective: set<Bytes>, names: seq<Bytes>)
  {
    forall q :: Visible(resources, effective, names, q) && resources[q].kind == Operation ==>
      q in operations && Calls.Regular(operations[q], types)
  }

  lemma OnlyPropertiesCount(types: TypeRegistry, operations: map<Bytes, Calls.Operation>, live: LiveMap,
                            resources: Resources, effective: set<Bytes>, names: seq<Bytes>)
    requires MappedWith(types, operations, live) && RegularBelow(types, operations, resources, effective, names)
    requires forall q :: q in effective ==> q in resources && resources[q].path == q && Mappable(live, resources[q])
    ensures VisiblePlainToBuild(types, operations, live, resources, effective, names)
            <==> AssignableBelow(live, resources, effective, names)
  {
    hide MappedWith, Mappable, Calls.Regular, Calls.CollectsInOrder;
    forall q | Visible(resources, effective, names, q) && resources[q].kind == Operation
      ensures Calls.CollectsInOrder(operations[q], types)
    {
      RegularCollects(types, operations, live, resources[q]);
    }
    hide Visible;
  }

  /** With regular operations, only the properties count. */
  lemma RegularOperationsSuffice(client: TypeRegistry, types: TypeRegistry, operations: map<Bytes, Calls.Operation>,
                                 c: Bytes, root: ServiceId, live: LiveMap, resources: Resources,
                                 effective: set<Bytes>, nodes: NodeMap, names: seq<Bytes>)
    requires Published(c, root, live, resources, effective, nodes)
    requires MappedWith(types, operations, live) && Calls.Serves(client, types)
    requires RegularBelow(types, operations, resources, effective, names)
    ensures VisibleCanBeBuilt(client, live, resources, effective, names)
            <==> AssignableBelow(live, resources, effective, names)
  {
    hide *;
    TypesOfServerSuffice(client, types, operations, c, root, live, resources, effective, nodes, names);
    forall q | q in effective ensures q in resources && resources[q].path == q && Mappable(live, resources[q]) {
      PublishedRecord(c, root, live, resources, effective, nodes, q);
    }
    OnlyPropertiesCount(types, operations, live, resources, effective, names);
  }

  lemma RegularCollects(types: TypeRegistry, operations: map<Bytes, Calls.Operation>, live: LiveMap, r: ResourceRecord)
    requires MappedWith(types, operations, live) && Mappable(live, r) && r.kind == Operation
    requires r.path in operations && Calls.Regular(operations[r.path], types)
    ensures Calls.CollectsInOrder(operations[r.path], types)
  {
    hide Calls.Regular, Calls.Acceptable, Calls.CollectsInOrder;
    Calls.RegularIsAccepted(operations[r.path], types, types);
    Calls.DescriptionIsAccepted(operations[r.path], types, types);
  }

  /** Resources that can be mapped have a snapshot. */
  lemma {:induction false} SnapshotExists(c: Bytes, root: ServiceId, mandatory: seq<Mandatory>, live: LiveMap,
                                          resources: Resources, done: set<Bytes>)
    requires InventoryTree(resources) && OneOwnerPerPath(resources) && done <= resources.Keys
    requires AllMapped(mandatory, live, resources, done)
    ensures exists nodes :: IsSnapshot(c, root, live, resources, done, nodes)
    decreases |done|
  {
    hide InventoryTree, OneOwnerPerPath, IsSnapshot, Outcome, CanBeMapped, ComponentPath, ComponentsPath;
    if done == {} {
      RootSnapshot(c, root, live, resources);
    } else {
      var p :| p in done;
      var rest := done - {p};
      SnapshotExists(c, root, mandatory, live, resources, rest);
      var nodes :| IsSnapshot(c, root, live, resources, rest, nodes);
      MappedExactly(c, mandatory, live, resources[p]);
      SnapshotGrows(c, root, mandatory, live, resources, rest, p, nodes);
      assert rest + {p} == done;
    }
  }

  /**
    Give any visible operation of a published component, unless it is mandatory, an argument
    that is a reference to a constant: the component is published as before, and no client
    can stage it.
   */
  lemma RefusedOperationStopsStaging(types: TypeRegistry, c: Bytes, root: ServiceId, mandatory: seq<Mandatory>,
                                     live: LiveMap, resources: Resources, effective: set<Bytes>, nodes: NodeMap,
                                     q: Bytes)
    requires Published(c, root, live, resources, effective, nodes)
    requires AllMapped(mandatory, live, resources, effective)
    requires Elements(RequiredPaths(mandatory)) <= effective && ProperMandatory(mandatory)
    requires Visible(resources, effective, [], q) && resources[q].kind == Operation
    requires NotMandatory(mandatory, resources[q])
    ensures var now := live[q := LiveOperation(Calls.Described(Calls.REFUSED, Calls.REFUSED_TYPES))];
            exists nodes' :: && Published(c, root, now, resources, effective, nodes')
                             && AllMapped(mandatory, now, resources, effective)
                             && StagedOf(types, nodes', c, mandatory, []) == None
  {
    hide IsSnapshot, AllMapped, ProperMandatory, StagedOf, Visible, NotMandatory, OwnersRecorded, NoneCalledThis,
      InventoryTree, OneOwnerPerPath, OwnersClosed, Mappable, RequiredPaths, Calls.Described, Calls.Acceptable;
    Calls.RefusedDescription(types);
    var now := live[q := LiveOperation(Some(Calls.REFUSED_SCHEMA))];
    VisibleIsEffective(resources, effective, [], q);
    RefusedIsMapped(mandatory, live, now, resources, effective, q);
    SnapshotExists(c, root, mandatory, now, resources, effective);
    var nodes' :| IsSnapshot(c, root, now, resources, effective, nodes');
    assert Published(c, root, now, resources, effective, nodes');
    hide Published, Sound;
    PublishThenStage(types, c, root, mandatory, now, resources, effective, nodes');
    assert !CanBuildFrom(types, now, Operation, q);
  }

  lemma VisibleIsEffective(resources: Resources, effective: set<Bytes>, names: seq<Bytes>, q: Bytes)
    requires Visible(resources, effective, names, q)
    ensures q in effective && q in resources
  {
  }

  predicate NotMandatory(mandatory: seq<Mandatory>, r: ResourceRecord)
  {
    r.ownerPath != [] || forall m :: m in mandatory ==> m.name != r.name
  }

  lemma RefusedIsMapped(mandatory: seq<Mandatory>, live: LiveMap, now: LiveMap, resources: Resources,
                        effective: set<Bytes>, q: Bytes)
    requires Sound(live, resources, effective) && AllMapped(mandatory, live, resources, effective)
    requires q in effective && resources[q].kind == Operation && NotMandatory(mandatory, resources[q])
    requires now == live[q := LiveOperation(Some(Calls.REFUSED_SCHEMA))]
    ensures AllMapped(mandatory, now, resources, effective) && Sound(now, resources, effective)
  {
    assert forall p :: p in effective ==> resources[p].path == p;
    hide CanBeMapped, Mappable, InventoryTree, OneOwnerPerPath, OwnersClosed, NotMandatory;
    forall p | p in effective
      ensures Mappable(now, resources[p]) && CanBeMapped(mandatory, now, resources[p])
    {
      MappedWithRefused(mandatory, live, now, resources[p], q);
    }
  }

  lemma MappedWithRefused(mandatory: seq<Mandatory>, live: LiveMap, now: LiveMap, r: ResourceRecord, q: Bytes)
    requires Mappable(live, r) && CanBeMapped(mandatory, live, r)
    requires r.path == q ==> r.kind == Operation && NotMandatory(mandatory, r)
    requires now == live[q := LiveOperation(Some(Calls.REFUSED_SCHEMA))]
    ensures Mappable(now, r) && CanBeMapped(mandatory, now, r)
  {
    if r.path == q {
      assert forall i :: 0 <= i < |mandatory| ==> mandatory[i] in mandatory;
    }
  }
}
