/**
  Staging a published component service by service: the tree that a client gets, or none when
  it cannot build what some folder describes.
 */
module StagedTree {
  import opened Wrappers
  import opened Ordering
  import opened NodeId
  import opened ResourcePaths
  import opened ServiceDiscovery
  import opened PublicationPlan
  import opened Snapshot
  import opened SnapshotTree
  import opened Staging
  import opened PublishedFolders

  ghost function ExpectedFolders(live: LiveMap, resources: Resources, effective: set<Bytes>, names: seq<Bytes>): Folders
  {
    Folders(ExpectedFolder(resources, effective, names, Operation, OperationItems(live)),
            ExpectedFolder(resources, effective, names, Property, ValueItems(live)),
            ExpectedFolder(resources, effective, names, Attribute, ValueItems(live)),
            ExpectedFolder(resources, effective, names, Port, PortItems(live)),
            ExpectedFolder(resources, effective, names, Service, ServiceItems()))
  }

  /** The published resources as a proxy shows them, from one service downwards. */
  ghost function ExpectedTree(live: LiveMap, resources: Resources, effective: set<Bytes>, names: seq<Bytes>): Staged
    decreases MAXIMUM_SERVICE_DEPTH + 1 - |names|
  {
    if |names| > MAXIMUM_SERVICE_DEPTH then Staged(map[], map[], map[], map[], map[])
    else
      var f := ExpectedFolders(live, resources, effective, names);
      Staged(f.operations, f.properties, f.attributes, f.ports,
             map n | n in NamesAt(resources, effective, names, Service)
               :: ExpectedTree(live, resources, effective, names + [n]))
  }

  ghost predicate CanBuildBelow(types: TypeRegistry, live: LiveMap, resources: Resources, effective: set<Bytes>,
                                names: seq<Bytes>)
    decreases MAXIMUM_SERVICE_DEPTH + 1 - |names|
  {
    |names| <= MAXIMUM_SERVICE_DEPTH ==>
      && CanBuild(types, ExpectedFolders(live, resources, effective, names))
      && forall n :: n in NamesAt(resources, effective, names, Service) ==>
           CanBuildBelow(types, live, resources, effective, names + [n])
  }

  lemma ChildReached(c: Bytes, root: ServiceId, live: LiveMap, resources: Resources, effective: set<Bytes>,
                     nodes: NodeMap, names: seq<Bytes>, n: Bytes)
    requires Published(c, root, live, resources, effective, nodes)
    requires n in NamesAt(resources, effective, names, Service)
    ensures Reached(resources, effective, names + [n])
    ensures IsAt(resources, effective, names, Service, PathOf(names, Service, n))
    ensures resources[PathOf(names, Service, n)].name == n && n != []
  {
    hide IsSnapshot, OwnersRecorded, Category, Escaped, ResourcePath, ServicePath;
    PublishedTree(c, root, live, resources, effective, nodes);
    var q :| IsAt(resources, effective, names, Service, q) && resources[q].name == n && n != [];
    PathOfRecord(resources, effective, names, Service, q);
    InventoryRecord(resources, q);
    ChildPath(names, n);
  }

  lemma FoldersMatch(c: Bytes, root: ServiceId, live: LiveMap, resources: Resources, effective: set<Bytes>,
                     nodes: NodeMap, required: seq<Mandatory>, names: seq<Bytes>)
    requires Published(c, root, live, resources, effective, nodes) && Reached(resources, effective, names)
    requires names == [] ==>
               HasRequired(required, ExpectedFolder(resources, effective, [], Operation, OperationItems(live)))
    ensures var f := FoldersOf(nodes, c, required, names);
            f == Some(ExpectedFolders(live, resources, effective, names))
  {
    hide Published, Reached, ExpectedFolder, OperationsOf, PortsOf, ServicesOf, ValuesOf, HasRequired;
    OperationsMatch(c, root, live, resources, effective, nodes, names);
    ValuesMatch(c, root, live, resources, effective, nodes, names, Property);
    ValuesMatch(c, root, live, resources, effective, nodes, names, Attribute);
    PortsMatch(c, root, live, resources, effective, nodes, names);
    ServicesMatch(c, root, live, resources, effective, nodes, names);
  }

  /** Staging from a reached service gives the expected tree, or fails over a resource below it. */
  lemma {:induction false} StagingMatches(types: TypeRegistry, c: Bytes, root: ServiceId, live: LiveMap,
                                          resources: Resources, effective: set<Bytes>, nodes: NodeMap,
                                          required: seq<Mandatory>, names: seq<Bytes>)
    requires Published(c, root, live, resources, effective, nodes) && Reached(resources, effective, names)
    requires HasRequired(required, ExpectedFolder(resources, effective, [], Operation, OperationItems(live)))
    ensures StagedOf(types, nodes, c, required, names)
            == if CanBuildBelow(types, live, resources, effective, names)
               then Some(ExpectedTree(live, resources, effective, names)) else None
    decreases MAXIMUM_SERVICE_DEPTH + 1 - |names|
  {
    hide Published, ExpectedFolder, HasRequired, FoldersOf, Assembled, CanBuild, NamesAt;
    FoldersMatch(c, root, live, resources, effective, nodes, required, names);
    var f := FoldersOf(nodes, c, required, names).value;
    var children := ChildrenOf(types, nodes, c, required, names, f.services.Keys);
    ServiceNamesExpected(resources, effective, names);
    StagedUnfolds(types, nodes, c, required, names);
    AssembledNeeds(types, f, children);
    forall n | n in f.services
      ensures children[n] == if CanBuildBelow(types, live, resources, effective, names + [n])
                             then Some(ExpectedTree(live, resources, effective, names + [n])) else None
    {
      ChildReached(c, root, live, resources, effective, nodes, names, n);
      StagingMatches(types, c, root, live, resources, effective, nodes, required, names + [n]);
    }
    if CanBuildBelow(types, live, resources, effective, names) {
      TreeAssembled(types, live, resources, effective, names, children);
    }
  }

  lemma TreeAssembled(types: TypeRegistry, live: LiveMap, resources: Resources, effective: set<Bytes>,
                      names: seq<Bytes>, children: map<Bytes, Option<Staged>>)
    requires |names| <= MAXIMUM_SERVICE_DEPTH && CanBuild(types, ExpectedFolders(live, resources, effective, names))
    requires children.Keys == NamesAt(resources, effective, names, Service)
    requires forall n :: n in children ==> children[n] == Some(ExpectedTree(live, resources, effective, names + [n]))
    ensures Assembled(types, Some(ExpectedFolders(live, resources, effective, names)), children)
            == Some(ExpectedTree(live, resources, effective, names))
  {
    hide ExpectedFolders, Assembled, CanBuild, NamesAt;
    var trees := map n | n in children :: ExpectedTree(live, resources, effective, names + [n]);
    assert children == map n | n in trees :: Some(trees[n]);
    AllAssembled(types, ExpectedFolders(live, resources, effective, names), trees);
    assert ExpectedTree(live, resources, effective, names).children == trees;
  }

  lemma ServiceNamesExpected(resources: Resources, effective: set<Bytes>, names: seq<Bytes>)
    ensures ExpectedFolder(resources, effective, names, Service, ServiceItems()).Keys
            == NamesAt(resources, effective, names, Service)
  {
    hide NamesAt;
  }
}
