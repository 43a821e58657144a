/**
  What a client reads of a published component: every category folder of every service that it
  gets to shows the effective resources of that place whose names can be browsed.
 */
module PublishedFolders {
  import opened Wrappers
  import opened Ordering
  import opened NodeId
  import opened ResourcePaths
  import opened ServiceDiscovery
  import opened PublicationPlan
  import opened Snapshot
  import Calls = RemoteOperation
  import opened SnapshotTree
  import opened Staging

  // ------------------------------------------------------ what the client sees

  function Seen(part: Option<Part>): Option<Content>
  {
    if part.None? then None else Some(part.value.node.content)
  }

  lemma ContentOfPlace(c: Bytes, root: ServiceId, live: LiveMap, resources: Resources, effective: set<Bytes>,
                       nodes: NodeMap, q: Bytes, place: Place)
    requires Published(c, root, live, resources, effective, nodes) && q in effective
    ensures ContentAt(nodes, PlacePath(c, resources[q], place)) == Seen(PartAt(c, live, resources[q], place))
    ensures PartAt(c, live, resources[q], place).Some? ==> HasPart(nodes, PartAt(c, live, resources[q], place).value)
  {
    hide PartAt, IsSnapshot, PlacePath, Mappable, OwnersRecorded, OneOwnerPerPath, OwnersClosed;
    var path := PlacePath(c, resources[q], place);
    var own := PartAt(c, live, resources[q], place);
    if own.Some? {
      assert PlacedBy(c, live, resources, q, place, own.value);
      PartsSit(c, live, resources, q, place, own.value);
      SnapshotHas(c, root, live, resources, effective, nodes, own.value);
    } else if path in nodes {
      var part := Part(path, nodes[path]);
      SnapshotHas(c, root, live, resources, effective, nodes, part);
      NothingElseThere(c, root, live, resources, effective, q, place, part);
    }
  }

  lemma NothingElseThere(c: Bytes, root: ServiceId, live: LiveMap, resources: Resources, effective: set<Bytes>,
                         q: Bytes, place: Place, part: Part)
    requires Sound(live, resources, effective) && q in effective
    requires part == RootPart(c, root) || Placed(c, live, resources, effective, part)
    requires part.path == PlacePath(c, resources[q], place)
    ensures PartAt(c, live, resources[q], place).Some?
  {
    hide PartAt, PlacePath, Mappable, OneOwnerPerPath, OwnersClosed, ComponentPath;
    var r := resources[q];
    assert WellPlaced(r);
    PlaceDepth(c, r, place);
    DepthOfComponent(c);
    if p, place' :| p in effective && PlacedBy(c, live, resources, p, place', part) {
      PartsSit(c, live, resources, p, place', part);
      assert WellPlaced(resources[p]);
      PlacesDiffer(c, resources[p], place', r, place);
      FolderAlwaysThere(c, live, r);
    }
  }

  lemma FolderAlwaysThere(c: Bytes, live: LiveMap, r: ResourceRecord)
    requires Mappable(live, r)
    ensures PartAt(c, live, r, FolderPlace).Some?
  {
  }

  /** The effective resources of one category of one service. */
  ghost predicate IsAt(resources: Resources, effective: set<Bytes>, names: seq<Bytes>, kind: ResourceKind, q: Bytes)
  {
    q in effective && q in resources && resources[q].kind == kind && resources[q].ownerNames == names
  }

  /** A service that the client gets to: the root, or one on record under these names. */
  ghost predicate Reached(resources: Resources, effective: set<Bytes>, names: seq<Bytes>)
  {
    && |names| <= MAXIMUM_SERVICE_DEPTH
    && (names != [] ==>
          && ServicePath(names) in effective
          && ServicePath(names) in resources
          && IsServiceRecord(resources[ServicePath(names)], names))
  }

  lemma OwnerNamesExact(resources: Resources, effective: set<Bytes>, names: seq<Bytes>, q: Bytes)
    requires InventoryTree(resources) && OwnersRecorded(resources) && Reached(resources, effective, names)
    requires q in resources && resources[q].ownerPath == ServicePath(names)
    ensures resources[q].ownerNames == names
  {
    hide ServicePath, ResourcePath;
    var own := resources[q].ownerNames;
    assert WellPlaced(resources[q]);
    RootPathIsEmpty(names);
    RootPathIsEmpty(own);
    TakeAll(own);
  }

  lemma MetadataSeen(c: Bytes, root: ServiceId, live: LiveMap, resources: Resources, effective: set<Bytes>,
                     nodes: NodeMap, names: seq<Bytes>, kind: ResourceKind, q: Bytes, m: Metadata)
    requires Published(c, root, live, resources, effective, nodes) && IsAt(resources, effective, names, kind, q)
    ensures MetadataAt(nodes, c, names, kind, resources[q].name, m) == Held(live, resources[q], m)
  {
    hide IsSnapshot, OwnersRecorded, OneOwnerPerPath, OwnersClosed, ModelNames, NodePath, Category,
      MetadataName, ComponentPath, Escaped, ServicePath, ResourcePath;
    var r := resources[q];
    assert WellPlaced(r);
    ContentOfPlace(c, root, live, resources, effective, nodes, q, MetadataPlace(m));
    MetadataAgrees(c, names, kind, r.name, MetadataName(m));
  }

  function ClassOf(kind: ResourceKind): NodeClass
  {
    match kind
    case Operation => MethodNode
    case Property | Attribute => VariableNode
    case Port | Service => ObjectNode
  }

  /** A child of a resource's folder, as the client finds it. */
  lemma ChildSeen(c: Bytes, root: ServiceId, live: LiveMap, resources: Resources, effective: set<Bytes>,
                  nodes: NodeMap, names: seq<Bytes>, kind: ResourceKind, q: Bytes)
    requires Published(c, root, live, resources, effective, nodes) && IsAt(resources, effective, names, kind, q)
    ensures var id := MainPath(c, resources[q]);
            && id in Children(nodes, ClientPath(c, names, [Category(kind)]), ClassOf(kind))
            && id in nodes && nodes[id].browseName == resources[q].name
            && nodes[id].content == Main(live, resources[q]).1
  {
    hide IsSnapshot, OwnersRecorded, OneOwnerPerPath, OwnersClosed, ModelNames, NodePath, Category,
      MetadataName, ComponentPath, Escaped, ServicePath, ResourcePath;
    var r := resources[q];
    assert WellPlaced(r);
    ContentOfPlace(c, root, live, resources, effective, nodes, q, MainPlace);
    ContentOfPlace(c, root, live, resources, effective, nodes, q, FolderPlace);
    FoldersAgree(c, names, kind);
  }

  lemma ChildrenSeen(c: Bytes, root: ServiceId, live: LiveMap, resources: Resources, effective: set<Bytes>,
                     nodes: NodeMap, names: seq<Bytes>, kind: ResourceKind, id: Bytes)
    requires Published(c, root, live, resources, effective, nodes) && Reached(resources, effective, names)
    requires id in Children(nodes, ClientPath(c, names, [Category(kind)]), ClassOf(kind))
    ensures exists q :: IsAt(resources, effective, names, kind, q) && id == MainPath(c, resources[q])
  {
    hide IsSnapshot, OwnersRecorded, OneOwnerPerPath, OwnersClosed, ModelNames, NodePath, Category,
      MetadataName, ComponentPath, Escaped, ServicePath, ResourcePath, PartAt, Mappable, PathDepth, Reached, InventoryTree;
    var part := Part(id, nodes[id]);
    SnapshotHas(c, root, live, resources, effective, nodes, part);
    FoldersAgree(c, names, kind);
    DepthOfOwner(c, names);
    DepthOfChild(OwnerNodePath(c, ServicePath(names)), Category(kind));
    DepthOfComponent(c);
    assert part != RootPart(c, root);
    var q, place :| q in effective && PlacedBy(c, live, resources, q, place, part);
    PartsSit(c, live, resources, q, place, part);
    InventoryRecord(resources, q);
    PlaceDepth(c, resources[q], place);
    assert place == MainPlace;
    SameFolderNames(c, resources[q], names, kind);
    OwnerNamesExact(resources, effective, names, q);
  }

  lemma SameFolderNames(c: Bytes, r: ResourceRecord, names: seq<Bytes>, kind: ResourceKind)
    requires WellPlaced(r) && |names| <= MAXIMUM_SERVICE_DEPTH
    requires FolderPath(c, r) == AppendNodeSegment(OwnerNodePath(c, ServicePath(names)), Category(kind))
    ensures r.kind == kind && r.ownerPath == ServicePath(names)
  {
    hide Category, Escaped, ComponentPath, ServicePath, ResourcePath;
    var r' := ResourceRecord(kind, ResourcePath(ServicePath(names), kind, []), ServicePath(names), names, [], 0, None,
                             Unavailable);
    SameFolder(c, r, r');
  }

  // --------------------------------------------------------- the expected tree

  function PathOf(names: seq<Bytes>, kind: ResourceKind, name: Bytes): Bytes
  {
    ResourcePath(ServicePath(names), kind, name)
  }

  /** The names that a browse can show. */
  ghost function NamesAt(resources: Resources, effective: set<Bytes>, names: seq<Bytes>, kind: ResourceKind): set<Bytes>
  {
    set q | q in effective && IsAt(resources, effective, names, kind, q) && resources[q].name != [] :: resources[q].name
  }

  function OperationItems(live: LiveMap): Bytes -> Option<Description>
  {
    (q: Bytes) => if q in live && live[q].LiveOperation? && live[q].schema.Some? then
        var s := live[q].schema.value;
        Some(s)
      else None
  }

  function ValueItems(live: LiveMap): Bytes -> Option<RemoteValue>
  {
    (q: Bytes) => if q in live && live[q].LiveValue? then Some(RemoteValue(live[q].typeName, live[q].assignable)) else None
  }

  /** An output port that keeps no value is left out. */
  function PortItems(live: LiveMap): Bytes -> Option<RemotePort>
  {
    (q: Bytes) => if q in live && live[q].LivePort? && (live[q].input || live[q].keepsLast) then
        Some(RemotePort(live[q].typeName, live[q].input))
      else None
  }

  function ServiceItems(): Bytes -> Option<()>
  {
    (q: Bytes) => Some(())
  }

  ghost function ExpectedFolder<T(!new)>(resources: Resources, effective: set<Bytes>, names: seq<Bytes>,
                                         kind: ResourceKind, item: Bytes -> Option<T>): map<Bytes, T>
  {
    map n | n in NamesAt(resources, effective, names, kind) && item(PathOf(names, kind, n)).Some?
      :: item(PathOf(names, kind, n)).value
  }

  lemma PathOfRecord(resources: Resources, effective: set<Bytes>, names: seq<Bytes>, kind: ResourceKind, q: Bytes)
    requires InventoryTree(resources) && IsAt(resources, effective, names, kind, q)
    ensures q == PathOf(names, kind, resources[q].name)
  {
  }

  /** The nodes of the resources of this category are read as their items. */
  ghost predicate ReadAs<T(!new)>(c: Bytes, resources: Resources, effective: set<Bytes>, names: seq<Bytes>,
                                  kind: ResourceKind, read: Bytes -> Result<Option<T>, StageError>,
                                  item: Bytes -> Option<T>)
  {
    forall q :: IsAt(resources, effective, names, kind, q) ==> read(MainPath(c, resources[q])) == Ok(item(q))
  }

  /** Child p is the node of resource q and is read as its item. */
  ghost predicate EntryIs<T(!new)>(c: Bytes, nodes: NodeMap, resources: Resources,
                                   read: Bytes -> Result<Option<T>, StageError>, item: Bytes -> Option<T>,
                                   p: Bytes, q: Bytes)
  {
    && q in resources && p in nodes
    && p == MainPath(c, resources[q])
    && nodes[p].browseName == resources[q].name
    && read(p) == Ok(item(q))
  }

  /** Every child is the entry of some resource. */
  ghost predicate ChildrenAreEntries<T(!new)>(c: Bytes, nodes: NodeMap, resources: Resources, effective: set<Bytes>,
                                              names: seq<Bytes>, kind: ResourceKind,
                                              read: Bytes -> Result<Option<T>, StageError>, item: Bytes -> Option<T>)
  {
    forall p :: p in Children(nodes, ClientPath(c, names, [Category(kind)]), ClassOf(kind)) ==>
      exists q {:trigger EntryIs(c, nodes, resources, read, item, p, q)} ::
        IsAt(resources, effective, names, kind, q) && EntryIs(c, nodes, resources, read, item, p, q)
  }

  lemma EveryChildIsEntry<T(!new)>(c: Bytes, root: ServiceId, live: LiveMap, resources: Resources,
                                   effective: set<Bytes>, nodes: NodeMap, names: seq<Bytes>, kind: ResourceKind,
                                   read: Bytes -> Result<Option<T>, StageError>, item: Bytes -> Option<T>)
    requires Published(c, root, live, resources, effective, nodes) && Reached(resources, effective, names)
    requires ReadAs(c, resources, effective, names, kind, read, item)
    ensures ChildrenAreEntries(c, nodes, resources, effective, names, kind, read, item)
  {
    hide Published, MainPath, Category, NodePath, ModelNames, Children, ClientPath, Reached;
    forall p | p in Children(nodes, ClientPath(c, names, [Category(kind)]), ClassOf(kind))
      ensures exists q {:trigger EntryIs(c, nodes, resources, read, item, p, q)} ::
                IsAt(resources, effective, names, kind, q) && EntryIs(c, nodes, resources, read, item, p, q)
    {
      ChildrenSeen(c, root, live, resources, effective, nodes, names, kind, p);
      var q :| IsAt(resources, effective, names, kind, q) && p == MainPath(c, resources[q]);
      ChildSeen(c, root, live, resources, effective, nodes, names, kind, q);
      assert EntryIs(c, nodes, resources, read, item, p, q);
    }
  }

  /** The entries of the children are those of the expected folder, each under its own name. */
  lemma EntriesAreExpected<T(!new)>(c: Bytes, resources: Resources, effective: set<Bytes>, nodes: NodeMap,
                                    names: seq<Bytes>, kind: ResourceKind,
                                    read: Bytes -> Result<Option<T>, StageError>, item: Bytes -> Option<T>)
    requires InventoryTree(resources)
    requires ChildrenAreEntries(c, nodes, resources, effective, names, kind, read, item)
    ensures var children := Children(nodes, ClientPath(c, names, [Category(kind)]), ClassOf(kind));
            var m := ExpectedFolder(resources, effective, names, kind, item);
            && AllRead(nodes, read, children) && NamesDiffer(nodes, read, children)
            && forall p :: p in children && Entry(nodes, read, p).Some? ==>
                 Entry(nodes, read, p).value.0 in m && m[Entry(nodes, read, p).value.0] == Entry(nodes, read, p).value.1
  {
    hide InventoryTree, MainPath, PathOf, Category, NodePath, ModelNames, Children, ClientPath;
    var children := Children(nodes, ClientPath(c, names, [Category(kind)]), ClassOf(kind));
    var m := ExpectedFolder(resources, effective, names, kind, item);
    forall p, q | p in children && q in children && SameName(Entry(nodes, read, p), Entry(nodes, read, q)) ensures p == q {
      var p', q' :| && IsAt(resources, effective, names, kind, p') && EntryIs(c, nodes, resources, read, item, p, p')
                    && IsAt(resources, effective, names, kind, q') && EntryIs(c, nodes, resources, read, item, q, q');
      PathOfRecord(resources, effective, names, kind, p');
      PathOfRecord(resources, effective, names, kind, q');
    }
    forall p | p in children && Entry(nodes, read, p).Some?
      ensures var e := Entry(nodes, read, p).value; e.0 in m && m[e.0] == e.1
    {
      var q :| IsAt(resources, effective, names, kind, q) && EntryIs(c, nodes, resources, read, item, p, q);
      PathOfRecord(resources, effective, names, kind, q);
    }
  }

  /** And every expected entry has a child. */
  lemma ExpectedHasChild<T(!new)>(c: Bytes, root: ServiceId, live: LiveMap, resources: Resources,
                                  effective: set<Bytes>, nodes: NodeMap, names: seq<Bytes>, kind: ResourceKind,
                                  read: Bytes -> Result<Option<T>, StageError>, item: Bytes -> Option<T>, n: Bytes)
    requires Published(c, root, live, resources, effective, nodes)
    requires ReadAs(c, resources, effective, names, kind, read, item)
    requires n in ExpectedFolder(resources, effective, names, kind, item)
    ensures exists p :: p in Children(nodes, ClientPath(c, names, [Category(kind)]), ClassOf(kind))
                        && Entry(nodes, read, p)
                           == Some((n, ExpectedFolder(resources, effective, names, kind, item)[n]))
  {
    PublishedTree(c, root, live, resources, effective, nodes);
    hide Published, InventoryTree, MainPath, PathOf, Category, NodePath, ModelNames, Children, ClientPath;
    var q :| IsAt(resources, effective, names, kind, q) && resources[q].name == n && n != [];
    PathOfRecord(resources, effective, names, kind, q);
    ChildSeen(c, root, live, resources, effective, nodes, names, kind, q);
    assert MainPath(c, resources[q]) in Children(nodes, ClientPath(c, names, [Category(kind)]), ClassOf(kind));
  }

  /** When every child is read as what its resource says, the folder is the expected one. */
  lemma FolderMatches<T(!new)>(c: Bytes, root: ServiceId, live: LiveMap, resources: Resources, effective: set<Bytes>,
                               nodes: NodeMap, names: seq<Bytes>, kind: ResourceKind,
                               read: Bytes -> Result<Option<T>, StageError>, item: Bytes -> Option<T>)
    requires Published(c, root, live, resources, effective, nodes) && Reached(resources, effective, names)
    requires ReadAs(c, resources, effective, names, kind, read, item)
    ensures FolderOf(nodes, ClientPath(c, names, [Category(kind)]), ClassOf(kind), read)
            == Some(ExpectedFolder(resources, effective, names, kind, item))
  {
    PublishedTree(c, root, live, resources, effective, nodes);
    hide Published, InventoryTree, OwnersRecorded, OwnersClosed, Mappable, Category, NodePath, ModelNames, Children,
      ClientPath, Reached, ReadAs, ChildrenAreEntries, AllRead, NamesDiffer, Entry, ExpectedFolder, FolderOf;
    var folder, m := ClientPath(c, names, [Category(kind)]), ExpectedFolder(resources, effective, names, kind, item);
    EveryChildIsEntry(c, root, live, resources, effective, nodes, names, kind, read, item);
    EntriesAreExpected(c, resources, effective, nodes, names, kind, read, item);
    forall n | n in m
      ensures exists p :: p in Children(nodes, folder, ClassOf(kind)) && Entry(nodes, read, p) == Some((n, m[n]))
    {
      ExpectedHasChild(c, root, live, resources, effective, nodes, names, kind, read, item, n);
    }
    CollectedIsFolder(nodes, folder, ClassOf(kind), read, m);
  }

  lemma PublishedTree(c: Bytes, root: ServiceId, live: LiveMap, resources: Resources, effective: set<Bytes>,
                      nodes: NodeMap)
    requires Published(c, root, live, resources, effective, nodes)
    ensures InventoryTree(resources) && OwnersRecorded(resources) && effective <= resources.Keys
    ensures OwnersClosed(resources, effective)
    ensures forall q :: q in effective ==> Mappable(live, resources[q])
  {
  }

  // ------------------------------------------------------------- each folder

  /** What the client finds out about the resource whose node is `id`. */
  ghost predicate Observed(nodes: NodeMap, c: Bytes, names: seq<Bytes>, live: LiveMap, r: ResourceRecord, id: Bytes)
  {
    && Mappable(live, r)
    && id in nodes
    && nodes[id].browseName == r.name
    && nodes[id].content == Main(live, r).1
    && forall m :: MetadataAt(nodes, c, names, r.kind, r.name, m) == Held(live, r, m)
  }

  lemma ResourceObserved(c: Bytes, root: ServiceId, live: LiveMap, resources: Resources, effective: set<Bytes>,
                         nodes: NodeMap, names: seq<Bytes>, kind: ResourceKind, q: Bytes)
    requires Published(c, root, live, resources, effective, nodes) && IsAt(resources, effective, names, kind, q)
    ensures Observed(nodes, c, names, live, resources[q], MainPath(c, resources[q])) && resources[q].path == q
  {
    hide IsSnapshot, OwnersRecorded, Category, NodePath, ModelNames, MainPath, ClientPath, MetadataAt, Held, Main,
      Children, Mappable, MetadataName, ClassOf;
    InventoryRecord(resources, q);
    ChildSeen(c, root, live, resources, effective, nodes, names, kind, q);
    forall m ensures MetadataAt(nodes, c, names, kind, resources[q].name, m) == Held(live, resources[q], m) {
      MetadataSeen(c, root, live, resources, effective, nodes, names, kind, q, m);
    }
  }

  lemma OperationRead(nodes: NodeMap, c: Bytes, names: seq<Bytes>, live: LiveMap, r: ResourceRecord, id: Bytes)
    requires Observed(nodes, c, names, live, r, id) && r.kind == Operation
    ensures OperationReader(nodes, c, names)(id) == Ok(OperationItems(live)(r.path))
  {
    hide MetadataAt;
    assert MetadataAt(nodes, c, names, Operation, r.name, InputTypes) == Held(live, r, InputTypes);
    assert MetadataAt(nodes, c, names, Operation, r.name, OutputTypes) == Held(live, r, OutputTypes);
    assert MetadataAt(nodes, c, names, Operation, r.name, OutputSources) == Held(live, r, OutputSources);
  }

  lemma ValueRead(nodes: NodeMap, c: Bytes, names: seq<Bytes>, live: LiveMap, r: ResourceRecord, id: Bytes)
    requires Observed(nodes, c, names, live, r, id) && (r.kind == Property || r.kind == Attribute)
    ensures ValueReader(nodes, c, names, r.kind)(id) == Ok(ValueItems(live)(r.path))
  {
    hide MetadataAt;
    assert MetadataAt(nodes, c, names, r.kind, r.name, ValueType) == Held(live, r, ValueType);
  }

  lemma PortRead(nodes: NodeMap, c: Bytes, names: seq<Bytes>, live: LiveMap, r: ResourceRecord, id: Bytes)
    requires Observed(nodes, c, names, live, r, id) && r.kind == Port
    ensures PortReader(nodes, c, names)(id) == Ok(PortItems(live)(r.path))
  {
    hide MetadataAt;
    assert MetadataAt(nodes, c, names, Port, r.name, PortType) == Held(live, r, PortType);
    assert MetadataAt(nodes, c, names, Port, r.name, PortDirection) == Held(live, r, PortDirection);
    assert MetadataAt(nodes, c, names, Port, r.name, PortValue) == Held(live, r, PortValue);
  }

  lemma OperationsMatch(c: Bytes, root: ServiceId, live: LiveMap, resources: Resources, effective: set<Bytes>,
    nodes: NodeMap, names: seq<Bytes>)
    requires Published(c, root, live, resources, effective, nodes) && Reached(resources, effective, names)
    ensures OperationsOf(nodes, c, names)
            == Some(ExpectedFolder(resources, effective, names, Operation, OperationItems(live)))
  {
    hide Sound, IsSnapshot, OwnersRecorded, Category, NodePath, ModelNames, MainPath, FolderOf, Reached, ExpectedFolder,
      Observed, OperationReader, ValueReader, PortReader, ServiceReader, OperationItems, ValueItems, PortItems;
    forall q | IsAt(resources, effective, names, Operation, q)
      ensures OperationReader(nodes, c, names)(MainPath(c, resources[q])) == Ok(OperationItems(live)(q))
    {
      ResourceObserved(c, root, live, resources, effective, nodes, names, Operation, q);
      OperationRead(nodes, c, names, live, resources[q], MainPath(c, resources[q]));
    }
    FolderMatches(c, root, live, resources, effective, nodes, names, Operation,
                  OperationReader(nodes, c, names), OperationItems(live));
  }

  lemma ValuesMatch(c: Bytes, root: ServiceId, live: LiveMap, resources: Resources, effective: set<Bytes>,
    nodes: NodeMap, names: seq<Bytes>, kind: ResourceKind)
    requires Published(c, root, live, resources, effective, nodes) && Reached(resources, effective, names)
    requires kind == Property || kind == Attribute
    ensures ValuesOf(nodes, c, names, kind)
            == Some(ExpectedFolder(resources, effective, names, kind, ValueItems(live)))
  {
    hide Sound, IsSnapshot, OwnersRecorded, Category, NodePath, ModelNames, MainPath, FolderOf, Reached, ExpectedFolder,
      Observed, OperationReader, ValueReader, PortReader, ServiceReader, OperationItems, ValueItems, PortItems;
    forall q | IsAt(resources, effective, names, kind, q)
      ensures ValueReader(nodes, c, names, kind)(MainPath(c, resources[q])) == Ok(ValueItems(live)(q))
    {
      ResourceObserved(c, root, live, resources, effective, nodes, names, kind, q);
      ValueRead(nodes, c, names, live, resources[q], MainPath(c, resources[q]));
    }
    FolderMatches(c, root, live, resources, effective, nodes, names, kind,
                  ValueReader(nodes, c, names, kind), ValueItems(live));
  }

  lemma PortsMatch(c: Bytes, root: ServiceId, live: LiveMap, resources: Resources, effective: set<Bytes>,
    nodes: NodeMap, names: seq<Bytes>)
    requires Published(c, root, live, resources, effective, nodes) && Reached(resources, effective, names)
    ensures PortsOf(nodes, c, names)
            == Some(ExpectedFolder(resources, effective, names, Port, PortItems(live)))
  {
    hide Sound, IsSnapshot, OwnersRecorded, Category, NodePath, ModelNames, MainPath, FolderOf, Reached, ExpectedFolder,
      Observed, OperationReader, ValueReader, PortReader, ServiceReader, OperationItems, ValueItems, PortItems;
    forall q | IsAt(resources, effective, names, Port, q)
      ensures PortReader(nodes, c, names)(MainPath(c, resources[q])) == Ok(PortItems(live)(q))
    {
      ResourceObserved(c, root, live, resources, effective, nodes, names, Port, q);
      PortRead(nodes, c, names, live, resources[q], MainPath(c, resources[q]));
    }
    FolderMatches(c, root, live, resources, effective, nodes, names, Port,
                  PortReader(nodes, c, names), PortItems(live));
  }

  lemma ServicesMatch(c: Bytes, root: ServiceId, live: LiveMap, resources: Resources, effective: set<Bytes>,
    nodes: NodeMap, names: seq<Bytes>)
    requires Published(c, root, live, resources, effective, nodes) && Reached(resources, effective, names)
    ensures ServicesOf(nodes, c, names)
            == Some(ExpectedFolder(resources, effective, names, Service, ServiceItems()))
  {
    hide Sound, IsSnapshot, OwnersRecorded, Category, NodePath, ModelNames, MainPath, FolderOf, Reached, ExpectedFolder,
      Main, Held, Mappable, MetadataAt;
    forall q | IsAt(resources, effective, names, Service, q)
      ensures ServiceReader(nodes)(MainPath(c, resources[q])) == Ok(ServiceItems()(q))
    {
      ResourceObserved(c, root, live, resources, effective, nodes, names, Service, q);
    }
    FolderMatches(c, root, live, resources, effective, nodes, names, Service, ServiceReader(nodes), ServiceItems());
  }
}
