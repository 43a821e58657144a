/**
  What staging comes to, resource by resource: which resources a client can see, what it needs
  to build each of them, and where in the staged tree they hang.
 */
module VisibleResources {
  import opened Wrappers
  import opened Ordering
  import opened NodeId
  import opened ResourcePaths
  import opened ServiceDiscovery
  import opened PublicationPlan
  import opened Snapshot
  import Calls = RemoteOperation
  import opened SnapshotTree
  import opened Staging
  import opened PublishedFolders
  import opened StagedTree

  /** A resource that the client can see from a service: all names below it can be browsed. */
  ghost predicate Visible(resources: Resources, effective: set<Bytes>, names: seq<Bytes>, q: Bytes)
  {
    && q in effective && q in resources
    && names <= resources[q].ownerNames
    && (forall i :: |names| <= i < |resources[q].ownerNames| ==> resources[q].ownerNames[i] != [])
    && resources[q].name != []
  }

  /** Every owner of an effective resource is an effective service of the right name. */
  lemma OwnerIsAt(c: Bytes, root: ServiceId, live: LiveMap, resources: Resources, effective: set<Bytes>,
                  nodes: NodeMap, q: Bytes, k: nat)
    requires Published(c, root, live, resources, effective, nodes) && q in effective
    requires k < |resources[q].ownerNames| && resources[q].ownerNames[k] != []
    ensures resources[q].ownerNames[k] in NamesAt(resources, effective, resources[q].ownerNames[..k], Service)
    ensures |resources[q].ownerNames| <= MAXIMUM_SERVICE_DEPTH
  {
    hide IsSnapshot, Category, Escaped, ResourcePath, ServicePath, OneOwnerPerPath;
    PublishedTree(c, root, live, resources, effective, nodes);
    InventoryRecord(resources, q);
    var names := resources[q].ownerNames;
    var above := ServicePath(names[..k + 1]);
    TakeMore(names, k);
    assert above in ServicesAbove(names);
    var r := resources[above];
    assert IsServiceRecord(r, names[..k + 1]);
    assert r.ownerNames == (r.ownerNames + [r.name])[..k] && r.name == (r.ownerNames + [r.name])[k];
    assert IsAt(resources, effective, names[..k], Service, above);
  }

  /** The client can build this resource: it depends on what the server published, and on the client's types. */
  ghost predicate CanBuildFrom(types: TypeRegistry, live: LiveMap, kind: ResourceKind, q: Bytes)
  {
    match kind
    case Operation =>
      var d := OperationItems(live)(q);
      d.Some? && Calls.Acceptable(d.value, types)
    case Property =>
      q in live && live[q].LiveValue? && live[q].assignable && Calls.HasValue(types, live[q].typeName)
    case Attribute =>
      q in live && live[q].LiveValue? && Calls.HasValue(types, live[q].typeName)
    case Port =>
      var p := PortItems(live)(q);
      p.Some? ==> Calls.HasValue(types, p.value.typeName)
    case Service => true
  }

  /** The client can build every resource that it can see. */
  ghost predicate VisibleCanBeBuilt(types: TypeRegistry, live: LiveMap, resources: Resources, effective: set<Bytes>,
                                    names: seq<Bytes>)
  {
    forall q :: Visible(resources, effective, names, q) ==> CanBuildFrom(types, live, resources[q].kind, q)
  }

  /** What holds of all entries of an expected folder holds of the items of its resources. */
  lemma FolderItems<T(!new)>(resources: Resources, effective: set<Bytes>, names: seq<Bytes>, kind: ResourceKind,
                             item: Bytes -> Option<T>, ok: T -> bool)
    requires InventoryTree(resources)
    ensures var m := ExpectedFolder(resources, effective, names, kind, item);
            (forall n :: n in m ==> ok(m[n])) <==>
            forall q :: IsAt(resources, effective, names, kind, q) && resources[q].name != [] && item(q).Some? ==>
              ok(item(q).value)
  {
    hide InventoryTree, PathOf;
    var m := ExpectedFolder(resources, effective, names, kind, item);
    forall q | IsAt(resources, effective, names, kind, q) && resources[q].name != [] && item(q).Some?
      ensures resources[q].name in m && m[resources[q].name] == item(q).value
    {
      PathOfRecord(resources, effective, names, kind, q);
    }
    if forall q :: IsAt(resources, effective, names, kind, q) && resources[q].name != [] && item(q).Some? ==>
                     ok(item(q).value) {
      forall n | n in m ensures ok(m[n]) {
        var q :| IsAt(resources, effective, names, kind, q) && resources[q].name == n && n != [];
        PathOfRecord(resources, effective, names, kind, q);
      }
    }
  }

  /** All resources of one category of a service can be built. */
  ghost predicate CategoryCanBeBuilt(types: TypeRegistry, live: LiveMap, resources: Resources, effective: set<Bytes>,
                                     names: seq<Bytes>, kind: ResourceKind)
  {
    forall q :: IsAt(resources, effective, names, kind, q) && resources[q].name != [] ==>
      CanBuildFrom(types, live, kind, q)
  }

  lemma PublishedRecord(c: Bytes, root: ServiceId, live: LiveMap, resources: Resources, effective: set<Bytes>,
                        nodes: NodeMap, q: Bytes)
    requires Published(c, root, live, resources, effective, nodes) && q in effective
    ensures q in resources && resources[q].path == q && Mappable(live, resources[q])
  {
    hide Mappable, IsSnapshot, OwnersRecorded;
    PublishedTree(c, root, live, resources, effective, nodes);
    InventoryRecord(resources, q);
  }

  lemma MappedItem(live: LiveMap, r: ResourceRecord)
    requires Mappable(live, r)
    ensures r.kind == Operation ==> OperationItems(live)(r.path).Some?
    ensures r.kind == Property || r.kind == Attribute ==> ValueItems(live)(r.path).Some?
  {
  }

  ghost predicate EachHasItem<T(!new)>(resources: Resources, effective: set<Bytes>, names: seq<Bytes>,
                                       kind: ResourceKind, item: Bytes -> Option<T>)
  {
    forall q :: IsAt(resources, effective, names, kind, q) ==> item(q).Some?
  }

  lemma PublishedHaveItems(c: Bytes, root: ServiceId, live: LiveMap, resources: Resources, effective: set<Bytes>,
                           nodes: NodeMap, names: seq<Bytes>)
    requires Published(c, root, live, resources, effective, nodes)
    ensures EachHasItem(resources, effective, names, Operation, OperationItems(live))
    ensures EachHasItem(resources, effective, names, Property, ValueItems(live))
    ensures EachHasItem(resources, effective, names, Attribute, ValueItems(live))
  {
    hide Published, OperationItems, ValueItems, Mappable;
    forall kind, q | IsAt(resources, effective, names, kind, q)
      ensures kind == Operation ==> OperationItems(live)(q).Some?
      ensures kind == Property || kind == Attribute ==> ValueItems(live)(q).Some?
    {
      PublishedRecord(c, root, live, resources, effective, nodes, q);
      MappedItem(live, resources[q]);
    }
  }

  lemma OperationsCanBeBuilt(types: TypeRegistry, live: LiveMap, resources: Resources, effective: set<Bytes>,
                             names: seq<Bytes>)
    requires InventoryTree(resources) && EachHasItem(resources, effective, names, Operation, OperationItems(live))
    ensures AllAcceptable(types, ExpectedFolder(resources, effective, names, Operation, OperationItems(live)))
            <==> CategoryCanBeBuilt(types, live, resources, effective, names, Operation)
  {
    hide IsAt, InventoryTree, ExpectedFolder, Calls.Acceptable, Calls.HasValue;
    FolderItems(resources, effective, names, Operation, OperationItems(live),
                (d: Description) => Calls.Acceptable(d, types));
  }

  lemma PropertiesCanBeBuilt(types: TypeRegistry, live: LiveMap, resources: Resources, effective: set<Bytes>,
                             names: seq<Bytes>)
    requires InventoryTree(resources) && EachHasItem(resources, effective, names, Property, ValueItems(live))
    ensures AllWritable(types, ExpectedFolder(resources, effective, names, Property, ValueItems(live)))
            <==> CategoryCanBeBuilt(types, live, resources, effective, names, Property)
  {
    hide IsAt, InventoryTree, ExpectedFolder, Calls.Acceptable, Calls.HasValue;
    FolderItems(resources, effective, names, Property, ValueItems(live),
                (v: RemoteValue) => v.writable && Calls.HasValue(types, v.typeName));
  }

  lemma AttributesCanBeBuilt(types: TypeRegistry, live: LiveMap, resources: Resources, effective: set<Bytes>,
                             names: seq<Bytes>)
    requires InventoryTree(resources) && EachHasItem(resources, effective, names, Attribute, ValueItems(live))
    ensures AllValues(types, ExpectedFolder(resources, effective, names, Attribute, ValueItems(live)))
            <==> CategoryCanBeBuilt(types, live, resources, effective, names, Attribute)
  {
    hide IsAt, InventoryTree, ExpectedFolder, Calls.Acceptable, Calls.HasValue;
    FolderItems(resources, effective, names, Attribute, ValueItems(live),
                (v: RemoteValue) => Calls.HasValue(types, v.typeName));
  }

  lemma PortsCanBeBuilt(types: TypeRegistry, live: LiveMap, resources: Resources, effective: set<Bytes>,
                        names: seq<Bytes>)
    requires InventoryTree(resources)
    ensures AllPorts(types, ExpectedFolder(resources, effective, names, Port, PortItems(live)))
            <==> CategoryCanBeBuilt(types, live, resources, effective, names, Port)
  {
    hide IsAt, InventoryTree, ExpectedFolder, Calls.Acceptable, Calls.HasValue;
    FolderItems(resources, effective, names, Port, PortItems(live),
                (p: RemotePort) => Calls.HasValue(types, p.typeName));
  }

  lemma EveryCategory(types: TypeRegistry, live: LiveMap, resources: Resources, effective: set<Bytes>,
                      names: seq<Bytes>)
    ensures (forall kind :: CategoryCanBeBuilt(types, live, resources, effective, names, kind)) <==>
            && CategoryCanBeBuilt(types, live, resources, effective, names, Operation)
            && CategoryCanBeBuilt(types, live, resources, effective, names, Property)
            && CategoryCanBeBuilt(types, live, resources, effective, names, Attribute)
            && CategoryCanBeBuilt(types, live, resources, effective, names, Port)
  {
    assert CategoryCanBeBuilt(types, live, resources, effective, names, Service);
    hide CategoryCanBeBuilt;
  }

  lemma CategoriesOfFolders(types: TypeRegistry, live: LiveMap, resources: Resources, effective: set<Bytes>,
                            names: seq<Bytes>)
    requires InventoryTree(resources)
    requires EachHasItem(resources, effective, names, Operation, OperationItems(live))
    requires EachHasItem(resources, effective, names, Property, ValueItems(live))
    requires EachHasItem(resources, effective, names, Attribute, ValueItems(live))
    ensures CanBuild(types, ExpectedFolders(live, resources, effective, names)) <==>
            forall kind :: CategoryCanBeBuilt(types, live, resources, effective, names, kind)
  {
    hide ExpectedFolder, AllAcceptable, AllWritable, AllValues, AllPorts, CategoryCanBeBuilt, EachHasItem,
      OperationItems, ValueItems, PortItems, InventoryTree;
    EveryCategory(types, live, resources, effective, names);
    OperationsCanBeBuilt(types, live, resources, effective, names);
    PropertiesCanBeBuilt(types, live, resources, effective, names);
    AttributesCanBeBuilt(types, live, resources, effective, names);
    PortsCanBeBuilt(types, live, resources, effective, names);
  }

  lemma FolderCanBeBuilt(types: TypeRegistry, c: Bytes, root: ServiceId, live: LiveMap, resources: Resources,
                         effective: set<Bytes>, nodes: NodeMap, names: seq<Bytes>)
    requires Published(c, root, live, resources, effective, nodes)
    ensures CanBuild(types, ExpectedFolders(live, resources, effective, names)) <==>
            forall kind :: CategoryCanBeBuilt(types, live, resources, effective, names, kind)
  {
    PublishedTree(c, root, live, resources, effective, nodes);
    PublishedHaveItems(c, root, live, resources, effective, nodes, names);
    hide *;
    CategoriesOfFolders(types, live, resources, effective, names);
  }

  /** What the client sees of a service itself: the named resources in its categories. */
  lemma VisibleHere(types: TypeRegistry, live: LiveMap, resources: Resources, effective: set<Bytes>, names: seq<Bytes>)
    ensures (forall kind :: CategoryCanBeBuilt(types, live, resources, effective, names, kind)) <==>
            forall q :: Visible(resources, effective, names, q) && resources[q].ownerNames == names ==>
              CanBuildFrom(types, live, resources[q].kind, q)
  {
    hide CanBuildFrom;
    if forall kind :: CategoryCanBeBuilt(types, live, resources, effective, names, kind) {
      forall q | Visible(resources, effective, names, q) && resources[q].ownerNames == names
        ensures CanBuildFrom(types, live, resources[q].kind, q)
      {
        assert CategoryCanBeBuilt(types, live, resources, effective, names, resources[q].kind);
        assert IsAt(resources, effective, names, resources[q].kind, q);
      }
    }
  }

  /** The recursive condition is the plain one: every visible resource can be built. */
  lemma {:induction false} BuiltResourceByResource(types: TypeRegistry, c: Bytes, root: ServiceId, live: LiveMap,
                                                   resources: Resources, effective: set<Bytes>, nodes: NodeMap,
                                                   names: seq<Bytes>)
    requires Published(c, root, live, resources, effective, nodes) && |names| <= MAXIMUM_SERVICE_DEPTH
    ensures CanBuildBelow(types, live, resources, effective, names)
            <==> VisibleCanBeBuilt(types, live, resources, effective, names)
    decreases MAXIMUM_SERVICE_DEPTH + 1 - |names|
  {
    hide Published, NamesAt, ExpectedFolders, CanBuild, CanBuildFrom, CategoryCanBeBuilt;
    FolderCanBeBuilt(types, c, root, live, resources, effective, nodes, names);
    VisibleHere(types, live, resources, effective, names);
    forall n | n in NamesAt(resources, effective, names, Service)
      ensures CanBuildBelow(types, live, resources, effective, names + [n])
              <==> VisibleCanBeBuilt(types, live, resources, effective, names + [n])
      ensures forall q :: Visible(resources, effective, names + [n], q) ==> Visible(resources, effective, names, q)
    {
      ChildReached(c, root, live, resources, effective, nodes, names, n);
      BuiltResourceByResource(types, c, root, live, resources, effective, nodes, names + [n]);
      VisibleFromAbove(resources, effective, names, n);
    }
    forall q | Visible(resources, effective, names, q) && resources[q].ownerNames != names
      ensures exists n :: n in NamesAt(resources, effective, names, Service)
                          && Visible(resources, effective, names + [n], q)
    {
      VisibleFromBelow(c, root, live, resources, effective, nodes, names, q);
    }
  }

  lemma VisibleFromAbove(resources: Resources, effective: set<Bytes>, names: seq<Bytes>, n: Bytes)
    requires n != []
    ensures forall q :: Visible(resources, effective, names + [n], q) ==> Visible(resources, effective, names, q)
  {
    forall q | Visible(resources, effective, names + [n], q) ensures Visible(resources, effective, names, q) {
      var own := resources[q].ownerNames;
      assert own[|names|] == (names + [n])[|names|];
      assert names == own[..|names|];
    }
  }

  lemma VisibleFromBelow(c: Bytes, root: ServiceId, live: LiveMap, resources: Resources, effective: set<Bytes>,
                         nodes: NodeMap, names: seq<Bytes>, q: Bytes)
    requires Published(c, root, live, resources, effective, nodes)
    requires Visible(resources, effective, names, q) && resources[q].ownerNames != names
    ensures exists n :: n in NamesAt(resources, effective, names, Service)
                        && Visible(resources, effective, names + [n], q)
  {
    hide Published, NamesAt;
    var own, k := resources[q].ownerNames, |names|;
    assert own[..k] == names;
    OwnerIsAt(c, root, live, resources, effective, nodes, q, k);
    assert names + [own[k]] == own[..k + 1];
  }

  function Subtree(t: Staged, names: seq<Bytes>): Option<Staged>
    decreases |names|
  {
    if names == [] then Some(t)
    else if names[0] in t.children then Subtree(t.children[names[0]], names[1..])
    else None
  }

  /** Every visible resource hangs in the staged tree below the services that own it. */
  lemma {:induction false} OwnersAreStaged(c: Bytes, root: ServiceId, live: LiveMap, resources: Resources,
                                           effective: set<Bytes>, nodes: NodeMap, q: Bytes, k: nat)
    requires Published(c, root, live, resources, effective, nodes)
    requires Visible(resources, effective, [], q) && k <= |resources[q].ownerNames|
    ensures var names := resources[q].ownerNames;
            Subtree(ExpectedTree(live, resources, effective, names[..k]), names[k..])
            == Some(ExpectedTree(live, resources, effective, names))
    decreases |resources[q].ownerNames| - k
  {
    hide Published, NamesAt, ExpectedFolders;
    var names := resources[q].ownerNames;
    if k < |names| {
      OwnerIsAt(c, root, live, resources, effective, nodes, q, k);
      OwnersAreStaged(c, root, live, resources, effective, nodes, q, k + 1);
      TakeMore(names, k);
      assert names[k..][1..] == names[k + 1..];
    } else {
      TakeAll(names);
    }
  }
}
