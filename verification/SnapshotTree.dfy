/**
  A diagnostic-free snapshot is a well-formed tree: its nodes are exactly what its resources
  contribute, two resources share at most a category folder, every parent is there, and
  creating nodes by depth creates parents first.
 */
module SnapshotTree {
  import opened Wrappers
  import opened Ordering
  import opened NodeId
  import opened ResourcePaths
  import opened ServiceDiscovery
  import opened PublicationPlan
  import opened Snapshot

  // -------------------------------------------------------------------- depth

  /** The number of slashes. */
  function PathDepth(path: Bytes): nat
  {
    if path == [] then 0 else (if path[0] == '/' then 1 else 0) + PathDepth(path[1..])
  }

  lemma {:induction false} DepthOfConcat(a: Bytes, b: Bytes)
    ensures PathDepth(a + b) == PathDepth(a) + PathDepth(b)
  {
    if a == [] {
      assert a + b == b;
    } else {
      DepthOfConcat(a[1..], b);
      assert (a + b)[1..] == a[1..] + b;
    }
  }

  lemma {:induction false} DepthOfSegment(s: Bytes)
    requires SlashFree(s)
    ensures PathDepth(s) == 0
  {
    if s != [] { DepthOfSegment(s[1..]); }
  }

  lemma DepthOfChild(path: Bytes, segment: Bytes)
    ensures PathDepth(AppendNodeSegment(path, segment)) == PathDepth(path) + 1
  {
    hide Escaped;
    EscapedAlphabet(segment);
    DepthOfSegment(Escaped(segment));
    DepthOfConcat(path + "/", Escaped(segment));
    DepthOfConcat(path, "/");
    assert "/"[1..] == [];
  }

  lemma DepthOfComponent(c: Bytes)
    ensures PathDepth(ComponentPath(c)) == 2
    ensures PathDepth(ComponentsPath()) == 1
  {
    hide Escaped;
    DepthOfSegment("rtt");
    DepthOfChild("rtt", "components");
    DepthOfChild(ComponentsPath(), c);
  }

  lemma {:induction false} DepthOfOwner(c: Bytes, names: seq<Bytes>)
    ensures PathDepth(OwnerNodePath(c, ServicePath(names))) == 2 + 2 * |names|
  {
    hide Category, Escaped, ComponentPath;
    DepthOfComponent(c);
    if names != [] {
      var n := |names| - 1;
      DepthOfOwner(c, names[..n]);
      ServicePathSpelled(names);
      OwnerBelowOwner(c, names[..n], names[n]);
      assert names == names[..n] + [names[n]];
      DepthOfChild(OwnerNodePath(c, ServicePath(names[..n])), Category(Service));
      DepthOfChild(AppendNodeSegment(OwnerNodePath(c, ServicePath(names[..n])), Category(Service)), names[n]);
    }
  }

  function ServiceRecord(names: seq<Bytes>, name: Bytes): ResourceRecord
  {
    ResourceRecord(Service, ServicePath(names + [name]), ServicePath(names), names, name, 0, None, Unavailable)
  }

  lemma OwnerBelowOwner(c: Bytes, names: seq<Bytes>, name: Bytes)
    ensures OwnerNodePath(c, ServicePath(names + [name]))
            == AppendNodeSegment(AppendNodeSegment(OwnerNodePath(c, ServicePath(names)), Category(Service)), name)
  {
    hide Category, Escaped, ComponentPath;
    ServicePathSpelled(names + [name]);
    ChildPath(names, name);
    var r := ServiceRecord(names, name);
    SpellBelow(c, r);
  }

  lemma SpellBelow(c: Bytes, r: ResourceRecord)
    requires r.path == ResourcePath(r.ownerPath, r.kind, r.name)
    ensures MainPath(c, r) == AppendNodeSegment(FolderPath(c, r), r.name)
  {
    hide Category, Escaped, ComponentPath;
    SpellingsAgree(c, r);
  }

  // -------------------------------------------------------- paths determine parts

  lemma LaterSlash(a: Bytes, x: Bytes, b: Bytes, y: Bytes)
    requires a + "/" + x == b + "/" + y
    ensures |a| < |b| ==> '/' in x
  {
    if |a| < |b| {
      assert (a + "/" + x)[|b|] == x[|b| - |a| - 1];
      assert (b + "/" + y)[|b|] == '/';
    }
  }

  lemma LastSegment(a: Bytes, x: Bytes, b: Bytes, y: Bytes)
    requires SlashFree(x) && SlashFree(y) && a + "/" + x == b + "/" + y
    ensures a == b && x == y
  {
    LaterSlash(a, x, b, y);
    LaterSlash(b, y, a, x);
    var s, t := a + "/" + x, b + "/" + y;
    assert a == s[..|a|] && b == t[..|a|];
    assert x == s[|a| + 1..] && y == t[|a| + 1..];
  }

  lemma ChildrenDiffer(a: Bytes, x: Bytes, b: Bytes, y: Bytes)
    requires AppendNodeSegment(a, x) == AppendNodeSegment(b, y)
    ensures a == b && Escaped(x) == Escaped(y)
    ensures x != [] && y != [] ==> x == y
  {
    hide Escaped;
    EscapedAlphabet(x);
    EscapedAlphabet(y);
    LastSegment(a, Escaped(x), b, Escaped(y));
    EscapedCollision(x, y);
  }

  lemma MetadataNamesDiffer(a: Metadata, b: Metadata, kind: ResourceKind)
    ensures MetadataName(a) == MetadataName(b) <==> a == b
    ensures MetadataName(a) != Category(kind)
    ensures MetadataName(a) != []
  {
    MetadataInitials(a);
    MetadataInitials(b);
    CategoryLast(kind);
  }

  lemma CategoryLast(kind: ResourceKind)
    ensures var s := Category(kind); |s| > 0 && s[|s| - 1] == 's' && s[0] != 'r'
  {
  }

  lemma MetadataInitials(m: Metadata)
    ensures var s := MetadataName(m);
            && |s| > 3
            && (s[|s| - 1] == 's' ==> s[0] == 'r')
            && (m == InputTypes <==> |s| == 13 && s[0] == 'r')
            && (m == OutputTypes <==> |s| == 14 && s[0] == 'r')
            && (m == OutputSources <==> |s| == 16 && s[0] == 'r')
            && (m == ValueType <==> |s| == 7 && s[0] == 'r')
            && (m == PortType <==> s[0] == 't')
            && (m == PortDirection <==> s[0] == 'd' && s[1] == 'i')
            && (m == PortDescription <==> s[0] == 'd' && s[1] == 'e')
            && (m == PortValue <==> s[0] == 'v')
  {
    match m
    case InputTypes => assert |MetadataName(m)| == 13;
    case OutputTypes => assert |MetadataName(m)| == 14;
    case OutputSources => assert |MetadataName(m)| == 16;
    case ValueType => assert |MetadataName(m)| == 7;
    case PortType =>
    case PortDirection =>
    case PortDescription =>
    case PortValue =>
  }

  datatype Place = FolderPlace | MainPlace | MetadataPlace(m: Metadata)

  function PlacePath(c: Bytes, r: ResourceRecord, place: Place): Bytes
  {
    match place
    case FolderPlace => FolderPath(c, r)
    case MainPlace => MainPath(c, r)
    case MetadataPlace(m) => MetadataPath(c, r, m)
  }

  function PlaceParent(c: Bytes, r: ResourceRecord, place: Place): Bytes
  {
    match place
    case FolderPlace => OwnerNodePath(c, r.ownerPath)
    case MainPlace => FolderPath(c, r)
    case MetadataPlace(_) => MainPath(c, r)
  }

  lemma PlaceDepth(c: Bytes, r: ResourceRecord, place: Place)
    requires WellPlaced(r)
    ensures PathDepth(PlacePath(c, r, place)) == PathDepth(PlaceParent(c, r, place)) + 1
    ensures PathDepth(PlacePath(c, r, place)) ==
            (match place case FolderPlace => 3 case MainPlace => 4 case MetadataPlace(_) => 5) + 2 * |r.ownerNames|
  {
    hide Category, Escaped, ComponentPath, MetadataName;
    DepthOfOwner(c, r.ownerNames);
    DepthOfChild(OwnerNodePath(c, r.ownerPath), Category(r.kind));
    SpellBelow(c, r);
    DepthOfChild(FolderPath(c, r), r.name);
    if place.MetadataPlace? {
      DepthOfChild(MainPath(c, r), MetadataName(place.m));
    }
  }

  /** Places with one path belong to one resource, or are the folder of two of a category. */
  lemma PlacesDiffer(c: Bytes, r: ResourceRecord, place: Place, r': ResourceRecord, place': Place)
    requires WellPlaced(r) && WellPlaced(r') && PlacePath(c, r, place) == PlacePath(c, r', place')
    ensures place == place'
    ensures place.FolderPlace? ==> r.kind == r'.kind && r.ownerPath == r'.ownerPath
    ensures !place.FolderPlace? ==> r.path == r'.path
  {
    hide PathDepth, Category, Escaped, ComponentPath, MetadataName, ServicePath, ResourcePath;
    PlaceDepth(c, r, place);
    PlaceDepth(c, r', place');
    if place.FolderPlace? && place'.FolderPlace? {
      SameFolder(c, r, r');
    } else if place.MainPlace? && place'.MainPlace? {
      SameMain(c, r, r');
    } else if place.MetadataPlace? && place'.MetadataPlace? {
      MetadataNamesDiffer(place.m, place'.m, r.kind);
      MetadataNamesDiffer(place'.m, place'.m, r.kind);
      ChildrenDiffer(MainPath(c, r), MetadataName(place.m), MainPath(c, r'), MetadataName(place'.m));
      SameMain(c, r, r');
    } else if place.MetadataPlace? && place'.FolderPlace? {
      FolderIsNoMetadata(c, r, place.m, r');
    } else if place.FolderPlace? && place'.MetadataPlace? {
      FolderIsNoMetadata(c, r', place'.m, r);
    }
  }

  lemma FolderIsNoMetadata(c: Bytes, r: ResourceRecord, m: Metadata, r': ResourceRecord)
    ensures MetadataPath(c, r, m) != FolderPath(c, r')
  {
    hide Category, Escaped, ComponentPath, MetadataName;
    if MetadataPath(c, r, m) == FolderPath(c, r') {
      ChildrenDiffer(MainPath(c, r), MetadataName(m), OwnerNodePath(c, r'.ownerPath), Category(r'.kind));
      MetadataNamesDiffer(m, m, r'.kind);
      CategoryEscapesToItself(r'.kind);
    }
  }

  lemma SameMain(c: Bytes, r: ResourceRecord, r': ResourceRecord)
    requires MainPath(c, r) == MainPath(c, r')
    ensures r.path == r'.path
  {
    hide ComponentPath;
    var n := |ComponentPath(c)| + 1;
    assert r.path == MainPath(c, r)[n..] && r'.path == MainPath(c, r')[n..];
  }

  lemma SameFolder(c: Bytes, r: ResourceRecord, r': ResourceRecord)
    requires WellPlaced(r) && WellPlaced(r') && FolderPath(c, r) == FolderPath(c, r')
    ensures r.kind == r'.kind && r.ownerPath == r'.ownerPath
  {
    hide Category, Escaped, ComponentPath, WellPlaced;
    CategoryEscapesToItself(r.kind);
    CategoryEscapesToItself(r'.kind);
    ChildrenDiffer(OwnerNodePath(c, r.ownerPath), Category(r.kind), OwnerNodePath(c, r'.ownerPath), Category(r'.kind));
    CategoriesDiffer(r.kind, r'.kind);
    SameOwner(ComponentPath(c), r.ownerPath, r'.ownerPath);
  }

  lemma SameOwner(base: Bytes, a: Bytes, b: Bytes)
    requires (if a == [] then base else ResourceNodePath(base, a)) == (if b == [] then base else ResourceNodePath(base, b))
    ensures a == b
  {
    if a != [] && b != [] {
      assert a == ResourceNodePath(base, a)[|base| + 1..] && b == ResourceNodePath(base, b)[|base| + 1..];
    }
  }

  // ---------------------------------------------------------- what is where

  predicate Mappable(live: LiveMap, r: ResourceRecord)
  {
    r.error.NoError? && if r.kind == Service then r.service.Some? else Supported(r, live).Some?
  }

  /** What a mappable resource puts below its own node. */
  function Held(live: LiveMap, r: ResourceRecord, m: Metadata): Option<Content>
    requires Mappable(live, r)
  {
    match r.kind
    case Operation =>
      var s := live[r.path].schema.value;
      (match m
       case InputTypes => if s.inputs == [] then None else Some(Texts(s.inputs))
       case OutputTypes => if s.outputs == [] then None else Some(Texts(s.outputs))
       case OutputSources => if s.outputs == [] then None else Some(Numbers(s.sources))
       case _ => None)
    case Property | Attribute => if m.ValueType? then Some(Text(live[r.path].typeName)) else None
    case Port =>
      var p := live[r.path];
      (match m
       case PortType => Some(Text(p.typeName))
       case PortDirection => Some(Direction(p.input))
       case PortDescription => Some(Text(p.description))
       case PortValue => if p.input || p.keepsLast then Some(PortSample(p.input)) else None
       case _ => None)
    case Service => None
  }

  /** The node of the resource itself. */
  function Main(live: LiveMap, r: ResourceRecord): (NodeClass, Content)
    requires Mappable(live, r)
  {
    match r.kind
    case Operation => (MethodNode, Callable(live[r.path].schema.value.inputs, live[r.path].schema.value.outputs))
    case Property | Attribute => (VariableNode, DataValue(live[r.path].assignable))
    case Port => (ObjectNode, PortObject)
    case Service => (ObjectNode, DocumentOf(r.service.value))
  }

  function PartAt(c: Bytes, live: LiveMap, r: ResourceRecord, place: Place): Option<Part>
    requires Mappable(live, r)
  {
    match place
    case FolderPlace => Some(FolderPart(c, r))
    case MainPlace => Some(MainPart(c, r, Main(live, r).0, Main(live, r).1))
    case MetadataPlace(m) =>
      if Held(live, r, m).None? then None else Some(MetadataPart(c, r, m, Held(live, r, m).value))
  }

  lemma OutcomeIsMapped(c: Bytes, mandatory: seq<Mandatory>, live: LiveMap, r: ResourceRecord)
    requires Outcome(c, mandatory, live, r).Ok?
    ensures Mappable(live, r)
  {
  }

  /** A resource contributes exactly one part for each of its places. */
  lemma OutcomeByPlace(c: Bytes, mandatory: seq<Mandatory>, live: LiveMap, r: ResourceRecord, part: Part)
    requires Outcome(c, mandatory, live, r).Ok?
    requires Mappable(live, r)
    ensures part in Outcome(c, mandatory, live, r).value <==> exists place :: PartAt(c, live, r, place) == Some(part)
  {
    hide FolderPart, MetadataPart, MainPart, MetadataName;
    var parts := Outcome(c, mandatory, live, r).value;
    assert PartAt(c, live, r, FolderPlace) == Some(parts[0]);
    if part in parts {
      PlaceOfPart(c, mandatory, live, r, part);
    }
    if place :| PartAt(c, live, r, place) == Some(part) {
      PartOfPlace(c, mandatory, live, r, place);
    }
  }

  lemma PlaceOfPart(c: Bytes, mandatory: seq<Mandatory>, live: LiveMap, r: ResourceRecord, part: Part)
    requires Outcome(c, mandatory, live, r).Ok? && part in Outcome(c, mandatory, live, r).value
    requires Mappable(live, r)
    ensures exists place :: PartAt(c, live, r, place) == Some(part)
  {
    hide FolderPart, MetadataPart, MainPart, MetadataName;
    if part == FolderPart(c, r) {
      assert PartAt(c, live, r, FolderPlace) == Some(part);
    } else if part == MainPart(c, r, Main(live, r).0, Main(live, r).1) {
      assert PartAt(c, live, r, MainPlace) == Some(part);
    } else {
      match r.kind
      case Operation =>
        MetadataFound(c, live, r, InputTypes, part);
        MetadataFound(c, live, r, OutputTypes, part);
        MetadataFound(c, live, r, OutputSources, part);
      case Property => MetadataFound(c, live, r, ValueType, part);
      case Attribute => MetadataFound(c, live, r, ValueType, part);
      case Port =>
        MetadataFound(c, live, r, PortType, part);
        MetadataFound(c, live, r, PortDirection, part);
        MetadataFound(c, live, r, PortDescription, part);
        MetadataFound(c, live, r, PortValue, part);
      case Service =>
    }
  }

  lemma MetadataFound(c: Bytes, live: LiveMap, r: ResourceRecord, m: Metadata, part: Part)
    requires Mappable(live, r)
    ensures Held(live, r, m).Some? && part == MetadataPart(c, r, m, Held(live, r, m).value) ==>
              exists place :: PartAt(c, live, r, place) == Some(part)
  {
    hide FolderPart, MetadataPart, MainPart, MetadataName;
    if Held(live, r, m).Some? && part == MetadataPart(c, r, m, Held(live, r, m).value) {
      assert PartAt(c, live, r, MetadataPlace(m)) == Some(part);
    }
  }

  lemma PartOfPlace(c: Bytes, mandatory: seq<Mandatory>, live: LiveMap, r: ResourceRecord, place: Place)
    requires Outcome(c, mandatory, live, r).Ok?
    requires Mappable(live, r)
    ensures PartAt(c, live, r, place).Some? ==> PartAt(c, live, r, place).value in Outcome(c, mandatory, live, r).value
  {
    hide FolderPart, MetadataPart, MainPart, MetadataName;
  }

  // --------------------------------------------------------------- the tree

  /** What makes a set of resources publishable: a closed part of a proper inventory, all mappable. */
  ghost predicate Sound(live: LiveMap, resources: Resources, effective: set<Bytes>)
  {
    && InventoryTree(resources)
    && OneOwnerPerPath(resources)
    && effective <= resources.Keys
    && OwnersClosed(resources, effective)
    && forall p :: p in effective ==> Mappable(live, resources[p])
  }

  /** One of the resources puts this part somewhere. */
  ghost predicate Placed(c: Bytes, live: LiveMap, resources: Resources, effective: set<Bytes>, part: Part)
  {
    exists p, place :: p in effective && PlacedBy(c, live, resources, p, place, part)
  }

  ghost predicate PlacedBy(c: Bytes, live: LiveMap, resources: Resources, p: Bytes, place: Place, part: Part)
  {
    p in resources && Mappable(live, resources[p]) && PartAt(c, live, resources[p], place) == Some(part)
  }

  ghost predicate HasPart(nodes: NodeMap, part: Part)
  {
    part.path in nodes && nodes[part.path] == part.node
  }

  /** The node map holds the component's node and what the resources put there, nothing else. */
  ghost predicate IsSnapshot(c: Bytes, root: ServiceId, live: LiveMap, resources: Resources, effective: set<Bytes>,
                             nodes: NodeMap)
  {
    forall part :: HasPart(nodes, part) <==>
                   part == RootPart(c, root) || Placed(c, live, resources, effective, part)
  }

  /** A published component: a diagnostic-free snapshot of a discovered inventory. */
  ghost predicate Published(c: Bytes, root: ServiceId, live: LiveMap, resources: Resources, effective: set<Bytes>,
                            nodes: NodeMap)
  {
    && Sound(live, resources, effective)
    && IsSnapshot(c, root, live, resources, effective, nodes)
    && OwnersRecorded(resources)
    && NoneCalledThis(resources)
  }

  lemma SnapshotHas(c: Bytes, root: ServiceId, live: LiveMap, resources: Resources, effective: set<Bytes>,
                    nodes: NodeMap, part: Part)
    requires IsSnapshot(c, root, live, resources, effective, nodes)
    ensures HasPart(nodes, part) <==> part == RootPart(c, root) || Placed(c, live, resources, effective, part)
  {
  }

  lemma PartsSit(c: Bytes, live: LiveMap, resources: Resources, p: Bytes, place: Place, part: Part)
    requires PlacedBy(c, live, resources, p, place, part)
    ensures part.path == PlacePath(c, resources[p], place) && part.node.parent == PlaceParent(c, resources[p], place)
  {
    hide Category, Escaped, ComponentPath, MetadataName, Mappable, Held, Main;
  }

  /** Two parts with one path are the same part, and come from one resource unless they are a folder. */
  lemma SharedOnlyFolders(c: Bytes, live: LiveMap, resources: Resources, p: Bytes, place: Place, a: Part,
                          q: Bytes, place': Place, b: Part)
    requires InventoryTree(resources) && OneOwnerPerPath(resources)
    requires PlacedBy(c, live, resources, p, place, a) && PlacedBy(c, live, resources, q, place', b)
    requires a.path == b.path
    ensures a == b && place == place'
    ensures p != q ==> place == FolderPlace
  {
    hide Category, CategoryBrowseName, Escaped, ComponentPath, MetadataName, Mappable, Held, Main, OwnerNodePath,
      PlacePath, PlaceParent;
    var r, s := resources[p], resources[q];
    PartsSit(c, live, resources, p, place, a);
    PartsSit(c, live, resources, q, place', b);
    assert WellPlaced(r) && WellPlaced(s);
    PlacesDiffer(c, r, place, s, place');
  }

  lemma RootIsApart(c: Bytes, root: ServiceId, live: LiveMap, resources: Resources, p: Bytes, place: Place, part: Part)
    requires InventoryTree(resources) && PlacedBy(c, live, resources, p, place, part)
    ensures part.path != RootPart(c, root).path
  {
    hide Category, Escaped, ComponentPath, MetadataName, Mappable, Held, Main;
    PartsSit(c, live, resources, p, place, part);
    assert WellPlaced(resources[p]);
    PlaceDepth(c, resources[p], place);
    DepthOfComponent(c);
  }

  lemma ParentIsPlaced(c: Bytes, root: ServiceId, live: LiveMap, resources: Resources, effective: set<Bytes>,
                       p: Bytes, place: Place)
    requires Sound(live, resources, effective) && p in effective
    ensures var parent := PlaceParent(c, resources[p], place);
            || parent == RootPart(c, root).path
            || exists part: Part :: part.path == parent && Placed(c, live, resources, effective, part)
  {
    hide Category, Escaped, MetadataName, Held, Main, ComponentPath, AppendNodeSegment;
    var r := resources[p];
    match place
    case MetadataPlace(_) =>
      var part := PartAt(c, live, r, MainPlace).value;
      assert PlacedBy(c, live, resources, p, MainPlace, part);
    case MainPlace =>
      var part := PartAt(c, live, r, FolderPlace).value;
      assert PlacedBy(c, live, resources, p, FolderPlace, part);
    case FolderPlace =>
      if r.ownerPath != [] {
        OwnerIsEffective(live, resources, effective, p);
        var part := PartAt(c, live, resources[r.ownerPath], MainPlace).value;
        assert PlacedBy(c, live, resources, r.ownerPath, MainPlace, part);
      }
  }

  lemma OwnerIsEffective(live: LiveMap, resources: Resources, effective: set<Bytes>, p: Bytes)
    requires Sound(live, resources, effective) && p in effective && resources[p].ownerPath != []
    ensures resources[p].ownerPath in effective
    ensures resources[resources[p].ownerPath].kind == Service
    ensures resources[resources[p].ownerPath].path == resources[p].ownerPath
  {
    hide ServicePath, ResourcePath, Mappable;
    var names := resources[p].ownerNames;
    RootPathIsEmpty(names);
    TakeAll(names);
    assert ServicePath(names[..|names|]) in ServicesAbove(names);
    OwnerOfService(resources, names);
  }

  /** Nothing is orphaned: a parent is in the snapshot, or it is the shared components node. */
  lemma ParentsPresent(c: Bytes, root: ServiceId, live: LiveMap, resources: Resources, effective: set<Bytes>,
                       nodes: NodeMap, path: Bytes)
    requires Sound(live, resources, effective) && IsSnapshot(c, root, live, resources, effective, nodes)
    requires path in nodes
    ensures nodes[path].parent in nodes || (path == ComponentPath(c) && nodes[path].parent == ComponentsPath())
    ensures PathDepth(path) == PathDepth(nodes[path].parent) + 1
  {
    hide Category, Escaped, MetadataName, Held, Main, PlacePath, PathDepth, AppendNodeSegment, IsSnapshot;
    var part := Part(path, nodes[path]);
    SnapshotHas(c, root, live, resources, effective, nodes, part);
    DepthOfComponent(c);
    if part != RootPart(c, root) {
      var p, place :| p in effective && PlacedBy(c, live, resources, p, place, part);
      var r := resources[p];
      PartsSit(c, live, resources, p, place, part);
      assert WellPlaced(r);
      PlaceDepth(c, r, place);
      ParentIsPlaced(c, root, live, resources, effective, p, place);
      if above: Part :| above.path == part.node.parent && Placed(c, live, resources, effective, above) {
        SnapshotHas(c, root, live, resources, effective, nodes, above);
      }
      SnapshotHas(c, root, live, resources, effective, nodes, RootPart(c, root));
    }
  }

  // ------------------------------------------------------------ creation order

  /** The order in which createCandidate sorts the node specifications. */
  predicate DepthLess(a: Bytes, b: Bytes)
  {
    if PathDepth(a) == PathDepth(b) then Less(a, b) else PathDepth(a) < PathDepth(b)
  }

  lemma DepthLessIsStrictTotalOrder()
    ensures StrictTotalOrder(DepthLess)
  {
    hide Less, PathDepth;
    LessIsStrictTotalOrder();
    forall x, y, z | DepthLess(x, y) && DepthLess(y, z) ensures DepthLess(x, z) {
      if PathDepth(x) == PathDepth(y) == PathDepth(z) { LessTransitive(x, y, z); }
    }
    forall x ensures !DepthLess(x, x) { LessIrreflexive(x); }
    forall x, y ensures x == y || DepthLess(x, y) || DepthLess(y, x) { LessConnected(x, y); }
  }

  lemma ShallowerIsEarlier(order: seq<Bytes>, i: nat, j: nat)
    requires StrictlySorted(DepthLess, order) && i < |order| && j < |order|
    ensures PathDepth(order[j]) < PathDepth(order[i]) ==> j < i
    ensures order[j] == order[i] ==> j == i
  {
    hide PathDepth, Less;
    DepthLessIsStrictTotalOrder();
    assert i < j ==> DepthLess(order[i], order[j]);
    assert j < i ==> DepthLess(order[j], order[i]);
  }

  lemma ComponentIsFirst(c: Bytes, root: ServiceId, live: LiveMap, resources: Resources, effective: set<Bytes>,
                         nodes: NodeMap, order: seq<Bytes>)
    requires Sound(live, resources, effective) && IsSnapshot(c, root, live, resources, effective, nodes)
    requires StrictlySorted(DepthLess, order) && Elements(order) == nodes.Keys
    ensures |order| > 0 && order[0] == ComponentPath(c)
  {
    hide PathDepth, IsSnapshot, Sound, Less, ComponentPath;
    SnapshotHas(c, root, live, resources, effective, nodes, RootPart(c, root));
    assert ComponentPath(c) in Elements(order);
    var j :| 0 <= j < |order| && order[j] == ComponentPath(c);
    assert order[0] in Elements(order);
    OthersAreDeeper(c, root, live, resources, effective, nodes, order[0]);
    DepthOfComponent(c);
    ShallowerIsEarlier(order, 0, j);
  }

  /** In that order the component's node comes first and every other parent before its children. */
  lemma ParentsFirst(c: Bytes, root: ServiceId, live: LiveMap, resources: Resources, effective: set<Bytes>,
                     nodes: NodeMap, order: seq<Bytes>, i: nat)
    requires Sound(live, resources, effective) && IsSnapshot(c, root, live, resources, effective, nodes)
    requires StrictlySorted(DepthLess, order) && Elements(order) == nodes.Keys && i < |order|
    ensures order[i] in nodes
    ensures if i == 0 then order[0] == ComponentPath(c) else nodes[order[i]].parent in order[..i]
  {
    hide PathDepth, IsSnapshot, Sound, Less, ComponentPath;
    assert order[i] in Elements(order);
    ComponentIsFirst(c, root, live, resources, effective, nodes, order);
    ShallowerIsEarlier(order, 0, i);
    ParentsPresent(c, root, live, resources, effective, nodes, order[i]);
    if i > 0 {
      var parent := nodes[order[i]].parent;
      assert parent in Elements(order);
      var j :| 0 <= j < |order| && order[j] == parent;
      ShallowerIsEarlier(order, i, j);
      assert order[..i][j] == parent;
    }
  }

  /** The component's node is the only one at its depth. */
  lemma OthersAreDeeper(c: Bytes, root: ServiceId, live: LiveMap, resources: Resources, effective: set<Bytes>,
                        nodes: NodeMap, path: Bytes)
    requires Sound(live, resources, effective) && IsSnapshot(c, root, live, resources, effective, nodes)
    requires path in nodes
    ensures path == ComponentPath(c) || PathDepth(path) > 2
  {
    hide Category, Escaped, MetadataName, Held, Main, PlacePath, PathDepth, AppendNodeSegment, PlaceParent, IsSnapshot;
    var part := Part(path, nodes[path]);
    SnapshotHas(c, root, live, resources, effective, nodes, part);
    if part != RootPart(c, root) {
      var p, place :| p in effective && PlacedBy(c, live, resources, p, place, part);
      PartsSit(c, live, resources, p, place, part);
      assert WellPlaced(resources[p]);
      PlaceDepth(c, resources[p], place);
    }
  }

  // ----------------------------------------------------------- the whole snapshot

  ghost predicate Agrees(nodes: NodeMap, parts: seq<Part>)
  {
    && (forall a, b :: a in parts && b in parts && a.path == b.path ==> a == b)
    && forall a :: a in parts && a.path in nodes ==> nodes[a.path] == a.node
  }

  /** Without conflicts, inserting nodes one after the other collects exactly all of them. */
  lemma {:induction false} InsertAllCollects(nodes: NodeMap, parts: seq<Part>, part: Part)
    requires Agrees(nodes, parts)
    ensures HasPart(InsertAll(nodes, parts), part) <==> HasPart(nodes, part) || part in parts
  {
    if parts != [] {
      var n := |parts| - 1;
      assert parts == parts[..n] + [parts[n]];
      assert Agrees(nodes, parts[..n]);
      InsertAllCollects(nodes, parts[..n], part);
      if part.path == parts[n].path {
        InsertAllCollects(nodes, parts[..n], parts[n]);
      }
    }
  }

  /** One more resource keeps the snapshot exact. */
  lemma SnapshotGrows(c: Bytes, root: ServiceId, mandatory: seq<Mandatory>, live: LiveMap, resources: Resources,
                      done: set<Bytes>, p: Bytes, nodes: NodeMap)
    requires InventoryTree(resources) && OneOwnerPerPath(resources) && done <= resources.Keys && p in resources
    requires IsSnapshot(c, root, live, resources, done, nodes)
    requires Outcome(c, mandatory, live, resources[p]).Ok?
    ensures IsSnapshot(c, root, live, resources, done + {p},
                       InsertAll(nodes, Outcome(c, mandatory, live, resources[p]).value))
  {
    hide Outcome, PartAt, InsertAll, Mappable, InventoryTree, OneOwnerPerPath, RootPart;
    var parts := Outcome(c, mandatory, live, resources[p]).value;
    OutcomeIsMapped(c, mandatory, live, resources[p]);
    forall part | part in parts ensures exists place :: PlacedBy(c, live, resources, p, place, part) {
      OutcomeByPlace(c, mandatory, live, resources[p], part);
      var place :| PartAt(c, live, resources[p], place) == Some(part);
      assert PlacedBy(c, live, resources, p, place, part);
    }
    NewPartsAgree(c, root, live, resources, done, p, nodes, parts);
    forall part
      ensures HasPart(InsertAll(nodes, parts), part) <==>
              part == RootPart(c, root) || Placed(c, live, resources, done + {p}, part)
    {
      InsertAllCollects(nodes, parts, part);
      assert HasPart(nodes, part) <==> part == RootPart(c, root) || Placed(c, live, resources, done, part);
      OutcomeByPlace(c, mandatory, live, resources[p], part);
      PlacedMore(c, live, resources, done, p, part);
    }
  }

  lemma PlacedMore(c: Bytes, live: LiveMap, resources: Resources, done: set<Bytes>, p: Bytes, part: Part)
    requires p in resources && Mappable(live, resources[p])
    ensures Placed(c, live, resources, done + {p}, part) <==>
            || Placed(c, live, resources, done, part)
            || exists place :: PartAt(c, live, resources[p], place) == Some(part)
  {
    hide PartAt, Mappable;
    if place :| PartAt(c, live, resources[p], place) == Some(part) {
      assert PlacedBy(c, live, resources, p, place, part);
    }
  }

  lemma NewPartsAgree(c: Bytes, root: ServiceId, live: LiveMap, resources: Resources, done: set<Bytes>, p: Bytes,
                      nodes: NodeMap, parts: seq<Part>)
    requires InventoryTree(resources) && OneOwnerPerPath(resources) && done <= resources.Keys && p in resources
    requires IsSnapshot(c, root, live, resources, done, nodes)
    requires forall part :: part in parts ==> exists place :: PlacedBy(c, live, resources, p, place, part)
    ensures Agrees(nodes, parts)
  {
    hide PlacedBy, InventoryTree, OneOwnerPerPath, RootPart, IsSnapshot;
    forall a, b | a in parts && b in parts && a.path == b.path ensures a == b {
      var place, place' :| PlacedBy(c, live, resources, p, place, a) && PlacedBy(c, live, resources, p, place', b);
      SharedOnlyFolders(c, live, resources, p, place, a, p, place', b);
    }
    forall a | a in parts && a.path in nodes ensures nodes[a.path] == a.node {
      var place :| PlacedBy(c, live, resources, p, place, a);
      var b := Part(a.path, nodes[a.path]);
      SnapshotHas(c, root, live, resources, done, nodes, b);
      if b == RootPart(c, root) {
        RootIsApart(c, root, live, resources, p, place, a);
      } else {
        var q, place' :| q in done && PlacedBy(c, live, resources, q, place', b);
        SharedOnlyFolders(c, live, resources, p, place, a, q, place', b);
      }
    }
  }

  /** An operation of the root service with a mandatory name has no inputs and returns what is required of it. */
  ghost predicate MeetsMandatory(mandatory: seq<Mandatory>, r: ResourceRecord, s: Schema)
  {
    forall i :: 0 <= i < |mandatory| && r.ownerPath == [] && mandatory[i].name == r.name
                && (forall j :: 0 <= j < i ==> mandatory[j].name != r.name) ==>
      s.inputs == [] && s.outputs == [mandatory[i].outputType] && s.sources == [-1]
  }

  /**
    What it takes for a resource to be mapped: it was discovered without an error and RTT still
    knows it, with a described operation, a value of a known type, or a port of one direction.
   */
  ghost predicate CanBeMapped(mandatory: seq<Mandatory>, live: LiveMap, r: ResourceRecord)
  {
    && r.error == NoError
    && match r.kind
       case Operation =>
         && r.path in live && live[r.path].LiveOperation? && live[r.path].schema.Some?
         && MeetsMandatory(mandatory, r, live[r.path].schema.value)
       case Property => r.path in live && live[r.path].LiveValue? && live[r.path].hasValue
       case Attribute => r.path in live && live[r.path].LiveValue? && live[r.path].hasValue
       case Port =>
         && r.path in live && live[r.path].LivePort? && live[r.path].hasValue
         && (live[r.path].input <==> !live[r.path].output)
       case Service => r.service.Some?
  }

  /** The bundle appenders map exactly these resources. */
  lemma MappedExactly(c: Bytes, mandatory: seq<Mandatory>, live: LiveMap, r: ResourceRecord)
    ensures Outcome(c, mandatory, live, r).Ok? <==> CanBeMapped(mandatory, live, r)
    ensures Outcome(c, mandatory, live, r).Err? ==> Outcome(c, mandatory, live, r).error == Obstacle(mandatory, r)
  {
    hide OperationParts, ValueParts, PortParts, ServiceParts;
    if r.ownerPath == [] {
      FirstOfName(mandatory, r.name);
      assert forall i :: 0 <= i < |mandatory| ==> mandatory[i] in mandatory;
    }
  }

  /** What is reported of a resource that cannot be mapped. */
  ghost function Obstacle(mandatory: seq<Mandatory>, r: ResourceRecord): Diagnostic
  {
    if r.kind == Operation && r.ownerPath == [] && exists m :: m in mandatory && m.name == r.name
    then MandatorySchema(r.path)
    else Unmappable(r.path)
  }

  ghost function Obstacles(mandatory: seq<Mandatory>, live: LiveMap, resources: Resources, paths: set<Bytes>)
    : set<Diagnostic>
  {
    set p | p in paths && p in resources && !CanBeMapped(mandatory, live, resources[p]) :: Obstacle(mandatory, resources[p])
  }

  /** The required type is that of the first mandatory operation of the name. */
  lemma {:induction false} FirstOfName(mandatory: seq<Mandatory>, name: Bytes)
    ensures TypeFor(mandatory, name).None? <==> forall i :: 0 <= i < |mandatory| ==> mandatory[i].name != name
    ensures forall i :: 0 <= i < |mandatory| && mandatory[i].name == name
                        && (forall j :: 0 <= j < i ==> mandatory[j].name != name) ==>
              TypeFor(mandatory, name) == Some(mandatory[i].outputType)
    ensures TypeFor(mandatory, name).Some? ==>
              exists i :: 0 <= i < |mandatory| && mandatory[i].name == name
                          && (forall j :: 0 <= j < i ==> mandatory[j].name != name)
  {
    if mandatory != [] && mandatory[0].name != name {
      var rest := mandatory[1..];
      FirstOfName(rest, name);
      forall i | 0 <= i < |mandatory| && mandatory[i].name == name
                 && (forall j :: 0 <= j < i ==> mandatory[j].name != name)
        ensures TypeFor(mandatory, name) == Some(mandatory[i].outputType)
      {
        assert rest[i - 1] == mandatory[i];
        assert forall j :: 0 <= j < i - 1 ==> rest[j] == mandatory[j + 1];
      }
      if TypeFor(mandatory, name).Some? {
        var k :| 0 <= k < |rest| && rest[k].name == name && (forall j :: 0 <= j < k ==> rest[j].name != name);
        assert mandatory[k + 1].name == name;
        assert forall j :: 0 < j < k + 1 ==> mandatory[j] == rest[j - 1];
      } else {
        assert forall i :: 0 < i < |mandatory| ==> mandatory[i] == rest[i - 1];
      }
    }
  }

  /** Every resource of the plan can be mapped. */
  ghost predicate AllMapped(mandatory: seq<Mandatory>, live: LiveMap, resources: Resources, paths: set<Bytes>)
  {
    forall p :: p in paths && p in resources ==> CanBeMapped(mandatory, live, resources[p])
  }

  /** One bundle after the other, in the order of a std::set. */
  method AppendResources(snapshot: ComponentSnapshot, mandatory: seq<Mandatory>, live: LiveMap, resources: Resources,
                         effective: set<Bytes>, ghost c: Bytes, ghost root: ServiceId)
    requires InventoryTree(resources) && effective <= resources.Keys && snapshot.component == c
    requires snapshot.diagnostics == [] ==>
               OneOwnerPerPath(resources) && IsSnapshot(c, root, live, resources, {}, snapshot.nodes)
    modifies snapshot
    ensures Elements(snapshot.diagnostics)
            == old(Elements(snapshot.diagnostics)) + Obstacles(mandatory, live, resources, effective)
    ensures snapshot.diagnostics == [] <==>
            old(snapshot.diagnostics) == [] && AllMapped(mandatory, live, resources, effective)
    ensures snapshot.diagnostics == [] ==> IsSnapshot(c, root, live, resources, effective, snapshot.nodes)
  {
    hide Outcome, CanBeMapped, AllMapped, Obstacle, Obstacles, InsertAll, InventoryTree, OneOwnerPerPath, IsSnapshot,
      WellPlaced;
    var paths := SortedSet(effective);
    NoObstacles(mandatory, live, resources);
    assert Elements(paths[..0]) == {};
    for i := 0 to |paths|
      invariant Elements(snapshot.diagnostics)
                == old(Elements(snapshot.diagnostics)) + Obstacles(mandatory, live, resources, Elements(paths[..i]))
      invariant snapshot.diagnostics == [] <==>
                old(snapshot.diagnostics) == [] && AllMapped(mandatory, live, resources, Elements(paths[..i]))
      invariant snapshot.diagnostics == [] ==>
                IsSnapshot(c, root, live, resources, Elements(paths[..i]), snapshot.nodes)
    {
      TakeMore(paths, i);
      var p := paths[i];
      assert p in Elements(paths);
      InventoryRecord(resources, p);
      MappedExactly(c, mandatory, live, resources[p]);
      ObstaclesGrow(mandatory, live, resources, Elements(paths[..i]), p);
      ghost var before := snapshot.Value();
      snapshot.AppendBundle(mandatory, live, resources[p]);
      OneMoreDiagnostic(before, snapshot.Value(), Outcome(c, mandatory, live, resources[p]));
      if snapshot.diagnostics == [] {
        SnapshotGrows(c, root, mandatory, live, resources, Elements(paths[..i]), p, before.nodes);
      }
    }
    TakeAll(paths);
  }

  lemma OneMoreDiagnostic(before: State, after: State, outcome: Result<seq<Part>, Diagnostic>)
    requires after == Applied(before, outcome)
    ensures Elements(after.diagnostics) == Elements(before.diagnostics) + if outcome.Err? then {outcome.error} else {}
    ensures after.diagnostics == [] <==> before.diagnostics == [] && outcome.Ok?
  {
    hide InsertAll;
  }

  /**
    Takes the snapshot of a component with root service `root`. Its diagnostics are those of the
    plan and one for each planned resource that cannot be mapped; without any, it holds exactly the
    nodes of these resources.
   */
  method SnapshotComponent(c: Bytes, mandatory: seq<Mandatory>, g: ServiceGraph, root: ServiceId, live: LiveMap,
                           mode: Mode, selectors: seq<Bytes>)
    returns (snapshot: ComponentSnapshot, plan: Plan, ghost resources: Resources)
    requires ClosedGraph(g) && root in g
    ensures fresh(snapshot) && snapshot.component == c && plan.mode == mode
    ensures var all := Discovered(g, root);
            && resources == all.resources
            && Elements(plan.diagnostics)
               == PlanFindings(mandatory, mode, ComponentInventory(resources, DuplicateDiagnostics(all.duplicates)),
                               Elements(selectors))
    ensures IsEffective(RequiredPaths(mandatory), mode, resources, Elements(selectors), plan.effective)
    ensures Elements(snapshot.diagnostics)
            == Elements(plan.diagnostics) + Obstacles(mandatory, live, resources, plan.effective)
    ensures snapshot.diagnostics == [] <==>
            plan.diagnostics == [] && AllMapped(mandatory, live, resources, plan.effective)
    ensures snapshot.diagnostics == [] ==>
            && Sound(live, resources, plan.effective)
            && IsSnapshot(c, root, live, resources, plan.effective, snapshot.nodes)
            && OwnersRecorded(resources) && NoneCalledThis(resources)
            && Elements(RequiredPaths(mandatory)) <= plan.effective
  {
    hide Outcome, AllMapped, Obstacles, InsertAll, IsEffective, PlanFindings, Discovered, OwnersRecorded, NoneCalledThis,
      InventoryTree, OneOwnerPerPath, IsSnapshot, Sound, Category, ComponentPath, ComponentsPath,
      RequiredPaths, ResourcePath;
    var inventory := DiscoverInventory(g, Some(root));
    resources := inventory.resources;
    plan := BuildPublicationPlan(mandatory, mode, inventory, selectors);
    DiscoveredNames(g, root);
    CleanFindsNothing(mandatory, mode, inventory, Elements(selectors));
    NoElements(plan.diagnostics);
    if plan.diagnostics == [] {
      OneOwnerWithoutDuplicates(g, root);
    }
    snapshot := new ComponentSnapshot(c, plan.diagnostics);
    RootSnapshot(c, root, live, resources);
    snapshot.InsertNode(ComponentPath(c), NodeSpec(ObjectNode, ComponentsPath(), c, AsComponent, DocumentOf(root)),
                        map[], []);
    assert snapshot.nodes == map[RootPart(c, root).path := RootPart(c, root).node];
    EffectiveIsInside(RequiredPaths(mandatory), mode, resources, Elements(selectors), plan.effective);
    AppendResources(snapshot, mandatory, live, inventory.resources, plan.effective, c, root);
    if snapshot.diagnostics == [] {
      RequiredIsEffective(RequiredPaths(mandatory), mode, inventory, Elements(selectors), plan.effective);
      SoundPlan(c, mandatory, live, mode, resources, Elements(selectors), plan.effective);
    }
  }

  lemma NoObstacles(mandatory: seq<Mandatory>, live: LiveMap, resources: Resources)
    ensures Obstacles(mandatory, live, resources, {}) == {} && AllMapped(mandatory, live, resources, {})
  {
    hide CanBeMapped, Obstacle;
  }

  lemma ObstaclesGrow(mandatory: seq<Mandatory>, live: LiveMap, resources: Resources, paths: set<Bytes>, p: Bytes)
    requires p in resources
    ensures Obstacles(mandatory, live, resources, paths + {p})
            == Obstacles(mandatory, live, resources, paths)
               + if CanBeMapped(mandatory, live, resources[p]) then {} else {Obstacle(mandatory, resources[p])}
    ensures AllMapped(mandatory, live, resources, paths + {p}) <==>
            AllMapped(mandatory, live, resources, paths) && CanBeMapped(mandatory, live, resources[p])
  {
    hide CanBeMapped, Obstacle;
  }

  lemma RootSnapshot(c: Bytes, root: ServiceId, live: LiveMap, resources: Resources)
    ensures InsertAll(map[], []) == map[]
    ensures InsertAll(map[], [] + [RootPart(c, root)]) == map[RootPart(c, root).path := RootPart(c, root).node]
    ensures IsSnapshot(c, root, live, resources, {}, map[RootPart(c, root).path := RootPart(c, root).node])
  {
    hide ComponentPath, ComponentsPath;
    InsertMore(map[], [], RootPart(c, root));
  }

  lemma InventoryRecord(resources: Resources, p: Bytes)
    requires InventoryTree(resources) && p in resources
    ensures WellPlaced(resources[p])
  {
  }

  lemma EffectiveIsInside(required: seq<Bytes>, mode: Mode, resources: Resources, selectors: set<Bytes>,
                          effective: set<Bytes>)
    requires IsEffective(required, mode, resources, selectors, effective)
    ensures effective <= resources.Keys && OwnersClosed(resources, effective)
  {
  }

  lemma RequiredIsEffective(required: seq<Bytes>, mode: Mode, inventory: ComponentInventory, selectors: set<Bytes>,
                            effective: set<Bytes>)
    requires IsEffective(required, mode, inventory.resources, selectors, effective)
    requires Clean(required, mode, inventory, selectors)
    ensures Elements(required) <= effective
  {
    forall p | p in Elements(required) ensures p in effective {
      assert p in Available(required, inventory.resources);
    }
  }

  lemma SoundPlan(c: Bytes, mandatory: seq<Mandatory>, live: LiveMap, mode: Mode, resources: Resources,
                  selectors: set<Bytes>, effective: set<Bytes>)
    requires InventoryTree(resources) && OneOwnerPerPath(resources)
    requires IsEffective(RequiredPaths(mandatory), mode, resources, selectors, effective)
    requires AllMapped(mandatory, live, resources, effective)
    ensures Sound(live, resources, effective)
  {
    hide Outcome, InventoryTree, OneOwnerPerPath, RequiredPaths, Mappable;
    EffectiveIsInside(RequiredPaths(mandatory), mode, resources, selectors, effective);
    forall p | p in effective ensures Mappable(live, resources[p]) {
      MappedExactly(c, mandatory, live, resources[p]);
      OutcomeIsMapped(c, mandatory, live, resources[p]);
    }
  }

  /** What iterating a std::set visits. */
  method SortedSet(s: set<Bytes>) returns (r: seq<Bytes>)
    ensures StrictlySorted(Less, r) && Elements(r) == s
  {
    var list := ListOf(s);
    LessIsStrictTotalOrder();
    r := SortUnique(Less, list);
  }
}
