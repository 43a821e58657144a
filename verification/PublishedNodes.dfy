/**
  What a published component looks like, node by node and spelled out: the nodes of each kind of
  resource, with their paths, names and contents.
 */
module PublishedNodes {
  import opened Wrappers
  import opened Ordering
  import opened NodeId
  import opened ResourcePaths
  import opened ServiceDiscovery
  import opened PublicationPlan
  import opened Snapshot
  import opened SnapshotTree
  import opened Staging
  import opened PublishedFolders

  function NodeAt(nodes: NodeMap, path: Bytes): Option<NodeSpec>
  {
    if path in nodes then Some(nodes[path]) else None
  }

  /** The node of a service or of the component itself, its folders and its resources, as text. */
  function OwnerText(c: Bytes, ownerPath: Bytes): Bytes
  {
    if ownerPath == [] then "rtt/components/" + Escaped(c) else "rtt/components/" + Escaped(c) + "/" + ownerPath
  }

  function FolderText(c: Bytes, r: ResourceRecord, category: Bytes): Bytes
  {
    OwnerText(c, r.ownerPath) + "/" + category
  }

  function ResourceText(c: Bytes, r: ResourceRecord): Bytes
  {
    "rtt/components/" + Escaped(c) + "/" + r.path
  }

  ghost predicate FolderShown(c: Bytes, nodes: NodeMap, r: ResourceRecord, category: Bytes, browseName: Bytes)
  {
    NodeAt(nodes, FolderText(c, r, category))
    == Some(NodeSpec(ObjectNode, OwnerText(c, r.ownerPath), browseName, AsComponent, DocumentOf(r.owner)))
  }

  ghost predicate ResourceShown(c: Bytes, nodes: NodeMap, r: ResourceRecord, category: Bytes, class_: NodeClass,
                                content: Content)
  {
    NodeAt(nodes, ResourceText(c, r))
    == Some(NodeSpec(class_, FolderText(c, r, category), r.name, AsComponent, content))
  }

  /** The node of this name below a resource, if there is one. */
  ghost predicate ShownBelow(c: Bytes, nodes: NodeMap, r: ResourceRecord, name: Bytes, link: Link,
                             content: Option<Content>)
  {
    NodeAt(nodes, ResourceText(c, r) + "/" + name)
    == if content.None? then None
       else Some(NodeSpec(VariableNode, ResourceText(c, r), name, link, content.value))
  }

  /** An operation is a method with its arguments; an empty list of types has no node. */
  ghost predicate OperationShown(c: Bytes, nodes: NodeMap, r: ResourceRecord, s: Schema)
  {
    && FolderShown(c, nodes, r, "operations", "Operations")
    && ResourceShown(c, nodes, r, "operations", MethodNode, Callable(s.inputs, s.outputs))
    && ShownBelow(c, nodes, r, "rttInputTypes", AsProperty, if s.inputs == [] then None else Some(Texts(s.inputs)))
    && ShownBelow(c, nodes, r, "rttOutputTypes", AsProperty, if s.outputs == [] then None else Some(Texts(s.outputs)))
    && ShownBelow(c, nodes, r, "rttOutputSources", AsProperty,
                  if s.outputs == [] then None else Some(Numbers(s.sources)))
  }

  /** A property is a variable, read-only unless it can be assigned, with its type; so is an attribute. */
  ghost predicate PropertyShown(c: Bytes, nodes: NodeMap, r: ResourceRecord, typeName: Bytes, assignable: bool)
  {
    && FolderShown(c, nodes, r, "properties", "Properties")
    && ResourceShown(c, nodes, r, "properties", VariableNode, DataValue(assignable))
    && ShownBelow(c, nodes, r, "rttType", AsProperty, Some(Text(typeName)))
  }

  ghost predicate AttributeShown(c: Bytes, nodes: NodeMap, r: ResourceRecord, typeName: Bytes, assignable: bool)
  {
    && FolderShown(c, nodes, r, "attributes", "Attributes")
    && ResourceShown(c, nodes, r, "attributes", VariableNode, DataValue(assignable))
    && ShownBelow(c, nodes, r, "rttType", AsProperty, Some(Text(typeName)))
  }

  /** A port is an object with type, direction and description, and with a value if it holds one. */
  ghost predicate PortShown(c: Bytes, nodes: NodeMap, r: ResourceRecord, p: Live)
    requires p.LivePort?
  {
    && FolderShown(c, nodes, r, "ports", "Ports")
    && ResourceShown(c, nodes, r, "ports", ObjectNode, PortObject)
    && ShownBelow(c, nodes, r, "type", AsComponent, Some(Text(p.typeName)))
    && ShownBelow(c, nodes, r, "direction", AsComponent, Some(Direction(p.input)))
    && ShownBelow(c, nodes, r, "description", AsComponent, Some(Text(p.description)))
    && ShownBelow(c, nodes, r, "value", AsComponent, if p.input || p.keepsLast then Some(PortSample(p.input)) else None)
  }

  /** A service is an object in its owner's folder of services. */
  ghost predicate ServiceShown(c: Bytes, nodes: NodeMap, r: ResourceRecord)
  {
    && FolderShown(c, nodes, r, "services", "Services")
    && r.service.Some?
    && ResourceShown(c, nodes, r, "services", ObjectNode, DocumentOf(r.service.value))
  }

  lemma ComponentSpelled(c: Bytes)
    ensures ComponentPath(c) == "rtt/components/" + Escaped(c)
  {
    ComponentsEscapesToItself();
    hide Escaped;
    assert ComponentsPath() == "rtt" + "/" + "components" == "rtt/components";
    assert "rtt/components" + "/" == "rtt/components/";
  }

  lemma PathsSpelled(c: Bytes, r: ResourceRecord)
    ensures MainPath(c, r) == ResourceText(c, r)
    ensures OwnerNodePath(c, r.ownerPath) == OwnerText(c, r.ownerPath)
    ensures FolderPath(c, r) == FolderText(c, r, Category(r.kind))
  {
    hide Escaped, Category, ComponentPath;
    ComponentSpelled(c);
    CategoryEscapesToItself(r.kind);
  }

  lemma MetadataUnreserved(m: Metadata)
    ensures AllUnreserved(MetadataName(m)) && MetadataName(m) != []
  {
    match m
    case InputTypes =>
    case OutputTypes =>
    case OutputSources =>
    case ValueType =>
    case PortType =>
    case PortDirection =>
    case PortDescription =>
    case PortValue =>
  }

  lemma MetadataSpelled(c: Bytes, r: ResourceRecord, m: Metadata)
    ensures MetadataPath(c, r, m) == ResourceText(c, r) + "/" + MetadataName(m)
  {
    hide Escaped, MetadataName, MainPath, AllUnreserved, ResourceText;
    PathsSpelled(c, r);
    MetadataUnreserved(m);
    UnreservedEscapesToItself(MetadataName(m));
  }

  /** Every place of a published resource holds exactly its part. */
  lemma NodeOfPlace(c: Bytes, root: ServiceId, live: LiveMap, resources: Resources, effective: set<Bytes>,
                    nodes: NodeMap, q: Bytes, place: Place)
    requires Published(c, root, live, resources, effective, nodes) && q in effective && q in resources
    requires Mappable(live, resources[q])
    ensures NodeAt(nodes, PlacePath(c, resources[q], place))
            == if PartAt(c, live, resources[q], place).Some? then Some(PartAt(c, live, resources[q], place).value.node)
               else None
  {
    hide PartAt, Published, PlacePath, Mappable;
    ContentOfPlace(c, root, live, resources, effective, nodes, q, place);
    PartSits(c, live, resources[q], place);
  }

  lemma PartSits(c: Bytes, live: LiveMap, r: ResourceRecord, place: Place)
    requires Mappable(live, r)
    ensures PartAt(c, live, r, place).Some? ==> PartAt(c, live, r, place).value.path == PlacePath(c, r, place)
  {
  }

  /** The node of a resource, its folder, and one of the nodes below it. */
  lemma NodesOfResource(c: Bytes, root: ServiceId, live: LiveMap, resources: Resources, effective: set<Bytes>,
                        nodes: NodeMap, q: Bytes)
    requires Published(c, root, live, resources, effective, nodes) && q in effective && q in resources
    requires Mappable(live, resources[q])
    ensures var r := resources[q];
            && FolderShown(c, nodes, r, Category(r.kind), CategoryBrowseName(r.kind))
            && ResourceShown(c, nodes, r, Category(r.kind), Main(live, r).0, Main(live, r).1)
  {
    hide Published, Mappable, NodeAt, Category, CategoryBrowseName, Main, OwnerText, FolderText, ResourceText;
    NodeOfPlace(c, root, live, resources, effective, nodes, q, MainPlace);
    NodeOfPlace(c, root, live, resources, effective, nodes, q, FolderPlace);
    PathsSpelled(c, resources[q]);
  }

  lemma NodeBelow(c: Bytes, root: ServiceId, live: LiveMap, resources: Resources, effective: set<Bytes>,
                  nodes: NodeMap, q: Bytes, m: Metadata)
    requires Published(c, root, live, resources, effective, nodes) && q in effective && q in resources
    requires Mappable(live, resources[q])
    ensures ShownBelow(c, nodes, resources[q], MetadataName(m), MetadataLink(m), Held(live, resources[q], m))
  {
    hide Published, Mappable, NodeAt, MetadataName, MetadataLink, Held, ResourceText;
    NodeOfPlace(c, root, live, resources, effective, nodes, q, MetadataPlace(m));
    PathsSpelled(c, resources[q]);
    MetadataSpelled(c, resources[q], m);
  }

  lemma IsMapped(c: Bytes, root: ServiceId, live: LiveMap, resources: Resources, effective: set<Bytes>,
                 nodes: NodeMap, q: Bytes)
    requires Published(c, root, live, resources, effective, nodes) && q in effective && q in resources
    ensures Mappable(live, resources[q]) && resources[q].path == q
  {
    PublishedTree(c, root, live, resources, effective, nodes);
  }

  lemma KindOf(live: LiveMap, r: ResourceRecord)
    requires Mappable(live, r)
    ensures match r.kind
            case Operation =>
              && r.path in live && live[r.path].LiveOperation? && live[r.path].schema.Some?
              && var s := live[r.path].schema.value;
                 && Main(live, r) == (MethodNode, Callable(s.inputs, s.outputs))
                 && Held(live, r, InputTypes) == (if s.inputs == [] then None else Some(Texts(s.inputs)))
                 && Held(live, r, OutputTypes) == (if s.outputs == [] then None else Some(Texts(s.outputs)))
                 && Held(live, r, OutputSources) == (if s.outputs == [] then None else Some(Numbers(s.sources)))
            case Property =>
              && r.path in live && live[r.path].LiveValue?
              && Main(live, r) == (VariableNode, DataValue(live[r.path].assignable))
              && Held(live, r, ValueType) == Some(Text(live[r.path].typeName))
            case Attribute =>
              && r.path in live && live[r.path].LiveValue?
              && Main(live, r) == (VariableNode, DataValue(live[r.path].assignable))
              && Held(live, r, ValueType) == Some(Text(live[r.path].typeName))
            case Port =>
              && r.path in live && live[r.path].LivePort?
              && var p := live[r.path];
                 && Main(live, r) == (ObjectNode, PortObject)
                 && Held(live, r, PortType) == Some(Text(p.typeName))
                 && Held(live, r, PortDirection) == Some(Direction(p.input))
                 && Held(live, r, PortDescription) == Some(Text(p.description))
                 && Held(live, r, PortValue) == (if p.input || p.keepsLast then Some(PortSample(p.input)) else None)
            case Service => r.service.Some? && Main(live, r) == (ObjectNode, DocumentOf(r.service.value))
  {
  }

  lemma NamesOf(kind: ResourceKind)
    ensures match kind
            case Operation =>
              && Category(kind) == "operations" && CategoryBrowseName(kind) == "Operations"
              && MetadataName(InputTypes) == "rttInputTypes" && MetadataLink(InputTypes) == AsProperty
              && MetadataName(OutputTypes) == "rttOutputTypes" && MetadataLink(OutputTypes) == AsProperty
              && MetadataName(OutputSources) == "rttOutputSources" && MetadataLink(OutputSources) == AsProperty
            case Property =>
              && Category(kind) == "properties" && CategoryBrowseName(kind) == "Properties"
              && MetadataName(ValueType) == "rttType" && MetadataLink(ValueType) == AsProperty
            case Attribute =>
              && Category(kind) == "attributes" && CategoryBrowseName(kind) == "Attributes"
              && MetadataName(ValueType) == "rttType" && MetadataLink(ValueType) == AsProperty
            case Port =>
              && Category(kind) == "ports" && CategoryBrowseName(kind) == "Ports"
              && MetadataName(PortType) == "type" && MetadataLink(PortType) == AsComponent
              && MetadataName(PortDirection) == "direction" && MetadataLink(PortDirection) == AsComponent
              && MetadataName(PortDescription) == "description" && MetadataLink(PortDescription) == AsComponent
              && MetadataName(PortValue) == "value" && MetadataLink(PortValue) == AsComponent
            case Service => Category(kind) == "services" && CategoryBrowseName(kind) == "Services"
  {
  }

  lemma PublishedOperation(c: Bytes, root: ServiceId, live: LiveMap, resources: Resources, effective: set<Bytes>,
                           nodes: NodeMap, q: Bytes)
    requires Published(c, root, live, resources, effective, nodes) && q in effective && q in resources
    requires resources[q].kind == Operation
    ensures q in live && live[q].LiveOperation? && live[q].schema.Some?
            && OperationShown(c, nodes, resources[q], live[q].schema.value)
  {
    IsMapped(c, root, live, resources, effective, nodes, q);
    KindOf(live, resources[q]);
    NamesOf(resources[q].kind);
    hide Published, FolderShown, ResourceShown, ShownBelow, Held, Main, Mappable, MetadataName, MetadataLink, Category,
      CategoryBrowseName;
    NodesOfResource(c, root, live, resources, effective, nodes, q);
    NodeBelow(c, root, live, resources, effective, nodes, q, InputTypes);
    NodeBelow(c, root, live, resources, effective, nodes, q, OutputTypes);
    NodeBelow(c, root, live, resources, effective, nodes, q, OutputSources);
  }

  lemma PublishedProperty(c: Bytes, root: ServiceId, live: LiveMap, resources: Resources, effective: set<Bytes>,
                          nodes: NodeMap, q: Bytes)
    requires Published(c, root, live, resources, effective, nodes) && q in effective && q in resources
    requires resources[q].kind == Property
    ensures q in live && live[q].LiveValue?
            && PropertyShown(c, nodes, resources[q], live[q].typeName, live[q].assignable)
  {
    IsMapped(c, root, live, resources, effective, nodes, q);
    KindOf(live, resources[q]);
    NamesOf(resources[q].kind);
    hide Published, FolderShown, ResourceShown, ShownBelow, Held, Main, Mappable, MetadataName, MetadataLink, Category,
      CategoryBrowseName;
    NodesOfResource(c, root, live, resources, effective, nodes, q);
    NodeBelow(c, root, live, resources, effective, nodes, q, ValueType);
  }

  lemma PublishedAttribute(c: Bytes, root: ServiceId, live: LiveMap, resources: Resources, effective: set<Bytes>,
                           nodes: NodeMap, q: Bytes)
    requires Published(c, root, live, resources, effective, nodes) && q in effective && q in resources
    requires resources[q].kind == Attribute
    ensures q in live && live[q].LiveValue?
            && AttributeShown(c, nodes, resources[q], live[q].typeName, live[q].assignable)
  {
    IsMapped(c, root, live, resources, effective, nodes, q);
    KindOf(live, resources[q]);
    NamesOf(resources[q].kind);
    hide Published, FolderShown, ResourceShown, ShownBelow, Held, Main, Mappable, MetadataName, MetadataLink, Category,
      CategoryBrowseName;
    NodesOfResource(c, root, live, resources, effective, nodes, q);
    NodeBelow(c, root, live, resources, effective, nodes, q, ValueType);
  }

  lemma PublishedPort(c: Bytes, root: ServiceId, live: LiveMap, resources: Resources, effective: set<Bytes>,
                      nodes: NodeMap, q: Bytes)
    requires Published(c, root, live, resources, effective, nodes) && q in effective && q in resources
    requires resources[q].kind == Port
    ensures q in live && live[q].LivePort? && PortShown(c, nodes, resources[q], live[q])
  {
    IsMapped(c, root, live, resources, effective, nodes, q);
    KindOf(live, resources[q]);
    NamesOf(resources[q].kind);
    hide Published, FolderShown, ResourceShown, ShownBelow, Held, Main, Mappable, MetadataName, MetadataLink, Category,
      CategoryBrowseName;
    NodesOfResource(c, root, live, resources, effective, nodes, q);
    NodeBelow(c, root, live, resources, effective, nodes, q, PortType);
    NodeBelow(c, root, live, resources, effective, nodes, q, PortDirection);
    NodeBelow(c, root, live, resources, effective, nodes, q, PortDescription);
    NodeBelow(c, root, live, resources, effective, nodes, q, PortValue);
  }

  lemma PublishedService(c: Bytes, root: ServiceId, live: LiveMap, resources: Resources, effective: set<Bytes>,
                         nodes: NodeMap, q: Bytes)
    requires Published(c, root, live, resources, effective, nodes) && q in effective && q in resources
    requires resources[q].kind == Service
    ensures ServiceShown(c, nodes, resources[q])
  {
    IsMapped(c, root, live, resources, effective, nodes, q);
    KindOf(live, resources[q]);
    NamesOf(resources[q].kind);
    hide Published, FolderShown, ResourceShown, ShownBelow, Held, Main, Mappable, MetadataName, MetadataLink, Category,
      CategoryBrowseName;
    NodesOfResource(c, root, live, resources, effective, nodes, q);
  }

  /** And the component itself is an object below the shared components node. */
  lemma PublishedComponentNode(c: Bytes, root: ServiceId, live: LiveMap, resources: Resources, effective: set<Bytes>,
                               nodes: NodeMap)
    requires Published(c, root, live, resources, effective, nodes)
    ensures NodeAt(nodes, OwnerText(c, []))
            == Some(NodeSpec(ObjectNode, "rtt/components", c, AsComponent, DocumentOf(root)))
  {
    hide Sound, Escaped;
    RootSpelled(c, root);
    hide IsSnapshot, OwnersRecorded, NoneCalledThis, RootPart, OwnerText;
    SnapshotHas(c, root, live, resources, effective, nodes, RootPart(c, root));
  }

  lemma RootSpelled(c: Bytes, root: ServiceId)
    ensures RootPart(c, root)
            == Part(OwnerText(c, []), NodeSpec(ObjectNode, "rtt/components", c, AsComponent, DocumentOf(root)))
  {
    ComponentSpelled(c);
    ComponentsEscapesToItself();
    hide Escaped, ComponentPath;
    assert ComponentsPath() == "rtt" + "/" + "components" == "rtt/components";
  }
}
