/**
  The snapshot of a component (snapshotComponent and its bundle appenders in
  src/object_model.cpp): the node specifications that a publication will create. What a
  resource contributes is a function of its record; the methods that insert node after node
  are proved to insert exactly that.
 */
module Snapshot {
  import opened Wrappers
  import opened Ordering
  import opened NodeId
  import opened ResourcePaths
  import opened ServiceDiscovery
  import opened PublicationPlan
  import Calls = RemoteOperation

  datatype NodeClass = ObjectNode | VariableNode | MethodNode

  datatype Link = AsComponent | AsProperty

  /** What a node holds beyond its place. */
  datatype Content =
    | DocumentOf(service: ServiceId)
    | PortObject
    | Text(text: Bytes)
    | Texts(texts: seq<Bytes>)
    | Numbers(numbers: seq<int>)
    | Direction(input: bool)
    | DataValue(writable: bool)
    | PortSample(writable: bool)
    | Callable(inputs: seq<Bytes>, outputs: seq<Bytes>)

  datatype NodeSpec = NodeSpec(class_: NodeClass, parent: Bytes, browseName: Bytes, link: Link, content: Content)

  type Schema = Calls.Schema

  type NodeMap = map<Bytes, NodeSpec>

  datatype Part = Part(path: Bytes, node: NodeSpec)

  /**
    What RTT answers while a record is mapped; a missing entry is a resource that went away. An
    operation comes with what describing it came to.
   */
  datatype Live =
    | LiveOperation(schema: Option<Schema>)
    | LiveValue(typeName: Bytes, hasValue: bool, assignable: bool)
    | LivePort(typeName: Bytes, hasValue: bool, input: bool, output: bool, keepsLast: bool, description: Bytes)

  type LiveMap = map<Bytes, Live>

  /** The nodes below a resource's own node. */
  datatype Metadata =
    | InputTypes | OutputTypes | OutputSources | ValueType
    | PortType | PortDirection | PortDescription | PortValue

  function MetadataName(m: Metadata): Bytes
  {
    match m
    case InputTypes => "rttInputTypes"
    case OutputTypes => "rttOutputTypes"
    case OutputSources => "rttOutputSources"
    case ValueType => "rttType"
    case PortType => "type"
    case PortDirection => "direction"
    case PortDescription => "description"
    case PortValue => "value"
  }

  function MetadataLink(m: Metadata): Link
  {
    match m
    case InputTypes | OutputTypes | OutputSources | ValueType => AsProperty
    case PortType | PortDirection | PortDescription | PortValue => AsComponent
  }

  // -------------------------------------------------------------------- paths

  function FolderPath(c: Bytes, r: ResourceRecord): Bytes
  {
    AppendNodeSegment(OwnerNodePath(c, r.ownerPath), Category(r.kind))
  }

  function MainPath(c: Bytes, r: ResourceRecord): Bytes
  {
    ResourceNodePath(ComponentPath(c), r.path)
  }

  function MetadataPath(c: Bytes, r: ResourceRecord, m: Metadata): Bytes
  {
    AppendNodeSegment(MainPath(c, r), MetadataName(m))
  }

  /** The category folder that the source composes as text, and the node path it appends a name to. */
  function CategoryText(c: Bytes, r: ResourceRecord): Bytes
  {
    ResourceNodePath(ComponentPath(c), CategorySpelled(r))
  }

  function CategorySpelled(r: ResourceRecord): Bytes
  {
    if r.ownerPath == [] then Category(r.kind) else r.ownerPath + "/" + Category(r.kind)
  }

  /** The three ways in which the source spells a folder and a resource node agree. */
  lemma SpellingsAgree(c: Bytes, r: ResourceRecord)
    requires r.path == ResourcePath(r.ownerPath, r.kind, r.name)
    ensures CategoryText(c, r) == FolderPath(c, r)
    ensures AppendNodeSegment(FolderPath(c, r), r.name) == MainPath(c, r)
  {
    hide Category, Escaped, ComponentPath;
    CategoryEscapesToItself(r.kind);
    if r.ownerPath != [] {
      Associative(ComponentPath(c) + "/", r.ownerPath, "/" + Category(r.kind));
      Associative(ComponentPath(c) + "/" + r.ownerPath, "/", Category(r.kind));
      Associative(r.ownerPath, "/", Category(r.kind));
    }
    Associative(ComponentPath(c) + "/", CategorySpelled(r), "/" + Escaped(r.name));
    Associative(CategorySpelled(r), "/", Escaped(r.name));
    Associative(CategoryText(c, r), "/", Escaped(r.name));
  }

  // -------------------------------------------------------------------- parts

  function RootPart(c: Bytes, root: ServiceId): Part
  {
    Part(ComponentPath(c), NodeSpec(ObjectNode, ComponentsPath(), c, AsComponent, DocumentOf(root)))
  }

  function FolderPart(c: Bytes, r: ResourceRecord): Part
  {
    Part(FolderPath(c, r),
         NodeSpec(ObjectNode, OwnerNodePath(c, r.ownerPath), CategoryBrowseName(r.kind), AsComponent,
                  DocumentOf(r.owner)))
  }

  function MainPart(c: Bytes, r: ResourceRecord, class_: NodeClass, content: Content): Part
  {
    Part(MainPath(c, r), NodeSpec(class_, FolderPath(c, r), r.name, AsComponent, content))
  }

  function MetadataPart(c: Bytes, r: ResourceRecord, m: Metadata, content: Content): Part
  {
    Part(MetadataPath(c, r, m), NodeSpec(VariableNode, MainPath(c, r), MetadataName(m), MetadataLink(m), content))
  }

  function OperationParts(c: Bytes, r: ResourceRecord, s: Schema): seq<Part>
  {
    [FolderPart(c, r)]
    + (if s.inputs == [] then [] else [MetadataPart(c, r, InputTypes, Texts(s.inputs))])
    + (if s.outputs == [] then []
       else [MetadataPart(c, r, OutputTypes, Texts(s.outputs)), MetadataPart(c, r, OutputSources, Numbers(s.sources))])
    + [MainPart(c, r, MethodNode, Callable(s.inputs, s.outputs))]
  }

  function ValueParts(c: Bytes, r: ResourceRecord, typeName: Bytes, assignable: bool): seq<Part>
  {
    [FolderPart(c, r), MainPart(c, r, VariableNode, DataValue(assignable)), MetadataPart(c, r, ValueType, Text(typeName))]
  }

  function PortParts(c: Bytes, r: ResourceRecord, p: Live): seq<Part>
    requires p.LivePort?
  {
    [FolderPart(c, r), MainPart(c, r, ObjectNode, PortObject),
     MetadataPart(c, r, PortType, Text(p.typeName)), MetadataPart(c, r, PortDirection, Direction(p.input)),
     MetadataPart(c, r, PortDescription, Text(p.description))]
    + (if p.input then [MetadataPart(c, r, PortValue, PortSample(true))]
       else if p.keepsLast then [MetadataPart(c, r, PortValue, PortSample(false))]
       else [])
  }

  function ServiceParts(c: Bytes, r: ResourceRecord): seq<Part>
    requires r.service.Some?
  {
    [FolderPart(c, r), MainPart(c, r, ObjectNode, DocumentOf(r.service.value))]
  }

  // ----------------------------------------------------------------- outcomes

  function MandatoryType(mandatory: seq<Mandatory>, r: ResourceRecord): Option<Bytes>
  {
    if r.kind != Operation || r.ownerPath != [] then None else TypeFor(mandatory, r.name)
  }

  function TypeFor(mandatory: seq<Mandatory>, name: Bytes): Option<Bytes>
  {
    if mandatory == [] then None
    else if mandatory[0].name == name then Some(mandatory[0].outputType)
    else TypeFor(mandatory[1..], name)
  }

  /** No inputs and one return value of the required type. */
  predicate ReturnsOnly(s: Schema, type_: Bytes)
  {
    s.inputs == [] && s.outputs == [type_] && s.sources == [-1]
  }

  function Supported(r: ResourceRecord, live: LiveMap): Option<Live>
  {
    if !r.error.NoError? || r.path !in live then None
    else
      var l := live[r.path];
      match r.kind
      case Operation => if l.LiveOperation? && l.schema.Some? then Some(l) else None
      case Property | Attribute => if l.LiveValue? && l.hasValue then Some(l) else None
      case Port => if l.LivePort? && l.input != l.output && l.hasValue then Some(l) else None
      case Service => None
  }

  /** The nodes of a resource, or why it cannot be published. */
  function Outcome(c: Bytes, mandatory: seq<Mandatory>, live: LiveMap, r: ResourceRecord): Result<seq<Part>, Diagnostic>
  {
    var l := Supported(r, live);
    match r.kind
    case Operation =>
      var required := MandatoryType(mandatory, r);
      if required.Some? && (l.None? || !ReturnsOnly(l.value.schema.value, required.value)) then Err(MandatorySchema(r.path))
      else if l.None? then Err(Unmappable(r.path))
      else Ok(OperationParts(c, r, l.value.schema.value))
    case Property | Attribute =>
      if l.None? then Err(Unmappable(r.path)) else Ok(ValueParts(c, r, l.value.typeName, l.value.assignable))
    case Port =>
      if l.None? then Err(Unmappable(r.path)) else Ok(PortParts(c, r, l.value))
    case Service =>
      if !r.error.NoError? || r.service.None? then Err(Unmappable(r.path)) else Ok(ServiceParts(c, r))
  }

  function InsertAll(nodes: NodeMap, parts: seq<Part>): NodeMap
  {
    if parts == [] then nodes
    else
      var n := |parts| - 1;
      InsertAll(nodes, parts[..n])[parts[n].path := parts[n].node]
  }

  lemma InsertMore(nodes: NodeMap, parts: seq<Part>, last: Part)
    ensures InsertAll(nodes, parts + [last]) == InsertAll(nodes, parts)[last.path := last.node]
  {
    assert (parts + [last])[..|parts|] == parts;
  }

  datatype State = State(nodes: NodeMap, diagnostics: seq<Diagnostic>)

  function Applied(s: State, outcome: Result<seq<Part>, Diagnostic>): State
  {
    match outcome
    case Ok(parts) => s.(nodes := InsertAll(s.nodes, parts))
    case Err(d) => s.(diagnostics := s.diagnostics + [d])
  }

  // ---------------------------------------------------------------- appenders

  class ComponentSnapshot {
    const component: Bytes
    var nodes: NodeMap
    var diagnostics: seq<Diagnostic>

    constructor (component: Bytes, diagnostics: seq<Diagnostic>)
      ensures this.component == component && Value() == State(map[], diagnostics)
    {
      this.component, this.nodes, this.diagnostics := component, map[], diagnostics;
    }

    ghost function Value(): State
      reads this
    {
      State(nodes, diagnostics)
    }

    /** insert_or_assign. */
    method InsertNode(path: Bytes, node: NodeSpec, ghost start: NodeMap, ghost parts: seq<Part>)
      requires nodes == InsertAll(start, parts)
      modifies this`nodes
      ensures nodes == InsertAll(start, parts + [Part(path, node)])
    {
      InsertMore(start, parts, Part(path, node));
      nodes := nodes[path := node];
    }

    method AppendDiagnostic(d: Diagnostic)
      modifies this`diagnostics
      ensures Value() == Applied(old(Value()), Err(d))
    {
      diagnostics := diagnostics + [d];
    }

    method AppendCategoryNode(r: ResourceRecord)
      modifies this`nodes
      ensures nodes == InsertAll(old(nodes), [FolderPart(component, r)])
    {
      hide Category, CategoryBrowseName, ComponentPath;
      var ownerNodePath := if r.ownerPath == [] then ComponentPath(component)
                           else ResourceNodePath(ComponentPath(component), r.ownerPath);
      assert [] + [FolderPart(component, r)] == [FolderPart(component, r)];
      InsertNode(AppendNodeSegment(ownerNodePath, Category(r.kind)),
                 NodeSpec(ObjectNode, ownerNodePath, CategoryBrowseName(r.kind), AsComponent, DocumentOf(r.owner)),
                 nodes, []);
    }

    method AppendOperationBundle(mandatory: seq<Mandatory>, live: LiveMap, r: ResourceRecord)
      requires r.kind == Operation && WellPlaced(r)
      modifies this
      ensures Value() == Applied(old(Value()), Outcome(component, mandatory, live, r))
    {
      hide Category, MetadataName, ComponentPath, Escaped, MetadataPart, FolderPart;
      var required := MandatoryType(mandatory, r);
      if !r.error.NoError? || r.path !in live || !live[r.path].LiveOperation? || live[r.path].schema.None? {
        AppendDiagnostic(if required.Some? then MandatorySchema(r.path) else Unmappable(r.path));
        return;
      }
      var schema := live[r.path].schema.value;
      if required.Some? && (schema.inputs != [] || |schema.outputs| != 1
                            || schema.outputs[0] != required.value || schema.sources != [-1]) {
        AppendDiagnostic(MandatorySchema(r.path));
        return;
      }
      AppendOperationNodes(schema, r);
    }

    method AppendOperationNodes(schema: Schema, r: ResourceRecord)
      requires WellPlaced(r)
      modifies this`nodes
      ensures nodes == InsertAll(old(nodes), OperationParts(component, r, schema))
    {
      hide Category, MetadataName, ComponentPath, Escaped, MetadataPart, FolderPart, InsertAll;
      ghost var start := nodes;
      AppendCategoryNode(r);
      var operationsPath := CategoryText(component, r);
      var operationPath := ResourceNodePath(ComponentPath(component), r.path);
      ghost var parts := [FolderPart(component, r)];
      if schema.inputs != [] {
        parts := InsertMetadata(operationPath, InputTypes, Texts(schema.inputs), r, start, parts);
      }
      if schema.outputs != [] {
        parts := InsertMetadata(operationPath, OutputTypes, Texts(schema.outputs), r, start, parts);
        parts := InsertMetadata(operationPath, OutputSources, Numbers(schema.sources), r, start, parts);
      }
      parts := InsertMain(operationsPath, MethodNode, Callable(schema.inputs, schema.outputs), r, start, parts);
      assert parts == OperationParts(component, r, schema);
    }

    method InsertMetadata(mainPath: Bytes, m: Metadata, content: Content, ghost r: ResourceRecord,
                          ghost start: NodeMap, ghost parts: seq<Part>)
      returns (ghost longer: seq<Part>)
      requires mainPath == MainPath(component, r) && nodes == InsertAll(start, parts)
      modifies this`nodes
      ensures longer == parts + [MetadataPart(component, r, m, content)] && nodes == InsertAll(start, longer)
    {
      hide MetadataName, Escaped, InsertAll, ComponentPath;
      longer := parts + [MetadataPart(component, r, m, content)];
      InsertNode(AppendNodeSegment(mainPath, MetadataName(m)),
                 NodeSpec(VariableNode, mainPath, MetadataName(m), MetadataLink(m), content), start, parts);
    }

    method InsertMain(folderText: Bytes, class_: NodeClass, content: Content, r: ResourceRecord,
                      ghost start: NodeMap, ghost parts: seq<Part>)
      returns (ghost longer: seq<Part>)
      requires WellPlaced(r) && folderText == CategoryText(component, r) && nodes == InsertAll(start, parts)
      modifies this`nodes
      ensures longer == parts + [MainPart(component, r, class_, content)] && nodes == InsertAll(start, longer)
    {
      hide Category, Escaped, InsertAll, ComponentPath, ServicePath, ResourcePath;
      SpellingsAgree(component, r);
      longer := parts + [MainPart(component, r, class_, content)];
      InsertNode(AppendNodeSegment(folderText, r.name),
                 NodeSpec(class_, folderText, r.name, AsComponent, content), start, parts);
    }

    method AppendConfigurationBundle(mandatory: seq<Mandatory>, live: LiveMap, r: ResourceRecord)
      requires (r.kind == Property || r.kind == Attribute) && WellPlaced(r)
      modifies this
      ensures Value() == Applied(old(Value()), Outcome(component, mandatory, live, r))
    {
      hide Category, MetadataName, ComponentPath, Escaped, MetadataPart, FolderPart, MainPart, InsertAll, WellPlaced;
      if !r.error.NoError? || r.path !in live || !live[r.path].LiveValue? || !live[r.path].hasValue {
        AppendDiagnostic(Unmappable(r.path));
        return;
      }
      var value := live[r.path];
      ghost var start := nodes;
      AppendCategoryNode(r);
      var categoryPath := CategoryText(component, r);
      ghost var parts := [FolderPart(component, r)];
      parts := InsertMain(categoryPath, VariableNode, DataValue(value.assignable), r, start, parts);
      var valuePath := ResourceNodePath(ComponentPath(component), r.path);
      parts := InsertMetadata(valuePath, ValueType, Text(value.typeName), r, start, parts);
      assert parts == ValueParts(component, r, value.typeName, value.assignable);
    }

    method AppendPortBundle(mandatory: seq<Mandatory>, live: LiveMap, r: ResourceRecord)
      requires r.kind == Port && WellPlaced(r)
      modifies this
      ensures Value() == Applied(old(Value()), Outcome(component, mandatory, live, r))
    {
      hide Category, MetadataName, ComponentPath, Escaped, MetadataPart, FolderPart, MainPart, InsertAll, WellPlaced;
      if !r.error.NoError? || r.path !in live || !live[r.path].LivePort? {
        AppendDiagnostic(Unmappable(r.path));
        return;
      }
      var port := live[r.path];
      if port.input == port.output || !port.hasValue {
        AppendDiagnostic(Unmappable(r.path));
        return;
      }
      ghost var start := nodes;
      AppendCategoryNode(r);
      var portsPath := CategoryText(component, r);
      var portPath := ResourceNodePath(ComponentPath(component), r.path);
      ghost var parts := [FolderPart(component, r)];
      parts := InsertMain(portsPath, ObjectNode, PortObject, r, start, parts);
      parts := InsertMetadata(portPath, PortType, Text(port.typeName), r, start, parts);
      parts := InsertMetadata(portPath, PortDirection, Direction(port.input), r, start, parts);
      parts := InsertMetadata(portPath, PortDescription, Text(port.description), r, start, parts);
      if port.input {
        parts := InsertMetadata(portPath, PortValue, PortSample(true), r, start, parts);
      } else if port.keepsLast {
        parts := InsertMetadata(portPath, PortValue, PortSample(false), r, start, parts);
      }
      assert parts == PortParts(component, r, port);
    }

    method AppendServiceBundle(mandatory: seq<Mandatory>, live: LiveMap, r: ResourceRecord)
      requires r.kind == Service && WellPlaced(r)
      modifies this
      ensures Value() == Applied(old(Value()), Outcome(component, mandatory, live, r))
    {
      hide Category, MetadataName, ComponentPath, Escaped, MetadataPart, FolderPart, MainPart, InsertAll, WellPlaced;
      if !r.error.NoError? || r.service.None? {
        AppendDiagnostic(Unmappable(r.path));
        return;
      }
      ghost var start := nodes;
      AppendCategoryNode(r);
      ghost var parts := [FolderPart(component, r)];
      parts := InsertMain(CategoryText(component, r), ObjectNode, DocumentOf(r.service.value), r, start, parts);
      assert parts == ServiceParts(component, r);
    }

    method AppendBundle(mandatory: seq<Mandatory>, live: LiveMap, r: ResourceRecord)
      requires WellPlaced(r)
      modifies this
      ensures Value() == Applied(old(Value()), Outcome(component, mandatory, live, r))
    {
      hide *;
      match r.kind
      case Operation => AppendOperationBundle(mandatory, live, r);
      case Property => AppendConfigurationBundle(mandatory, live, r);
      case Attribute => AppendConfigurationBundle(mandatory, live, r);
      case Port => AppendPortBundle(mandatory, live, r);
      case Service => AppendServiceBundle(mandatory, live, r);
    }
  }
}
