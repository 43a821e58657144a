/**
  Staging a published component as a proxy (stageRemoteService in src/task_context_proxy.cpp
  over the discover functions of src/client_session.cpp). The client knows nothing but node
  paths; what it rebuilds from a published node map is proved to be the published resources.
 */
module Staging {
  import opened Wrappers
  import opened Ordering
  import opened NodeId
  import opened ResourcePaths
  import opened ServiceDiscovery
  import opened PublicationPlan
  import opened Snapshot
  import Calls = RemoteOperation

  datatype StageError =
    | HierarchyTooDeep | Unreadable | Inconsistent | DuplicateNames | RequiredOperation
    | BadOperation(error: Calls.BuildError) | NotWritable | UnsupportedType

  /** The types of the client. */
  type TypeRegistry = Calls.TypeRegistry

  type Description = Calls.Description

  datatype RemoteValue = RemoteValue(typeName: Bytes, writable: bool)

  datatype RemotePort = RemotePort(typeName: Bytes, input: bool)

  /** The source's vectors are sorted by name and free of duplicates, which makes them maps. */
  datatype Staged = Staged(
    operations: map<Bytes, Description>, properties: map<Bytes, RemoteValue>, attributes: map<Bytes, RemoteValue>,
    ports: map<Bytes, RemotePort>, children: map<Bytes, Staged>)

  // ------------------------------------------------------------------ reading

  function ClientPath(c: Bytes, names: seq<Bytes>, trailing: seq<Bytes>): Bytes
  {
    NodePath(ModelNames(c, names, trailing))
  }

  function ContentAt(nodes: NodeMap, path: Bytes): Option<Content>
  {
    if path in nodes then Some(nodes[path].content) else None
  }

  function MetadataAt(nodes: NodeMap, c: Bytes, names: seq<Bytes>, kind: ResourceKind, name: Bytes, m: Metadata)
    : Option<Content>
  {
    ContentAt(nodes, ClientPath(c, names, [Category(kind), name, MetadataName(m)]))
  }

  function OptionalTexts(content: Option<Content>): Result<seq<Bytes>, StageError>
  {
    if content.None? then Ok([])
    else if content.value.Texts? then Ok(content.value.texts)
    else Err(Unreadable)
  }

  function OptionalNumbers(content: Option<Content>): Result<seq<int>, StageError>
  {
    if content.None? then Ok([])
    else if content.value.Numbers? then Ok(content.value.numbers)
    else Err(Unreadable)
  }

  function RequiredText(content: Option<Content>): Result<Bytes, StageError>
  {
    if content.Some? && content.value.Text? then Ok(content.value.text) else Err(Unreadable)
  }

  /** One reader for each kind of folder; None is an entry that is left out. */
  function OperationReader(nodes: NodeMap, c: Bytes, names: seq<Bytes>)
    : Bytes -> Result<Option<Description>, StageError>
  {
    (id: Bytes) => if id in nodes then ReadOperation(nodes, c, names, nodes[id]) else Err(Unreadable)
  }

  function ReadOperation(nodes: NodeMap, c: Bytes, names: seq<Bytes>, node: NodeSpec)
    : Result<Option<Description>, StageError>
  {
    var inputs := OptionalTexts(MetadataAt(nodes, c, names, Operation, node.browseName, InputTypes));
    var outputs := OptionalTexts(MetadataAt(nodes, c, names, Operation, node.browseName, OutputTypes));
    var sources := OptionalNumbers(MetadataAt(nodes, c, names, Operation, node.browseName, OutputSources));
    if inputs.Err? || outputs.Err? || sources.Err? || !node.content.Callable? then Err(Unreadable)
    else if |outputs.value| != |sources.value| then Err(Inconsistent)
    else if node.content.inputs != [] && |node.content.inputs| != |inputs.value| then Err(Inconsistent)
    else Ok(Some(Calls.Description(inputs.value, outputs.value, sources.value)))
  }

  function ValueReader(nodes: NodeMap, c: Bytes, names: seq<Bytes>, kind: ResourceKind)
    : Bytes -> Result<Option<RemoteValue>, StageError>
  {
    (id: Bytes) => if id in nodes then ReadRemoteValue(nodes, c, names, kind, nodes[id]) else Err(Unreadable)
  }

  function ReadRemoteValue(nodes: NodeMap, c: Bytes, names: seq<Bytes>, kind: ResourceKind, node: NodeSpec)
    : Result<Option<RemoteValue>, StageError>
  {
    var typeName := RequiredText(MetadataAt(nodes, c, names, kind, node.browseName, ValueType));
    if typeName.Err? || !node.content.DataValue? then Err(Unreadable)
    else Ok(Some(RemoteValue(typeName.value, node.content.writable)))
  }

  function PortReader(nodes: NodeMap, c: Bytes, names: seq<Bytes>): Bytes -> Result<Option<RemotePort>, StageError>
  {
    (id: Bytes) => if id in nodes then ReadPort(nodes, c, names, nodes[id]) else Err(Unreadable)
  }

  function ReadPort(nodes: NodeMap, c: Bytes, names: seq<Bytes>, node: NodeSpec): Result<Option<RemotePort>, StageError>
  {
    var typeName := RequiredText(MetadataAt(nodes, c, names, Port, node.browseName, PortType));
    var direction := MetadataAt(nodes, c, names, Port, node.browseName, PortDirection);
    var sample := MetadataAt(nodes, c, names, Port, node.browseName, PortValue);
    if typeName.Err? || direction.None? || !direction.value.Direction? then Err(Unreadable)
    else if sample.None? then if direction.value.input then Err(Inconsistent) else Ok(None)
    else if sample.value != PortSample(direction.value.input) then Err(Inconsistent)
    else Ok(Some(RemotePort(typeName.value, direction.value.input)))
  }

  function ServiceReader(nodes: NodeMap): Bytes -> Result<Option<()>, StageError>
  {
    (id: Bytes) => if id !in nodes then Err(Unreadable) else if nodes[id].browseName == "this" then Ok(None) else Ok(Some(()))
  }

  /** The three lists may be missing; they must fit each other and the method's own list of inputs. */
  lemma ReadsOperation(nodes: NodeMap, c: Bytes, names: seq<Bytes>, node: NodeSpec, d: Description)
    ensures var r := ReadOperation(nodes, c, names, node);
            var inputs := MetadataAt(nodes, c, names, Operation, node.browseName, InputTypes);
            var outputs := MetadataAt(nodes, c, names, Operation, node.browseName, OutputTypes);
            var sources := MetadataAt(nodes, c, names, Operation, node.browseName, OutputSources);
            && (r == Ok(Some(d)) <==>
                && (inputs == Some(Texts(d.inputs)) || (inputs == None && d.inputs == []))
                && (outputs == Some(Texts(d.outputs)) || (outputs == None && d.outputs == []))
                && (sources == Some(Numbers(d.sources)) || (sources == None && d.sources == []))
                && |d.outputs| == |d.sources| && node.content.Callable?
                && |node.content.inputs| in {0, |d.inputs|})
            && (r == Err(Unreadable) <==>
                || (inputs.Some? && !inputs.value.Texts?) || (outputs.Some? && !outputs.value.Texts?)
                || (sources.Some? && !sources.value.Numbers?) || !node.content.Callable?)
            && (r.Err? ==> r.error in {Unreadable, Inconsistent}) && r != Ok(None)
  {
    hide Category, NodePath, ModelNames;
  }

  /** A value needs its type as a text, and is as writable as its node. */
  lemma ReadsValue(nodes: NodeMap, c: Bytes, names: seq<Bytes>, kind: ResourceKind, node: NodeSpec, v: RemoteValue)
    ensures var r := ReadRemoteValue(nodes, c, names, kind, node);
            var type_ := MetadataAt(nodes, c, names, kind, node.browseName, ValueType);
            && (r == Ok(Some(v)) <==>
                type_ == Some(Text(v.typeName)) && node.content.DataValue? && node.content.writable == v.writable)
            && (r == Err(Unreadable) <==> type_.None? || !type_.value.Text? || !node.content.DataValue?)
            && (r.Err? ==> r.error == Unreadable) && r != Ok(None)
  {
    hide Category, NodePath, ModelNames;
  }

  /** Only an output may be without a sample, and is then left out; a sample must have the port's direction. */
  lemma ReadsPort(nodes: NodeMap, c: Bytes, names: seq<Bytes>, node: NodeSpec, port: RemotePort)
    ensures var r := ReadPort(nodes, c, names, node);
            var type_ := MetadataAt(nodes, c, names, Port, node.browseName, PortType);
            var direction := MetadataAt(nodes, c, names, Port, node.browseName, PortDirection);
            var sample := MetadataAt(nodes, c, names, Port, node.browseName, PortValue);
            && (r == Ok(Some(port)) <==>
                && type_ == Some(Text(port.typeName)) && direction == Some(Direction(port.input))
                && sample == Some(PortSample(port.input)))
            && (r == Ok(None) <==> type_.Some? && type_.value.Text? && direction == Some(Direction(false)) && sample.None?)
            && (r == Err(Unreadable) <==>
                type_.None? || !type_.value.Text? || direction.None? || !direction.value.Direction?)
            && (r.Err? ==> r.error in {Unreadable, Inconsistent})
  {
    hide Category, NodePath, ModelNames;
  }

  /** Every object is a service, but for the one that RTT calls "this". */
  lemma ReadsService(nodes: NodeMap, id: Bytes)
    ensures ServiceReader(nodes)(id) == Ok(Some(())) <==> id in nodes && nodes[id].browseName != "this"
    ensures ServiceReader(nodes)(id) == Ok(None) <==> id in nodes && nodes[id].browseName == "this"
    ensures ServiceReader(nodes)(id).Err? ==> ServiceReader(nodes)(id).error == Unreadable
  {
  }

  // ------------------------------------------------------------------ folders

  /** Browsing forward HasComponent references for one node class; a missing folder is empty. */
  function Children(nodes: NodeMap, folder: Bytes, class_: NodeClass): set<Bytes>
  {
    if folder !in nodes then {}
    else set p | p in nodes && nodes[p].parent == folder && nodes[p].link == AsComponent && nodes[p].class_ == class_
  }

  function Entry<T>(nodes: NodeMap, read: Bytes -> Result<Option<T>, StageError>, p: Bytes): Option<(Bytes, T)>
  {
    if p !in nodes || nodes[p].browseName == [] then None
    else
      var r := read(p);
      if r.Ok? && r.value.Some? then Some((nodes[p].browseName, r.value.value)) else None
  }

  ghost predicate AllRead<T>(nodes: NodeMap, read: Bytes -> Result<Option<T>, StageError>, children: set<Bytes>)
  {
    forall p :: p in children && p in nodes && nodes[p].browseName != [] ==> read(p).Ok?
  }

  predicate SameName<T>(a: Option<(Bytes, T)>, b: Option<(Bytes, T)>)
  {
    a.Some? && b.Some? && a.value.0 == b.value.0
  }

  ghost predicate NamesDiffer<T>(nodes: NodeMap, read: Bytes -> Result<Option<T>, StageError>, children: set<Bytes>)
  {
    forall p, q :: p in children && q in children && SameName(Entry(nodes, read, p), Entry(nodes, read, q)) ==> p == q
  }

  /** The map holds the entries of the children and nothing else. */
  ghost predicate Collects<T(!new)>(nodes: NodeMap, read: Bytes -> Result<Option<T>, StageError>, children: set<Bytes>,
                                    m: map<Bytes, T>)
  {
    && (forall p :: p in children && Entry(nodes, read, p).Some? ==>
          Entry(nodes, read, p).value.0 in m && m[Entry(nodes, read, p).value.0] == Entry(nodes, read, p).value.1)
    && forall n :: n in m ==> exists p :: p in children && Entry(nodes, read, p) == Some((n, m[n]))
  }

  /** What a discover function returns for a folder, if it does not fail. */
  ghost function FolderOf<T(!new)>(nodes: NodeMap, folder: Bytes, class_: NodeClass,
                                   read: Bytes -> Result<Option<T>, StageError>): Option<map<Bytes, T>>
  {
    var children := Children(nodes, folder, class_);
    if AllRead(nodes, read, children) && NamesDiffer(nodes, read, children) then
      Some(map n | n in EntryNames(nodes, read, children) :: EntryNamed(nodes, read, children, n))
    else None
  }

  ghost function EntryNames<T(!new)>(nodes: NodeMap, read: Bytes -> Result<Option<T>, StageError>, children: set<Bytes>)
    : set<Bytes>
  {
    set p | p in children && Entry(nodes, read, p).Some? :: Entry(nodes, read, p).value.0
  }

  ghost function EntryNamed<T(!new)>(nodes: NodeMap, read: Bytes -> Result<Option<T>, StageError>, children: set<Bytes>,
                                     n: Bytes): (value: T)
    requires n in EntryNames(nodes, read, children)
    ensures exists p :: p in children && Entry(nodes, read, p) == Some((n, value))
  {
    var p :| p in children && Entry(nodes, read, p).Some? && Entry(nodes, read, p).value.0 == n;
    Entry(nodes, read, p).value.1
  }

  lemma CollectedIsFolder<T(!new)>(nodes: NodeMap, folder: Bytes, class_: NodeClass,
                                   read: Bytes -> Result<Option<T>, StageError>, m: map<Bytes, T>)
    requires AllRead(nodes, read, Children(nodes, folder, class_))
    requires NamesDiffer(nodes, read, Children(nodes, folder, class_))
    requires Collects(nodes, read, Children(nodes, folder, class_), m)
    ensures FolderOf(nodes, folder, class_, read) == Some(m)
  {
    hide Children, Entry, EntryNamed;
    var children := Children(nodes, folder, class_);
    var f := FolderOf(nodes, folder, class_, read).value;
    forall n ensures n in f <==> n in m {
      if n in m {
        var p :| p in children && Entry(nodes, read, p) == Some((n, m[n]));
      }
    }
    forall n | n in f ensures f[n] == m[n] {
      var p :| p in children && Entry(nodes, read, p) == Some((n, f[n]));
    }
    assert f == m;
  }

  /** A named component of the folder that is of the class that the folder is browsed for. */
  ghost predicate InFolder(nodes: NodeMap, folder: Bytes, class_: NodeClass, p: Bytes)
  {
    && folder in nodes && p in nodes && nodes[p].parent == folder
    && nodes[p].link == AsComponent && nodes[p].class_ == class_ && nodes[p].browseName != []
  }

  ghost predicate Shows<T>(nodes: NodeMap, folder: Bytes, class_: NodeClass,
                           read: Bytes -> Result<Option<T>, StageError>, p: Bytes, name: Bytes, x: T)
  {
    InFolder(nodes, folder, class_, p) && nodes[p].browseName == name && read(p) == Ok(Some(x))
  }

  ghost predicate Holds<T>(m: map<Bytes, T>, name: Bytes, x: T)
  {
    name in m && m[name] == x
  }

  /** A folder yields a map iff all that is in it can be read and no name comes twice, and then just what was read. */
  lemma FolderIsExact<T(!new)>(nodes: NodeMap, folder: Bytes, class_: NodeClass,
                               read: Bytes -> Result<Option<T>, StageError>)
    ensures FolderOf(nodes, folder, class_, read).Some? <==>
            && (forall p :: InFolder(nodes, folder, class_, p) ==> read(p).Ok?)
            && (forall p, q, n, x, y ::
                  (Shows(nodes, folder, class_, read, p, n, x) && Shows(nodes, folder, class_, read, q, n, y)) ==> p == q)
    ensures FolderOf(nodes, folder, class_, read).Some? ==>
              var m := FolderOf(nodes, folder, class_, read).value;
              forall n, x :: Holds(m, n, x) <==>
                exists p :: Shows(nodes, folder, class_, read, p, n, x)
  {
    var children := Children(nodes, folder, class_);
    forall p ensures InFolder(nodes, folder, class_, p) <==> p in children && nodes[p].browseName != [] {}
    forall p, n, x
      ensures Shows(nodes, folder, class_, read, p, n, x) <==> p in children && Entry(nodes, read, p) == Some((n, x))
    {}
    hide Children, InFolder, Shows, Entry;
    if NamesDiffer(nodes, read, children) {
      forall p, q, n, x, y | Shows(nodes, folder, class_, read, p, n, x) && Shows(nodes, folder, class_, read, q, n, y)
        ensures p == q
      {
        assert SameName(Entry(nodes, read, p), Entry(nodes, read, q));
      }
    } else {
      var p, q :| p in children && q in children && SameName(Entry(nodes, read, p), Entry(nodes, read, q)) && p != q;
      var e, f := Entry(nodes, read, p).value, Entry(nodes, read, q).value;
      assert Shows(nodes, folder, class_, read, p, e.0, e.1) && Shows(nodes, folder, class_, read, q, e.0, f.1);
    }
    if FolderOf(nodes, folder, class_, read).Some? {
      var m := FolderOf(nodes, folder, class_, read).value;
      forall n, x | exists p :: Shows(nodes, folder, class_, read, p, n, x) ensures Holds(m, n, x) {
        var p :| Shows(nodes, folder, class_, read, p, n, x);
        assert Entry(nodes, read, p) == Some((n, x));
        assert n in EntryNames(nodes, read, children);
        var q :| q in children && Entry(nodes, read, q) == Some((n, m[n]));
        assert SameName(Entry(nodes, read, p), Entry(nodes, read, q));
      }
      forall n, x | Holds(m, n, x) ensures exists p :: Shows(nodes, folder, class_, read, p, n, x) {
        var q :| q in children && Entry(nodes, read, q) == Some((n, m[n]));
        assert Shows(nodes, folder, class_, read, q, n, x);
      }
    }
  }

  /** discoverOperations, discoverValues, discoverPorts and discoverServices share this loop. */
  method Discover<T(!new)>(nodes: NodeMap, folder: Bytes, class_: NodeClass,
                           read: Bytes -> Result<Option<T>, StageError>)
    returns (r: Result<map<Bytes, T>, StageError>)
    ensures r.Ok? <==> FolderOf(nodes, folder, class_, read).Some?
    ensures r.Ok? ==> Some(r.value) == FolderOf(nodes, folder, class_, read)
  {
    hide Children;
    var children := Children(nodes, folder, class_);
    var found: map<Bytes, T> := map[];
    var rest, clash := children, false;
    while rest != {}
      invariant rest <= children && AllRead(nodes, read, children - rest)
      invariant clash ==> !NamesDiffer(nodes, read, children)
      invariant !clash ==> NamesDiffer(nodes, read, children - rest) && Collects(nodes, read, children - rest, found)
    {
      var p :| p in rest;
      ghost var done := children - rest;
      rest := rest - {p};
      assert children - rest == done + {p};
      if p !in nodes || nodes[p].browseName == [] {
        assert Entry(nodes, read, p).None?;
        continue;
      }
      var name := nodes[p].browseName;
      var entry := read(p);
      if entry.Err? {
        return Err(entry.error);
      }
      if entry.value.None? {
        continue;
      }
      assert Entry(nodes, read, p) == Some((name, entry.value.value));
      if name in found {
        if !clash {
          ghost var q :| q in done && Entry(nodes, read, q) == Some((name, found[name]));
          assert p != q && SameName(Entry(nodes, read, p), Entry(nodes, read, q));
        }
        clash := true;
      } else {
        if !clash {
          CollectsMore(nodes, read, done, p, found);
        }
        found := found[name := entry.value.value];
      }
    }
    assert children - rest == children;
    if clash {
      return Err(DuplicateNames);
    }
    CollectedIsFolder(nodes, folder, class_, read, found);
    return Ok(found);
  }

  lemma CollectsMore<T(!new)>(nodes: NodeMap, read: Bytes -> Result<Option<T>, StageError>, done: set<Bytes>, p: Bytes,
                              found: map<Bytes, T>)
    requires NamesDiffer(nodes, read, done) && Collects(nodes, read, done, found)
    requires Entry(nodes, read, p).Some? && Entry(nodes, read, p).value.0 !in found
    ensures NamesDiffer(nodes, read, done + {p})
    ensures var e := Entry(nodes, read, p).value; Collects(nodes, read, done + {p}, found[e.0 := e.1])
  {
    var e := Entry(nodes, read, p).value;
    var more := found[e.0 := e.1];
    forall n | n in more ensures exists q :: q in done + {p} && Entry(nodes, read, q) == Some((n, more[n])) {
      if n == e.0 {
        assert p in done + {p};
      } else {
        var q :| q in done && Entry(nodes, read, q) == Some((n, found[n]));
        assert q in done + {p};
      }
    }
  }

  // ------------------------------------------------------------------ staging

  predicate HasRequired(required: seq<Mandatory>, operations: map<Bytes, Description>)
  {
    forall m :: m in required ==>
      && m.name in operations
      && operations[m.name] == Calls.Description([], [m.outputType], [-1])
  }

  method ValidateRequiredRootOperations(required: seq<Mandatory>, operations: map<Bytes, Description>)
    returns (ok: bool)
    ensures ok <==> HasRequired(required, operations)
  {
    for i := 0 to |required|
      invariant HasRequired(required[..i], operations)
    {
      TakeMore(required, i);
      var m := required[i];
      if m.name !in operations {
        return false;
      }
      var found := operations[m.name];
      if found.inputs != [] || |found.outputs| != 1 || found.outputs[0] != m.outputType
         || |found.sources| != 1 || found.sources[0] != -1 {
        return false;
      }
      assert found.outputs == [m.outputType] && found.sources == [-1];
    }
    TakeAll(required);
    return true;
  }

  ghost function OperationsOf(nodes: NodeMap, c: Bytes, names: seq<Bytes>): Option<map<Bytes, Description>>
  {
    FolderOf(nodes, ClientPath(c, names, [Category(Operation)]), MethodNode, OperationReader(nodes, c, names))
  }

  ghost function ValuesOf(nodes: NodeMap, c: Bytes, names: seq<Bytes>, kind: ResourceKind)
    : Option<map<Bytes, RemoteValue>>
  {
    FolderOf(nodes, ClientPath(c, names, [Category(kind)]), VariableNode, ValueReader(nodes, c, names, kind))
  }

  ghost function PortsOf(nodes: NodeMap, c: Bytes, names: seq<Bytes>): Option<map<Bytes, RemotePort>>
  {
    FolderOf(nodes, ClientPath(c, names, [Category(Port)]), ObjectNode, PortReader(nodes, c, names))
  }

  ghost function ServicesOf(nodes: NodeMap, c: Bytes, names: seq<Bytes>): Option<map<Bytes, ()>>
  {
    FolderOf(nodes, ClientPath(c, names, [Category(Service)]), ObjectNode, ServiceReader(nodes))
  }

  datatype Folders = Folders(
    operations: map<Bytes, Description>, properties: map<Bytes, RemoteValue>, attributes: map<Bytes, RemoteValue>,
    ports: map<Bytes, RemotePort>, services: map<Bytes, ()>)

  /** The folders of one service, if they can be read and, at the root, offer what is required. */
  ghost function FoldersOf(nodes: NodeMap, c: Bytes, required: seq<Mandatory>, names: seq<Bytes>): Option<Folders>
  {
    var operations, ports, services := OperationsOf(nodes, c, names), PortsOf(nodes, c, names), ServicesOf(nodes, c, names);
    var properties, attributes := ValuesOf(nodes, c, names, Property), ValuesOf(nodes, c, names, Attribute);
    if operations.None? || properties.None? || attributes.None? || ports.None? || services.None? then None
    else if names == [] && !HasRequired(required, operations.value) then None
    else Some(Folders(operations.value, properties.value, attributes.value, ports.value, services.value))
  }

  /** The client's constructor takes every description. */
  ghost predicate AllAcceptable(types: TypeRegistry, operations: map<Bytes, Description>)
  {
    forall n :: n in operations ==> Calls.Acceptable(operations[n], types)
  }

  predicate AllWritable(types: TypeRegistry, properties: map<Bytes, RemoteValue>)
  {
    forall n :: n in properties ==> properties[n].writable && Calls.HasValue(types, properties[n].typeName)
  }

  predicate AllValues(types: TypeRegistry, attributes: map<Bytes, RemoteValue>)
  {
    forall n :: n in attributes ==> Calls.HasValue(types, attributes[n].typeName)
  }

  predicate AllPorts(types: TypeRegistry, ports: map<Bytes, RemotePort>)
  {
    forall n :: n in ports ==> Calls.HasValue(types, ports[n].typeName)
  }

  /** Everything that the folders of a service describe can be built. */
  ghost predicate CanBuild(types: TypeRegistry, f: Folders)
  {
    && AllAcceptable(types, f.operations)
    && AllWritable(types, f.properties)
    && AllValues(types, f.attributes)
    && AllPorts(types, f.ports)
  }

  /** A service is staged when its folders can be read and built and its children are staged. */
  ghost function Assembled(types: TypeRegistry, f: Option<Folders>, children: map<Bytes, Option<Staged>>)
    : Option<Staged>
  {
    if f.None? || !CanBuild(types, f.value) then None
    else if exists n :: n in children && children[n].None? then None
    else Some(Staged(f.value.operations, f.value.properties, f.value.attributes, f.value.ports,
                     map n | n in children :: children[n].value))
  }

  /** What staging makes of a node map, if it does not throw. */
  ghost function StagedOf(types: TypeRegistry, nodes: NodeMap, c: Bytes, required: seq<Mandatory>, names: seq<Bytes>)
    : Option<Staged>
    decreases MAXIMUM_SERVICE_DEPTH + 1 - |names|, 1
  {
    if |names| > MAXIMUM_SERVICE_DEPTH then None
    else
      var f := FoldersOf(nodes, c, required, names);
      Assembled(types, f, if f.None? then map[] else ChildrenOf(types, nodes, c, required, names, f.value.services.Keys))
  }

  ghost function ChildrenOf(types: TypeRegistry, nodes: NodeMap, c: Bytes, required: seq<Mandatory>, names: seq<Bytes>,
                            services: set<Bytes>)
    : map<Bytes, Option<Staged>>
    requires |names| <= MAXIMUM_SERVICE_DEPTH
    decreases MAXIMUM_SERVICE_DEPTH + 1 - |names|, 0
  {
    map n | n in services :: StagedOf(types, nodes, c, required, names + [n])
  }

  method DiscoverFolders(nodes: NodeMap, c: Bytes, required: seq<Mandatory>, names: seq<Bytes>)
    returns (r: Result<Folders, StageError>)
    ensures r.Ok? <==> FoldersOf(nodes, c, required, names).Some?
    ensures r.Ok? ==> Some(r.value) == FoldersOf(nodes, c, required, names)
  {
    hide FolderOf, Category, NodePath, ModelNames, OperationReader, ValueReader, PortReader, ServiceReader, HasRequired;
    var folder := ModelPath(c, names, [Category(Operation)]);
    var operations := Discover(nodes, folder, MethodNode, OperationReader(nodes, c, names));
    if operations.Err? {
      return Err(operations.error);
    }
    if names == [] {
      var ok := ValidateRequiredRootOperations(required, operations.value);
      if !ok {
        return Err(RequiredOperation);
      }
    }
    folder := ModelPath(c, names, [Category(Property)]);
    var properties := Discover(nodes, folder, VariableNode, ValueReader(nodes, c, names, Property));
    if properties.Err? {
      return Err(properties.error);
    }
    folder := ModelPath(c, names, [Category(Attribute)]);
    var attributes := Discover(nodes, folder, VariableNode, ValueReader(nodes, c, names, Attribute));
    if attributes.Err? {
      return Err(attributes.error);
    }
    folder := ModelPath(c, names, [Category(Port)]);
    var ports := Discover(nodes, folder, ObjectNode, PortReader(nodes, c, names));
    if ports.Err? {
      return Err(ports.error);
    }
    folder := ModelPath(c, names, [Category(Service)]);
    var services := Discover(nodes, folder, ObjectNode, ServiceReader(nodes));
    if services.Err? {
      return Err(services.error);
    }
    return Ok(Folders(operations.value, properties.value, attributes.value, ports.value, services.value));
  }

  lemma AllAssembled(types: TypeRegistry, f: Folders, children: map<Bytes, Staged>)
    requires CanBuild(types, f)
    ensures Assembled(types, Some(f), map n | n in children :: Some(children[n]))
            == Some(Staged(f.operations, f.properties, f.attributes, f.ports, children))
  {
    hide CanBuild;
    var options := map n | n in children :: Some(children[n]);
    assert (map n | n in options :: options[n].value) == children;
  }

  lemma AssembledNeeds(types: TypeRegistry, f: Folders, children: map<Bytes, Option<Staged>>)
    ensures Assembled(types, Some(f), children).Some? <==>
            CanBuild(types, f) && forall n :: n in children ==> children[n].Some?
  {
    hide CanBuild;
  }

  lemma StagedUnfolds(types: TypeRegistry, nodes: NodeMap, c: Bytes, required: seq<Mandatory>, names: seq<Bytes>)
    ensures |names| > MAXIMUM_SERVICE_DEPTH || FoldersOf(nodes, c, required, names).None? ==>
              StagedOf(types, nodes, c, required, names).None?
    ensures |names| <= MAXIMUM_SERVICE_DEPTH && FoldersOf(nodes, c, required, names).Some? ==>
              var f := FoldersOf(nodes, c, required, names);
              StagedOf(types, nodes, c, required, names)
              == Assembled(types, f, ChildrenOf(types, nodes, c, required, names, f.value.services.Keys))
  {
    hide FoldersOf, CanBuild, ChildrenOf;
  }

  /** A service that a proxy can use: its constructor takes every operation, and all values have a type there. */
  ghost predicate Usable(types: TypeRegistry, t: Staged)
  {
    && (forall n :: n in t.operations ==> Calls.Acceptable(t.operations[n], types))
    && (forall n :: n in t.properties ==> t.properties[n].writable && (t.properties[n].typeName, true) in types.Items)
    && (forall n :: n in t.attributes ==> (t.attributes[n].typeName, true) in types.Items)
    && (forall n :: n in t.ports ==> (t.ports[n].typeName, true) in types.Items)
  }

  /** The service at a path below a staged one. */
  ghost function ServiceAt(t: Staged, path: seq<Bytes>): Option<Staged>
    decreases |path|
  {
    if path == [] then Some(t)
    else if path[0] in t.children then ServiceAt(t.children[path[0]], path[1..])
    else None
  }

  /** Whatever is in the address space: what is staged is usable at every depth, and the root offers what is required. */
  lemma {:induction false} StagedIsUsable(types: TypeRegistry, nodes: NodeMap, c: Bytes, required: seq<Mandatory>,
                                          names: seq<Bytes>, path: seq<Bytes>)
    requires StagedOf(types, nodes, c, required, names).Some?
    ensures var t := StagedOf(types, nodes, c, required, names).value;
            && |names| <= 32
            && (ServiceAt(t, path).Some? ==> Usable(types, ServiceAt(t, path).value) && |names + path| <= 32)
            && (names == [] ==> forall m :: m in required ==>
                  m.name in t.operations && t.operations[m.name] == Calls.Description([], [m.outputType], [-1]))
    decreases |path|
  {
    hide FolderOf, Category, NodePath, ModelNames, OperationReader, ValueReader, PortReader, ServiceReader;
    var t := StagedOf(types, nodes, c, required, names).value;
    assert Usable(types, t);
    if path != [] && path[0] in t.children {
      StagedIsUsable(types, nodes, c, required, names + [path[0]], path[1..]);
      assert names + [path[0]] + path[1..] == names + path;
    } else {
      assert path == [] ==> names + path == names;
    }
  }

  /** One remote operation for each description. */
  method BuildOperations(types: TypeRegistry, operations: map<Bytes, Description>) returns (error: Option<StageError>)
    ensures error.None? <==> AllAcceptable(types, operations)
  {
    var rest := operations.Keys;
    while rest != {}
      invariant rest <= operations.Keys
      invariant forall n :: n in operations && n !in rest ==> Calls.Acceptable(operations[n], types)
    {
      var name :| name in rest;
      rest := rest - {name};
      var built := Calls.BuildRemoteOperation(operations[name], types);
      if built.Err? {
        return Some(BadOperation(built.error));
      }
    }
    return None;
  }

  /** The four loops that build what a service offers. */
  method BuildFolders(types: TypeRegistry, f: Folders) returns (error: Option<StageError>)
    ensures error.None? <==> CanBuild(types, f)
  {
    hide AllAcceptable, AllWritable, AllValues, AllPorts;
    error := BuildOperations(types, f.operations);
    if error.Some? {
      return;
    }
    if !AllWritable(types, f.properties) {
      return Some(NotWritable);
    }
    if !AllValues(types, f.attributes) || !AllPorts(types, f.ports) {
      return Some(UnsupportedType);
    }
    return None;
  }

  method StageRemoteService(types: TypeRegistry, nodes: NodeMap, c: Bytes, required: seq<Mandatory>, names: seq<Bytes>)
    returns (r: Result<Staged, StageError>)
    ensures r.Ok? <==> StagedOf(types, nodes, c, required, names).Some?
    ensures r.Ok? ==> Some(r.value) == StagedOf(types, nodes, c, required, names)
    decreases MAXIMUM_SERVICE_DEPTH + 1 - |names|
  {
    hide FoldersOf, CanBuild, Assembled, StagedOf;
    StagedUnfolds(types, nodes, c, required, names);
    if |names| > MAXIMUM_SERVICE_DEPTH {
      return Err(HierarchyTooDeep);
    }
    var folders := DiscoverFolders(nodes, c, required, names);
    if folders.Err? {
      return Err(folders.error);
    }
    var f := folders.value;
    ghost var results := ChildrenOf(types, nodes, c, required, names, f.services.Keys);
    AssembledNeeds(types, f, results);
    var error := BuildFolders(types, f);
    if error.Some? {
      return Err(error.value);
    }
    var children: map<Bytes, Staged> := map[];
    var rest := f.services.Keys;
    while rest != {}
      invariant rest <= f.services.Keys && children.Keys == f.services.Keys - rest
      invariant forall n :: n in children ==> Some(children[n]) == results[n]
    {
      var name :| name in rest;
      var child := StageRemoteService(types, nodes, c, required, names + [name]);
      if child.Err? {
        assert name in results && results[name].None?;
        return Err(child.error);
      }
      children := children[name := child.value];
      rest := rest - {name};
    }
    AllAssembled(types, f, children);
    assert results == map n | n in children :: Some(children[n]);
    return Ok(Staged(f.operations, f.properties, f.attributes, f.ports, children));
  }
}
