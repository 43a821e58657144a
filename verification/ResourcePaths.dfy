/**
  Where resources live. The server builds paths by appending escaped segments step by step
  (src/object_model.cpp); the client prints a list of names at once (src/client_session.cpp).
  Both are proved to spell the same NodeId for every resource at every service depth.
 */
module ResourcePaths {
  import opened Wrappers
  import opened Ordering
  import opened NodeId
  import opened PublicationSelector

  datatype ResourceKind = Operation | Property | Attribute | Port | Service

  function Category(kind: ResourceKind): Bytes
  {
    match kind
    case Operation => "operations"
    case Property => "properties"
    case Attribute => "attributes"
    case Port => "ports"
    case Service => "services"
  }

  /** A category folder's browse name, from kResourceCategories. */
  function CategoryBrowseName(kind: ResourceKind): Bytes
  {
    match kind
    case Operation => "Operations"
    case Property => "Properties"
    case Attribute => "Attributes"
    case Port => "Ports"
    case Service => "Services"
  }

  lemma CategoriesDiffer(a: ResourceKind, b: ResourceKind)
    ensures Category(a) == Category(b) <==> a == b
  {
    assert |Category(Operation)| == |Category(Property)| == |Category(Attribute)| == 10;
    assert Category(Operation)[0] == 'o' && Category(Property)[0] == 'p' && Category(Attribute)[0] == 'a';
    assert |Category(Port)| == 5 && |Category(Service)| == 8;
  }

  // ------------------------------------------------------------ server paths

  function AppendNodeSegment(path: Bytes, segment: Bytes): Bytes
  {
    path + "/" + Escaped(segment)
  }

  function ResourcePath(ownerPath: Bytes, kind: ResourceKind, name: Bytes): Bytes
  {
    AppendNodeSegment(if ownerPath == [] then Category(kind) else ownerPath + "/" + Category(kind), name)
  }

  /** The owner path of what the service reached over `names` owns; empty for the root service. */
  function ServicePath(names: seq<Bytes>): Bytes
  {
    if names == [] then []
    else ResourcePath(ServicePath(names[..|names| - 1]), Service, names[|names| - 1])
  }

  function ComponentsPath(): Bytes
  {
    AppendNodeSegment("rtt", "components")
  }

  function ComponentPath(component: Bytes): Bytes
  {
    AppendNodeSegment(ComponentsPath(), component)
  }

  function ResourceNodePath(componentPath: Bytes, resourcePath: Bytes): Bytes
  {
    componentPath + "/" + resourcePath
  }

  /** The node of a service: the component itself for the root service. */
  function OwnerNodePath(component: Bytes, ownerPath: Bytes): Bytes
  {
    if ownerPath == [] then ComponentPath(component)
    else ResourceNodePath(ComponentPath(component), ownerPath)
  }

  // ------------------------------------------------------------ client paths

  function ServiceNames(names: seq<Bytes>): seq<Bytes>
  {
    if names == [] then []
    else ServiceNames(names[..|names| - 1]) + ["services", names[|names| - 1]]
  }

  function ModelNames(component: Bytes, servicePath: seq<Bytes>, trailing: seq<Bytes>): seq<Bytes>
  {
    ["components", component] + ServiceNames(servicePath) + trailing
  }

  method ModelPath(component: Bytes, servicePath: seq<Bytes>, trailing: seq<Bytes>) returns (path: Bytes)
    ensures path == NodePath(ModelNames(component, servicePath, trailing))
  {
    var segments: seq<Bytes> := ["components", component];
    for i := 0 to |servicePath|
      invariant segments == ["components", component] + ServiceNames(servicePath[..i])
    {
      assert servicePath[..i + 1][..i] == servicePath[..i];
      segments := segments + ["services"];
      segments := segments + [servicePath[i]];
    }
    TakeAll(servicePath);
    segments := segments + trailing;
    path := MakeNodePath(segments);
  }

  // ---------------------------------------------------------------- agreement

  predicate AllUnreserved(s: Bytes)
  {
    forall i :: 0 <= i < |s| ==> IsUnreserved(s[i])
  }

  lemma {:induction false} UnreservedEscapesToItself(s: Bytes)
    requires AllUnreserved(s)
    ensures EscapedBytes(s) == s
    ensures s != [] ==> Escaped(s) == s
  {
    if s != [] {
      UnreservedEscapesToItself(s[1..]);
      assert s == [s[0]] + s[1..];
    }
  }

  lemma CategoriesUnreserved(kind: ResourceKind)
    ensures AllUnreserved(Category(kind)) && Category(kind) != []
  {
    match kind
    case Operation =>
    case Property =>
    case Attribute =>
    case Port =>
    case Service =>
  }

  lemma CategoryEscapesToItself(kind: ResourceKind)
    ensures Escaped(Category(kind)) == Category(kind)
    ensures SlashFree(Category(kind)) && Category(kind) != []
  {
    CategoriesUnreserved(kind);
    UnreservedEscapesToItself(Category(kind));
    EscapedAlphabet(Category(kind));
  }

  lemma ComponentsEscapesToItself()
    ensures Escaped("components") == "components"
  {
    assert AllUnreserved("components");
    UnreservedEscapesToItself("components");
  }

  lemma EscapedAllConcat(a: seq<Bytes>, b: seq<Bytes>)
    ensures EscapedAll(a + b) == EscapedAll(a) + EscapedAll(b)
  {
  }

  lemma NodePathConcat(a: seq<Bytes>, b: seq<Bytes>)
    requires b != []
    ensures NodePath(a + b) == NodePath(a) + "/" + Join(EscapedAll(b))
  {
    EscapedAllConcat(a, b);
    Associative(["rtt"], EscapedAll(a), EscapedAll(b));
    JoinConcat(["rtt"] + EscapedAll(a), EscapedAll(b));
  }

  lemma JoinPair(a: Bytes, b: Bytes)
    ensures Join([a, b]) == a + "/" + b
  {
    assert [a, b][1..] == [b];
  }

  /** The names below a component that a resource path spells. */
  function ResourceSegments(names: seq<Bytes>, kind: ResourceKind, name: Bytes): seq<Bytes>
  {
    ServiceNames(names) + [Category(kind), name]
  }

  lemma EscapedPair(a: Bytes, b: Bytes)
    ensures EscapedAll([a, b]) == [Escaped(a), Escaped(b)]
    ensures Join(EscapedAll([a, b])) == Escaped(a) + "/" + Escaped(b)
    ensures EscapedAll([a]) == [Escaped(a)]
  {
    JoinPair(Escaped(a), Escaped(b));
    assert EscapedAll([a, b]) == [Escaped(a), Escaped(b)];
  }

  lemma {:induction false} ServicePathSpelled(names: seq<Bytes>)
    requires names != []
    ensures ServicePath(names) == Join(EscapedAll(ServiceNames(names)))
    ensures ServicePath(names) != []
    decreases |names|, 0
  {
    var n := |names| - 1;
    ResourcePathSpelled(names[..n], Service, names[n]);
  }

  /** A resource path is the joined escapes of its segments. */
  lemma {:induction false} ResourcePathSpelled(names: seq<Bytes>, kind: ResourceKind, name: Bytes)
    ensures ResourcePath(ServicePath(names), kind, name) == Join(EscapedAll(ResourceSegments(names, kind, name)))
    decreases |names|, 1
  {
    CategoryEscapesToItself(kind);
    var pair := [Category(kind), name];
    EscapedPair(Category(kind), name);
    if names == [] {
      assert ServiceNames(names) + pair == pair;
    } else {
      ServicePathSpelled(names);
      SpellAfter(ServicePath(names), ServiceNames(names), Category(kind), name);
    }
  }

  lemma SpellAfter(text: Bytes, own: seq<Bytes>, category: Bytes, name: Bytes)
    requires own != [] && text == Join(EscapedAll(own)) && Escaped(category) == category
    ensures text + "/" + category + "/" + Escaped(name) == Join(EscapedAll(own + [category, name]))
  {
    EscapedPair(category, name);
    EscapedAllConcat(own, [category, name]);
    JoinConcat(EscapedAll(own), EscapedAll([category, name]));
    Associative(text + "/", category + "/", Escaped(name));
    Associative(text + "/", category, "/");
  }

  lemma RootPath()
    ensures NodePath([]) == "rtt"
  {
    assert ["rtt"] + EscapedAll([]) == ["rtt"];
  }

  lemma ComponentPathSpelled(component: Bytes)
    ensures ComponentPath(component) == NodePath(["components", component])
  {
    hide Escaped;
    ComponentsEscapesToItself();
    NodePathConcat([], ["components"]);
    EscapedPair("components", component);
    RootPath();
    assert [] + ["components"] == ["components"];
    NodePathConcat(["components"], [component]);
    EscapedPair(component, component);
    assert ["components"] + [component] == ["components", component];
  }

  /** Server and client compute the same node for every resource, at any service depth. */
  lemma ServerAndClientAgree(component: Bytes, names: seq<Bytes>, kind: ResourceKind, name: Bytes)
    ensures ResourceNodePath(ComponentPath(component), ResourcePath(ServicePath(names), kind, name))
            == NodePath(ModelNames(component, names, [Category(kind), name]))
  {
    ResourcePathSpelled(names, kind, name);
    ComponentPathSpelled(component);
    NodePathConcat(["components", component], ResourceSegments(names, kind, name));
    Associative(["components", component], ServiceNames(names), [Category(kind), name]);
  }

  lemma ModelNamesExtend(component: Bytes, names: seq<Bytes>, trailing: seq<Bytes>, more: seq<Bytes>)
    ensures ModelNames(component, names, trailing + more) == ModelNames(component, names, trailing) + more
  {
    Associative(["components", component] + ServiceNames(names), trailing, more);
  }

  lemma ModelNamesAppend(component: Bytes, names: seq<Bytes>, trailing: seq<Bytes>, last: Bytes)
    ensures NodePath(ModelNames(component, names, trailing + [last]))
            == AppendNodeSegment(NodePath(ModelNames(component, names, trailing)), last)
  {
    ModelNamesExtend(component, names, trailing, [last]);
    NodePathConcat(ModelNames(component, names, trailing), [last]);
    EscapedPair(last, last);
  }

  /** And the same metadata node below it. */
  lemma MetadataAgrees(component: Bytes, names: seq<Bytes>, kind: ResourceKind, name: Bytes, property: Bytes)
    ensures AppendNodeSegment(
              ResourceNodePath(ComponentPath(component), ResourcePath(ServicePath(names), kind, name)), property)
            == NodePath(ModelNames(component, names, [Category(kind), name, property]))
  {
    ServerAndClientAgree(component, names, kind, name);
    ModelNamesAppend(component, names, [Category(kind), name], property);
    assert [Category(kind), name] + [property] == [Category(kind), name, property];
  }

  /** Service objects agree, the component itself being the root service. */
  lemma OwnersAgree(component: Bytes, names: seq<Bytes>)
    ensures OwnerNodePath(component, ServicePath(names)) == NodePath(ModelNames(component, names, []))
  {
    hide Escaped, NodePath;
    ComponentPathSpelled(component);
    if names == [] {
      assert ModelNames(component, names, []) == ["components", component];
    } else {
      var n := |names| - 1;
      ServerAndClientAgree(component, names[..n], Service, names[n]);
      ServicePathSpelled(names);
      Associative(["components", component], ServiceNames(names[..n]), ["services", names[n]]);
      assert ModelNames(component, names, []) == ["components", component] + ServiceNames(names);
    }
  }

  /** Category folders agree. */
  lemma FoldersAgree(component: Bytes, names: seq<Bytes>, kind: ResourceKind)
    ensures AppendNodeSegment(OwnerNodePath(component, ServicePath(names)), Category(kind))
            == NodePath(ModelNames(component, names, [Category(kind)]))
  {
    OwnersAgree(component, names);
    ModelNamesAppend(component, names, [], Category(kind));
    assert [] + [Category(kind)] == [Category(kind)];
  }

  // -------------------------------------------------------- selectable names

  /** What decoding gives back for a name: "" and "\0" share a segment. */
  function Canonical(name: Bytes): Bytes
  {
    if name == [] then ['\0'] else name
  }

  function CanonicalAll(names: seq<Bytes>): (r: seq<Bytes>)
    ensures |r| == |names|
    ensures forall i :: 0 <= i < |names| ==> r[i] == Canonical(names[i])
  {
    seq(|names|, i requires 0 <= i < |names| => Canonical(names[i]))
  }

  /** Every resource path of an inventory can be parsed, and parses to the names it was built from. */
  lemma ResourcePathsParse(names: seq<Bytes>, kind: ResourceKind, name: Bytes)
    ensures ResourceNames(ResourcePath(ServicePath(names), kind, name))
            == Some(CanonicalAll(ResourceSegments(names, kind, name)))
  {
    hide Category, ResourcePath, ServicePath;
    var segments := ResourceSegments(names, kind, name);
    ResourcePathSpelled(names, kind, name);
    EmptyAndNul();
    assert EscapedAll(CanonicalAll(segments)) == EscapedAll(segments);
    ResourceNamesInvertPrinting(ResourcePath(ServicePath(names), kind, name), CanonicalAll(segments));
  }

  /** Resources of one component collide exactly when their names do, segment by segment. */
  lemma ResourcePathCollision(names: seq<Bytes>, kind: ResourceKind, name: Bytes,
                              names': seq<Bytes>, kind': ResourceKind, name': Bytes)
    ensures ResourcePath(ServicePath(names), kind, name) == ResourcePath(ServicePath(names'), kind', name') <==>
            && kind == kind'
            && CanonicalAll(names) == CanonicalAll(names')
            && Canonical(name) == Canonical(name')
  {
    var p, p' := ResourcePath(ServicePath(names), kind, name), ResourcePath(ServicePath(names'), kind', name');
    ResourcePathsParse(names, kind, name);
    ResourcePathsParse(names', kind', name');
    if p == p' {
      SegmentsDetermine(names, kind, name, names', kind', name');
    }
    if kind == kind' && CanonicalAll(names) == CanonicalAll(names') && Canonical(name) == Canonical(name') {
      CanonicalSegments(names, kind, name);
      CanonicalSegments(names', kind', name');
      ParsedPathsEqual(p, p');
    }
  }

  lemma ParsedPathsEqual(p: Bytes, p': Bytes)
    requires ResourceNames(p).Some? && ResourceNames(p) == ResourceNames(p')
    ensures p == p'
  {
    ResourceNamesInvertPrinting(p, ResourceNames(p).value);
    ResourceNamesInvertPrinting(p', ResourceNames(p).value);
  }

  lemma CanonicalSegments(names: seq<Bytes>, kind: ResourceKind, name: Bytes)
    ensures CanonicalAll(ResourceSegments(names, kind, name))
            == ResourceSegments(CanonicalAll(names), kind, Canonical(name))
  {
    CanonicalServiceNames(names);
    CategoryEscapesToItself(kind);
    CanonicalConcat(ServiceNames(names), [Category(kind), name]);
    assert CanonicalAll([Category(kind), name]) == [Category(kind), Canonical(name)];
  }

  lemma CanonicalConcat(a: seq<Bytes>, b: seq<Bytes>)
    ensures CanonicalAll(a + b) == CanonicalAll(a) + CanonicalAll(b)
  {
  }

  lemma {:induction false} CanonicalServiceNames(names: seq<Bytes>)
    ensures CanonicalAll(ServiceNames(names)) == ServiceNames(CanonicalAll(names))
    ensures |ServiceNames(names)| == 2 * |names|
  {
    if names != [] {
      var n := |names| - 1;
      CanonicalServiceNames(names[..n]);
      assert CanonicalAll(names)[..n] == CanonicalAll(names[..n]);
      assert CanonicalAll(ServiceNames(names)) ==
             CanonicalAll(ServiceNames(names[..n])) + ["services", Canonical(names[n])];
    }
  }

  lemma {:induction false} ServiceNamesInjective(a: seq<Bytes>, b: seq<Bytes>)
    requires ServiceNames(a) == ServiceNames(b)
    ensures a == b
  {
    CanonicalServiceNames(a);
    CanonicalServiceNames(b);
    if a != [] {
      var n := |a| - 1;
      var sa, sb := ServiceNames(a), ServiceNames(b);
      CanonicalServiceNames(a[..n]);
      CanonicalServiceNames(b[..n]);
      assert sa[|sa| - 1] == a[n] && sb[|sb| - 1] == b[n];
      assert ServiceNames(a[..n]) == sa[..|sa| - 2] == sb[..|sb| - 2] == ServiceNames(b[..n]);
      ServiceNamesInjective(a[..n], b[..n]);
      assert a == a[..n] + [a[n]] && b == b[..n] + [b[n]];
    }
  }

  lemma SegmentsDetermine(names: seq<Bytes>, kind: ResourceKind, name: Bytes,
                          names': seq<Bytes>, kind': ResourceKind, name': Bytes)
    requires CanonicalAll(ResourceSegments(names, kind, name)) == CanonicalAll(ResourceSegments(names', kind', name'))
    ensures kind == kind' && CanonicalAll(names) == CanonicalAll(names') && Canonical(name) == Canonical(name')
  {
    CanonicalSegments(names, kind, name);
    CanonicalSegments(names', kind', name');
    CanonicalServiceNames(names);
    CanonicalServiceNames(names');
    var own, own' := ServiceNames(CanonicalAll(names)), ServiceNames(CanonicalAll(names'));
    CanonicalServiceNames(CanonicalAll(names));
    CanonicalServiceNames(CanonicalAll(names'));
    SameTail(own, Category(kind), Canonical(name), own', Category(kind'), Canonical(name'));
    CategoriesDiffer(kind, kind');
    ServiceNamesInjective(CanonicalAll(names), CanonicalAll(names'));
  }

  lemma SameTail(own: seq<Bytes>, a: Bytes, b: Bytes, own': seq<Bytes>, a': Bytes, b': Bytes)
    requires own + [a, b] == own' + [a', b']
    ensures own == own' && a == a' && b == b'
  {
    var s, s' := own + [a, b], own' + [a', b'];
    assert |own| == |own'|;
    assert s[|own|] == a && s'[|own|] == a' && s[|own| + 1] == b && s'[|own| + 1] == b';
    assert own == s[..|own|] && own' == s'[..|own|];
  }
}
