/**
  Binding the frozen datatype definitions to one endpoint (src/endpoint_type_registry.cpp):
  types are materialised in provider order into storage that is reserved up front, so that
  every dependency is visible in time and every stored handle stays valid.
 */
module EndpointTypeRegistry {
  import opened Wrappers
  import opened Ordering
  import opened DataTypeRegistry

  const NAMESPACE_ZERO: Bytes := "http://opcfoundation.org/UA/"

  datatype NativeKind = NativeStructure | NativeOptStruct | NativeEnum | NativeUnion | NativeOther

  /** A materialised type: two NodeIds with endpoint namespace indexes, and its native kind. */
  datatype DataType = DataType(typeId: (nat, Bytes), encodingId: (nat, Bytes), kind: NativeKind)

  /** A pointer into the vector: valid as long as the vector still owns that buffer. */
  datatype Handle = Handle(buffer: nat, index: nat)

  predicate KindMatches(expected: DataTypeKind, actual: NativeKind): (matches: bool)
    ensures matches <==>
            (expected, actual) in {(Structure, NativeStructure), (Structure, NativeOptStruct),
                                   (Enumeration, NativeEnum), (UnionType, NativeUnion)}
  {
    match expected
    case Structure => actual.NativeStructure? || actual.NativeOptStruct?
    case Enumeration => actual.NativeEnum?
    case UnionType => actual.NativeUnion?
  }

  /** std::vector with its capacity; growing past it moves the elements to another buffer. */
  class TypeVector {
    var data: seq<DataType>
    var capacity: nat
    var buffer: nat

    ghost predicate Valid()
      reads this
    {
      |data| <= capacity
    }

    constructor ()
      ensures Valid() && data == []
    {
      data, capacity, buffer := [], 0, 0;
    }

    method Reserve(n: nat)
      requires Valid()
      modifies this
      ensures Valid() && data == old(data) && capacity >= n
    {
      if n > capacity {
        capacity, buffer := n, buffer + 1;
      }
    }

    method PushBack(element: DataType)
      requires Valid()
      modifies this
      ensures Valid() && data == old(data) + [element]
      ensures buffer == old(buffer) <==> old(|data|) < old(capacity)
      ensures old(|data|) < old(capacity) ==> capacity == old(capacity)
    {
      if |data| == capacity {
        capacity, buffer := 2 * capacity + 1, buffer + 1;
      }
      data := data + [element];
    }
  }

  // --------------------------------------------------------------- definitions

  ghost function Flatten(providers: seq<Provider>): seq<Definition>
  {
    if providers == [] then []
    else Flatten(providers[..|providers| - 1]) + providers[|providers| - 1].dataTypes
  }

  ghost function Ids(definitions: seq<Definition>): set<LogicalDataTypeId>
  {
    set k | 0 <= k < |definitions| :: definitions[k].id
  }

  ghost predicate DistinctIds(definitions: seq<Definition>)
  {
    forall i, j :: 0 <= i < j < |definitions| ==> definitions[i].id != definitions[j].id
  }

  lemma FlattenMore(providers: seq<Provider>, i: nat)
    requires i < |providers|
    ensures Flatten(providers[..i + 1]) == Flatten(providers[..i]) + providers[i].dataTypes
  {
    assert providers[..i + 1][..i] == providers[..i];
  }

  lemma {:induction false} FlattenPrefix(providers: seq<Provider>, i: nat)
    requires i <= |providers|
    ensures Flatten(providers[..i]) <= Flatten(providers)
  {
    if i == |providers| {
      TakeAll(providers);
    } else {
      var n := |providers| - 1;
      FlattenPrefix(providers[..n], i);
      assert providers[..n][..i] == providers[..i];
    }
  }

  /** Every claim of a flattened definition belongs to the provider that defines it. */
  lemma {:induction false} DefinitionsClaim(definitions: seq<Definition>, k: nat)
    requires k < |definitions|
    ensures TypeKey(definitions[k]) in Elements(Claims(definitions))
  {
    ClaimsGrow(definitions, k);
    ClaimsPrefix(definitions, k + 1);
    var prefix, all := Claims(definitions[..k + 1]), Claims(definitions);
    assert prefix[|prefix| - 2] == TypeKey(definitions[k]);
    assert all[|prefix| - 2] == TypeKey(definitions[k]);
  }

  lemma {:induction false} DistinctTypeKeys(definitions: seq<Definition>)
    requires NoDuplicates(Claims(definitions))
    ensures DistinctIds(definitions)
  {
    if definitions != [] {
      var n := |definitions| - 1;
      var before := definitions[..n];
      TakeAll(definitions);
      ClaimsGrow(definitions, n);
      PairClashes(Claims(before), TypeKey(definitions[n]), EncodingKey(definitions[n]));
      DistinctTypeKeys(before);
      forall i | 0 <= i < n ensures definitions[i].id != definitions[n].id {
        DefinitionsClaim(before, i);
      }
      forall i, j | 0 <= i < j < |definitions| ensures definitions[i].id != definitions[j].id {
        if j < n {
          assert before[i] == definitions[i] && before[j] == definitions[j];
        }
      }
    }
  }

  ghost predicate DisjointProviders(providers: seq<Provider>)
  {
    && (forall i :: 0 <= i < |providers| ==> NoDuplicates(Claims(providers[i].dataTypes)))
    && (forall i, j {:trigger Claims(providers[i].dataTypes), Claims(providers[j].dataTypes)} ::
          0 <= i < j < |providers| ==>
          Elements(Claims(providers[i].dataTypes)) !! Elements(Claims(providers[j].dataTypes)))
  }

  lemma {:induction false} FlattenSource(providers: seq<Provider>, k: nat) returns (i: nat, j: nat)
    requires k < |Flatten(providers)|
    ensures i < |providers| && j < |providers[i].dataTypes|
    ensures Flatten(providers)[k] == providers[i].dataTypes[j]
  {
    var n := |providers| - 1;
    var before := Flatten(providers[..n]);
    if k < |before| {
      i, j := FlattenSource(providers[..n], k);
    } else {
      i, j := n, k - |before|;
    }
  }

  lemma {:induction false} FlattenedIdsDistinct(providers: seq<Provider>)
    requires DisjointProviders(providers)
    ensures DistinctIds(Flatten(providers))
  {
    if providers != [] {
      var n := |providers| - 1;
      var before, last := Flatten(providers[..n]), providers[n].dataTypes;
      FlattenedIdsDistinct(providers[..n]);
      DistinctTypeKeys(last);
      forall a, b | 0 <= a < |before| && 0 <= b < |last| ensures before[a].id != last[b].id {
        var i, j := FlattenSource(providers[..n], a);
        DefinitionsClaim(providers[i].dataTypes, j);
        DefinitionsClaim(last, b);
      }
    }
  }

  // ------------------------------------------------------------------- binding

  /** The frozen order as a list of providers: each after its dependencies, claims disjoint. */
  ghost predicate FrozenOrder(providers: seq<Provider>)
  {
    && DisjointProviders(providers)
    && forall i, d :: 0 <= i < |providers| && d in providers[i].dependencies ==>
         exists j :: 0 <= j < i && providers[j].name == d
  }

  lemma OrderedProvidersDisjoint(s: RegistryState)
    requires Invariant(s) && s.frozen
    ensures DisjointProviders(OrderedProviders(s))
  {
    var r := OrderedProviders(s);
    forall i, j | 0 <= i < j < |r|
      ensures Elements(Claims(r[i].dataTypes)) !! Elements(Claims(r[j].dataTypes))
    {
      assert s.order[i] != s.order[j];
      assert r[i] == s.providers[s.order[i]] && r[j] == s.providers[s.order[j]];
    }
  }

  lemma OrderedProvidersFollow(s: RegistryState, i: nat, d: Bytes)
    requires Invariant(s) && s.frozen && i < |s.order| && d in OrderedProviders(s)[i].dependencies
    ensures exists j :: 0 <= j < i && OrderedProviders(s)[j].name == d
  {
    var g := DependencyGraph(s.providers);
    assert s.order[i] in s.providers && d in g[s.order[i]];
    assert d in s.order[..i];
    var j :| 0 <= j < i && s.order[j] == d;
    assert OrderedProviders(s)[j].name == d;
  }

  /** What a frozen registry hands out can always be bound in that order. */
  lemma FrozenProvidersAreOrdered(s: RegistryState)
    requires Invariant(s) && s.frozen
    ensures FrozenOrder(OrderedProviders(s))
    ensures forall i :: 0 <= i < |OrderedProviders(s)| ==> OwnNamespace(OrderedProviders(s)[i])
  {
    var r := OrderedProviders(s);
    OrderedProvidersDisjoint(s);
    forall i, d | 0 <= i < |r| && d in r[i].dependencies ensures exists j :: 0 <= j < i && r[j].name == d {
      OrderedProvidersFollow(s, i, d);
    }
  }

  /** A definition is bound to the element that was materialised for it. */
  ghost predicate Bound(namespaces: map<Bytes, nat>, d: Definition, t: DataType)
  {
    && d.id.namespaceUri in namespaces
    && t.typeId == (namespaces[d.id.namespaceUri], d.id.typeNodeId)
    && t.encodingId == (namespaces[d.id.namespaceUri], d.id.encodingNodeId)
    && KindMatches(d.kind, t.kind)
  }

  /** Everything bound so far is exactly `bound`, and every handle points into the live buffer. */
  ghost predicate BoundAll(namespaces: map<Bytes, nat>, bound: seq<Definition>, data: seq<DataType>,
                           visible: seq<set<LogicalDataTypeId>>, indexes: map<LogicalDataTypeId, nat>,
                           handles: map<LogicalDataTypeId, Handle>, buffer: nat)
  {
    && |data| == |visible| == |bound|
    && indexes.Keys == handles.Keys == Ids(bound)
    && (forall k :: 0 <= k < |bound| ==> Bound(namespaces, bound[k], data[k]))
    && (forall k :: 0 <= k < |bound| ==> visible[k] == Ids(bound[..k]))
    && (forall k :: 0 <= k < |bound| ==>
          && bound[k].id in indexes && indexes[bound[k].id] == k
          && bound[k].id in handles && handles[bound[k].id] == Handle(buffer, k))
  }

  lemma BindOneMore(namespaces: map<Bytes, nat>, bound: seq<Definition>, data: seq<DataType>,
                    visible: seq<set<LogicalDataTypeId>>, indexes: map<LogicalDataTypeId, nat>,
                    handles: map<LogicalDataTypeId, Handle>, buffer: nat, d: Definition, t: DataType)
    requires BoundAll(namespaces, bound, data, visible, indexes, handles, buffer)
    requires d.id !in Ids(bound) && Bound(namespaces, d, t)
    ensures BoundAll(namespaces, bound + [d], data + [t], visible + [handles.Keys],
                     indexes[d.id := |bound|], handles[d.id := Handle(buffer, |bound|)], buffer)
  {
    var longer := bound + [d];
    IdsGrow(bound, d);
    forall k | 0 <= k < |longer| ensures (visible + [handles.Keys])[k] == Ids(longer[..k]) {
      assert longer[..k] == if k < |bound| then bound[..k] else bound;
    }
    forall k | 0 <= k < |bound| ensures longer[k].id != d.id {
      assert bound[k].id in Ids(bound);
    }
  }

  lemma IdsGrow(bound: seq<Definition>, d: Definition)
    ensures Ids(bound + [d]) == Ids(bound) + {d.id}
  {
    var longer := bound + [d];
    assert longer[|bound|] == d;
    forall k | 0 <= k < |bound| ensures bound[k].id in Ids(longer) { assert longer[k] == bound[k]; }
  }

  /** A namespace table is accepted when it is a bijection that keeps namespace zero in place. */
  ghost predicate ProperTable(namespaces: seq<(Bytes, nat)>)
  {
    && (forall i :: 0 <= i < |namespaces| ==> ValidText(namespaces[i].0))
    && (forall i, j :: 0 <= i < j < |namespaces| ==>
          namespaces[i].0 != namespaces[j].0 && namespaces[i].1 != namespaces[j].1)
  }

  ghost predicate TableHolds(namespaces: seq<(Bytes, nat)>, indexes: map<Bytes, nat>, used: set<nat>)
  {
    && indexes.Keys == (set k | 0 <= k < |namespaces| :: namespaces[k].0)
    && used == (set k | 0 <= k < |namespaces| :: namespaces[k].1)
    && forall k :: 0 <= k < |namespaces| ==>
         namespaces[k].0 in indexes && indexes[namespaces[k].0] == namespaces[k].1
  }

  lemma TableGrows(namespaces: seq<(Bytes, nat)>, i: nat, indexes: map<Bytes, nat>, used: set<nat>)
    requires i < |namespaces| && ProperTable(namespaces[..i]) && TableHolds(namespaces[..i], indexes, used)
    ensures ProperTable(namespaces[..i + 1]) <==>
            && ValidText(namespaces[i].0) && namespaces[i].0 !in indexes && namespaces[i].1 !in used
    ensures ProperTable(namespaces[..i + 1]) ==>
            TableHolds(namespaces[..i + 1], indexes[namespaces[i].0 := namespaces[i].1], used + {namespaces[i].1})
  {
    var before, after := namespaces[..i], namespaces[..i + 1];
    assert after == before + [namespaces[i]];
    if ProperTable(after) {
      assert after[i] == namespaces[i];
      forall k | 0 <= k < i ensures before[k].0 != namespaces[i].0 && before[k].1 != namespaces[i].1 {
        assert after[k] == before[k];
      }
    }
  }

  lemma ProperPrefix(namespaces: seq<(Bytes, nat)>, i: nat)
    requires i <= |namespaces|
    ensures ProperTable(namespaces) ==> ProperTable(namespaces[..i])
  {
    assert forall k :: 0 <= k < i ==> namespaces[..i][k] == namespaces[k];
  }

  lemma TableIsItems(namespaces: seq<(Bytes, nat)>, indexes: map<Bytes, nat>, used: set<nat>)
    requires TableHolds(namespaces, indexes, used)
    ensures indexes.Items == Elements(namespaces)
  {
    forall item ensures item in indexes.Items <==> item in Elements(namespaces) {
      if item in indexes.Items {
        assert item.0 in indexes.Keys;
        var k :| 0 <= k < |namespaces| && namespaces[k].0 == item.0;
        assert namespaces[k] == item;
      }
      if item in Elements(namespaces) {
        var k :| 0 <= k < |namespaces| && namespaces[k] == item;
      }
    }
  }

  /** The factories of all definitions; what one builds may depend on the types it can see. */
  type Factory = (Definition, set<LogicalDataTypeId>) -> Option<DataType>

  ghost predicate Matches(t: Option<DataType>, namespaces: map<Bytes, nat>, d: Definition)
  {
    t.Some? && Bound(namespaces, d, t.value)
  }

  /** Seeing all earlier types and no others, the factory builds what is defined. */
  ghost predicate MatchesAt(factory: Factory, namespaces: map<Bytes, nat>, all: seq<Definition>, k: nat)
    requires k < |all|
  {
    Matches(factory(all[k], Ids(all[..k])), namespaces, all[k])
  }

  ghost predicate AllMatch(factory: Factory, namespaces: map<Bytes, nat>, all: seq<Definition>, from: nat)
  {
    forall k :: from <= k < |all| ==> MatchesAt(factory, namespaces, all, k)
  }

  /** All namespaces are known, and every factory builds what is defined. */
  ghost predicate CanBind(factory: Factory, namespaces: map<Bytes, nat>, providers: seq<Provider>)
  {
    && (forall i :: 0 <= i < |providers| ==> providers[i].namespaceUri in namespaces)
    && AllMatch(factory, namespaces, Flatten(providers), 0)
  }

  /** Whether the definitions so far match does not depend on those to come. */
  lemma MatchesInPrefix(factory: Factory, namespaces: map<Bytes, nat>, done: seq<Definition>, more: seq<Definition>,
                        all: seq<Definition>)
    requires done + more <= all
    ensures AllMatch(factory, namespaces, done + more, 0) <==>
            AllMatch(factory, namespaces, done, 0) && AllMatch(factory, namespaces, done + more, |done|)
    ensures AllMatch(factory, namespaces, all, 0) ==> AllMatch(factory, namespaces, done + more, 0)
  {
    var part := done + more;
    forall k | 0 <= k < |done|
      ensures MatchesAt(factory, namespaces, part, k) == MatchesAt(factory, namespaces, done, k)
    {
      assert part[..k] == done[..k];
    }
    forall k | 0 <= k < |part|
      ensures MatchesAt(factory, namespaces, part, k) == MatchesAt(factory, namespaces, all, k)
    {
      assert part[..k] == all[..k];
    }
  }

  class EndpointRegistry {
    var namespaceIndexes: map<Bytes, nat>
    const customDataTypes: TypeVector
    var indexes: map<LogicalDataTypeId, nat>
    /** What factories see: the handle of every type materialised so far. */
    var factoryTypes: map<LogicalDataTypeId, Handle>
    /** For every materialisation, in order, the ids its factory could see. */
    ghost var visible: seq<set<LogicalDataTypeId>>

    constructor ()
      ensures fresh(customDataTypes) && customDataTypes.Valid() && customDataTypes.data == []
      ensures namespaceIndexes == map[] && indexes == map[] && factoryTypes == map[] && visible == []
    {
      customDataTypes := new TypeVector();
      namespaceIndexes, indexes, factoryTypes, visible := map[], map[], map[], [];
    }

    ghost predicate Holds(bound: seq<Definition>)
      reads this, customDataTypes
    {
      && customDataTypes.Valid()
      && BoundAll(namespaceIndexes, bound, customDataTypes.data, visible, indexes, factoryTypes,
                  customDataTypes.buffer)
    }

    method TakeNamespaces(namespaces: seq<(Bytes, nat)>) returns (ok: bool)
      requires namespaceIndexes == map[]
      modifies this`namespaceIndexes
      ensures ok <==> ProperTable(namespaces) && (NAMESPACE_ZERO, 0) in namespaces
      ensures ok ==> namespaceIndexes.Items == Elements(namespaces)
    {
      var used: set<nat> := {};
      for i := 0 to |namespaces|
        invariant ProperTable(namespaces[..i])
        invariant TableHolds(namespaces[..i], namespaceIndexes, used)
      {
        var (uri, index) := namespaces[i];
        TableGrows(namespaces, i, namespaceIndexes, used);
        if !ValidText(uri) || uri in namespaceIndexes || index in used {
          ProperPrefix(namespaces, i + 1);
          return false;
        }
        namespaceIndexes := namespaceIndexes[uri := index];
        used := used + {index};
      }
      TakeAll(namespaces);
      TableIsItems(namespaces, namespaceIndexes, used);
      ok := NAMESPACE_ZERO in namespaceIndexes && namespaceIndexes[NAMESPACE_ZERO] == 0;
      assert ok <==> (NAMESPACE_ZERO, 0) in namespaceIndexes.Items;
      assert (NAMESPACE_ZERO, 0) in namespaces <==> (NAMESPACE_ZERO, 0) in Elements(namespaces);
    }

    method BindDefinition(definition: Definition, factory: Factory, ghost bound: seq<Definition>) returns (ok: bool)
      requires Holds(bound) && definition.id !in Ids(bound)
      requires definition.id.namespaceUri in namespaceIndexes
      requires |bound| < customDataTypes.capacity
      modifies this`indexes, this`factoryTypes, this`visible, customDataTypes
      ensures ok <==> Matches(factory(definition, Ids(bound)), namespaceIndexes, definition)
      ensures ok ==> Holds(bound + [definition]) && customDataTypes.buffer == old(customDataTypes.buffer)
      ensures customDataTypes.capacity == old(customDataTypes.capacity)
    {
      var materialized := factory(definition, factoryTypes.Keys);
      if materialized.None? {
        return false;
      }
      var namespaceIndex := namespaceIndexes[definition.id.namespaceUri];
      var t := materialized.value;
      if t.typeId != (namespaceIndex, definition.id.typeNodeId)
         || t.encodingId != (namespaceIndex, definition.id.encodingNodeId)
         || !KindMatches(definition.kind, t.kind) {
        return false;
      }
      BindOneMore(namespaceIndexes, bound, customDataTypes.data, visible, indexes, factoryTypes,
                  customDataTypes.buffer, definition, t);
      visible := visible + [factoryTypes.Keys];
      customDataTypes.PushBack(t);
      var index := |customDataTypes.data| - 1;
      indexes := indexes[definition.id := index];
      factoryTypes := factoryTypes[definition.id := Handle(customDataTypes.buffer, index)];
      return true;
    }

    /** The inner loop: all definitions of one provider, after everything in `done`. */
    method BindProvider(definitions: seq<Definition>, factory: Factory, ghost done: seq<Definition>) returns (ok: bool)
      requires Holds(done) && DistinctIds(done + definitions)
      requires forall k :: 0 <= k < |definitions| ==> definitions[k].id.namespaceUri in namespaceIndexes
      requires |done| + |definitions| <= customDataTypes.capacity
      modifies this`indexes, this`factoryTypes, this`visible, customDataTypes
      ensures ok <==> AllMatch(factory, namespaceIndexes, done + definitions, |done|)
      ensures ok ==> Holds(done + definitions)
      ensures customDataTypes.capacity == old(customDataTypes.capacity)
    {
      assert done + definitions[..0] == done;
      for k := 0 to |definitions|
        invariant customDataTypes.capacity == old(customDataTypes.capacity)
        invariant Holds(done + definitions[..k])
        invariant forall m :: |done| <= m < |done| + k ==> MatchesAt(factory, namespaceIndexes, done + definitions, m)
      {
        ghost var bound := done + definitions[..k];
        assert bound + [definitions[k]] == done + definitions[..k + 1];
        forall m | 0 <= m < |bound| ensures bound[m].id != definitions[k].id {
          assert (done + definitions)[m] == bound[m] && (done + definitions)[|bound|] == definitions[k];
        }
        assert (done + definitions)[..|bound|] == bound;
        var bindOk := BindDefinition(definitions[k], factory, bound);
        if !bindOk {
          assert !MatchesAt(factory, namespaceIndexes, done + definitions, |bound|);
          return false;
        }
      }
      TakeAll(definitions);
      return true;
    }

    /** Succeeds iff all namespaces are known and every factory builds the type that was defined. */
    method Bind(providers: seq<Provider>, factory: Factory) returns (ok: bool)
      requires FrozenOrder(providers)
      requires forall i :: 0 <= i < |providers| ==> OwnNamespace(providers[i])
      requires Holds([])
      modifies this`indexes, this`factoryTypes, this`visible, customDataTypes
      ensures ok <==> CanBind(factory, namespaceIndexes, providers)
      ensures ok ==> Holds(Flatten(providers))
    {
      for i := 0 to |providers|
        invariant forall k :: 0 <= k < i ==> providers[k].namespaceUri in namespaceIndexes
      {
        if providers[i].namespaceUri !in namespaceIndexes {
          return false;
        }
      }
      var count := CountDefinitions(providers);
      customDataTypes.Reserve(count);
      ghost var all := Flatten(providers);
      FlattenedIdsDistinct(providers);
      for i := 0 to |providers|
        invariant customDataTypes.capacity >= |all|
        invariant Holds(Flatten(providers[..i]))
        invariant AllMatch(factory, namespaceIndexes, Flatten(providers[..i]), 0)
      {
        var definitions := providers[i].dataTypes;
        ghost var done := Flatten(providers[..i]);
        FlattenMore(providers, i);
        FlattenPrefix(providers, i + 1);
        PrefixDistinct(done + definitions, all);
        var bindOk := BindProvider(definitions, factory, done);
        MatchesInPrefix(factory, namespaceIndexes, done, definitions, all);
        if !bindOk {
          return false;
        }
      }
      TakeAll(providers);
      return true;
    }
  }

  /**
    An endpoint registry exists only with everything bound, in the frozen order. `codecsBind`
    says whether the codec of every RTT type can be bound to its native type.
   */
  method Create(registry: Registry, namespaces: seq<(Bytes, nat)>, factory: Factory, codecsBind: bool)
    returns (r: EndpointRegistry?)
    requires registry.Valid()
    modifies registry
    ensures registry.Valid()
    ensures registry.State() == if ProperTable(namespaces) && (NAMESPACE_ZERO, 0) in namespaces
                                then AfterFreeze(old(registry.State()))
                                else old(registry.State())
    ensures r != null ==>
              && fresh(r) && codecsBind
              && registry.frozen
              && ProperTable(namespaces) && (NAMESPACE_ZERO, 0) in namespaces
              && r.namespaceIndexes.Items == Elements(namespaces)
              && r.Holds(Flatten(OrderedProviders(registry.State())))
    ensures r == null && codecsBind && registry.frozen && ProperTable(namespaces) && (NAMESPACE_ZERO, 0) in namespaces ==>
              exists table: map<Bytes, nat> :: table.Items == Elements(namespaces)
                                               && !CanBind(factory, table, OrderedProviders(registry.State()))
  {
    var endpoint := new EndpointRegistry();
    var named := endpoint.TakeNamespaces(namespaces);
    if !named {
      return null;
    }
    var providers := registry.FrozenProviders();
    if providers.None? {
      return null;
    }
    FrozenProvidersAreOrdered(registry.State());
    var bound := endpoint.Bind(providers.value, factory);
    if !bound || !codecsBind {
      return null;
    }
    return endpoint;
  }

  lemma PrefixDistinct(part: seq<Definition>, all: seq<Definition>)
    requires part <= all && DistinctIds(all)
    ensures DistinctIds(part)
  {
    assert forall k :: 0 <= k < |part| ==> part[k] == all[k];
  }

  method CountDefinitions(providers: seq<Provider>) returns (count: nat)
    ensures count == |Flatten(providers)|
  {
    count := 0;
    for i := 0 to |providers|
      invariant count == |Flatten(providers[..i])|
    {
      FlattenMore(providers, i);
      count := count + |providers[i].dataTypes|;
    }
    TakeAll(providers);
  }

  /**
    When a definition of provider i is materialised, at position k of the flattened list, every
    definition of every dependency of that provider has been materialised before.
   */
  lemma DependenciesAreVisible(providers: seq<Provider>, i: nat, k: nat, d: Bytes)
    requires FrozenOrder(providers) && i < |providers|
    requires |Flatten(providers[..i])| <= k < |Flatten(providers[..i + 1])| <= |Flatten(providers)|
    requires d in providers[i].dependencies
    ensures exists j :: 0 <= j < i && providers[j].name == d
                        && Ids(providers[j].dataTypes) <= Ids(Flatten(providers)[..k])
  {
    var j :| 0 <= j < i && providers[j].name == d;
    EarlierIsVisible(providers, j, i, k);
  }

  lemma EarlierIsVisible(providers: seq<Provider>, j: nat, i: nat, k: nat)
    requires j < i <= |providers| && |Flatten(providers[..i])| <= k <= |Flatten(providers)|
    ensures Ids(providers[j].dataTypes) <= Ids(Flatten(providers)[..k])
  {
    var part, types := Flatten(providers[..j]), providers[j].dataTypes;
    FlattenMore(providers, j);
    assert providers[..i][..j + 1] == providers[..j + 1];
    FlattenPrefix(providers[..i], j + 1);
    FlattenPrefix(providers, i);
    var seen := Flatten(providers)[..k];
    assert part + types <= seen;
    forall m | 0 <= m < |types| ensures types[m].id in Ids(seen) {
      assert (part + types)[|part| + m] == types[m];
      assert seen[|part| + m] == types[m];
    }
  }
}
