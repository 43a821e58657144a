/**
  Service discovery (discoverService in src/object_model.cpp) over an arbitrary, possibly
  cyclic, graph of services. The recursion is proved to record exactly what the simple service
  chains of length at most 32 list, and to leave the ancestry set as it found it.
 */
module ServiceDiscovery {
  import opened Wrappers
  import opened Ordering
  import opened ResourcePaths

  type ServiceId = nat

  datatype Listed = Listed(name: Bytes, available: bool)

  datatype Provided = Provided(name: Bytes, service: Option<ServiceId>)

  datatype ServiceNode = ServiceNode(
    operations: seq<Listed>, properties: seq<Listed>, attributes: seq<Listed>, ports: seq<Listed>,
    providers: seq<Provided>)

  type ServiceGraph = map<ServiceId, ServiceNode>

  const MAXIMUM_SERVICE_DEPTH: nat := 32

  datatype DiscoveryError = NoError | Unavailable | FormsCycle | TooDeep

  datatype ResourceRecord = ResourceRecord(
    kind: ResourceKind, path: Bytes, ownerPath: Bytes, ownerNames: seq<Bytes>, name: Bytes,
    owner: ServiceId, service: Option<ServiceId>, error: DiscoveryError)

  ghost predicate ClosedGraph(g: ServiceGraph)
  {
    forall s, p :: s in g && p in g[s].providers && p.service.Some? ==> p.service.value in g
  }

  // ------------------------------------------------------------------- records

  function ListedRecord(kind: ResourceKind, names: seq<Bytes>, owner: ServiceId, entry: Listed): ResourceRecord
  {
    ResourceRecord(kind, ResourcePath(ServicePath(names), kind, entry.name), ServicePath(names), names, entry.name,
                   owner, None, if entry.available then NoError else Unavailable)
  }

  /** `ids` are the services on the way down, the owner last. */
  function ProvidedRecord(names: seq<Bytes>, ids: seq<ServiceId>, p: Provided): ResourceRecord
    requires ids != []
  {
    var error :=
      if p.service.None? then Unavailable
      else if p.service.value in ids then FormsCycle
      else if |names| >= MAXIMUM_SERVICE_DEPTH then TooDeep
      else NoError;
    ResourceRecord(Service, ResourcePath(ServicePath(names), Service, p.name), ServicePath(names), names, p.name,
                   ids[|ids| - 1], p.service, error)
  }

  function ListedRecords(kind: ResourceKind, names: seq<Bytes>, owner: ServiceId, list: seq<Listed>)
    : (r: seq<ResourceRecord>)
    ensures |r| == |list|
    ensures forall i :: 0 <= i < |list| ==> r[i] == ListedRecord(kind, names, owner, list[i])
  {
    seq(|list|, i requires 0 <= i < |list| => ListedRecord(kind, names, owner, list[i]))
  }

  function OwnRecords(names: seq<Bytes>, owner: ServiceId, node: ServiceNode): seq<ResourceRecord>
  {
    ListedRecords(Operation, names, owner, node.operations)
    + ListedRecords(Property, names, owner, node.properties)
    + ListedRecords(Attribute, names, owner, node.attributes)
    + ListedRecords(Port, names, owner, node.ports)
  }

  /** The position of a recursive visit: the services above it, all different, none too deep. */
  ghost predicate Visit(g: ServiceGraph, names: seq<Bytes>, ids: seq<ServiceId>)
  {
    && |ids| == |names| + 1
    && |names| <= MAXIMUM_SERVICE_DEPTH
    && NoDuplicates(ids)
    && forall i :: 0 <= i < |ids| ==> ids[i] in g
  }

  /** All records in the order of discovery. */
  ghost function Records(g: ServiceGraph, names: seq<Bytes>, ids: seq<ServiceId>): seq<ResourceRecord>
    requires ClosedGraph(g) && Visit(g, names, ids)
    decreases MAXIMUM_SERVICE_DEPTH + 1 - |names|, 1, 0
  {
    var owner := ids[|ids| - 1];
    OwnRecords(names, owner, g[owner]) + ProviderRecords(g, names, ids, 0)
  }

  ghost function ProviderRecords(g: ServiceGraph, names: seq<Bytes>, ids: seq<ServiceId>, k: nat): seq<ResourceRecord>
    requires ClosedGraph(g) && Visit(g, names, ids)
    requires k <= |g[ids[|ids| - 1]].providers|
    decreases MAXIMUM_SERVICE_DEPTH + 1 - |names|, 0, |g[ids[|ids| - 1]].providers| - k
  {
    var providers := g[ids[|ids| - 1]].providers;
    if k == |providers| then []
    else RecordsOfProvider(g, names, ids, k) + ProviderRecords(g, names, ids, k + 1)
  }

  /** One provider: its own record, and everything below it when it is expanded. */
  ghost function RecordsOfProvider(g: ServiceGraph, names: seq<Bytes>, ids: seq<ServiceId>, k: nat)
    : seq<ResourceRecord>
    requires ClosedGraph(g) && Visit(g, names, ids)
    requires k < |g[ids[|ids| - 1]].providers|
    decreases MAXIMUM_SERVICE_DEPTH + 1 - |names|, 0, |g[ids[|ids| - 1]].providers| - k - 1
  {
    var p := g[ids[|ids| - 1]].providers[k];
    if p.name == "this" then []
    else
      var r := ProvidedRecord(names, ids, p);
      if r.error.NoError? then
        VisitChild(g, names, ids, p);
        [r] + Records(g, names + [p.name], ids + [p.service.value])
      else [r]
  }

  lemma VisitChild(g: ServiceGraph, names: seq<Bytes>, ids: seq<ServiceId>, p: Provided)
    requires ClosedGraph(g) && Visit(g, names, ids)
    requires p in g[ids[|ids| - 1]].providers && ProvidedRecord(names, ids, p).error.NoError?
    ensures Visit(g, names + [p.name], ids + [p.service.value])
  {
  }

  // ----------------------------------------------------------------- inventory

  datatype InventoryState = InventoryState(resources: map<Bytes, ResourceRecord>, duplicates: seq<Bytes>)

  /** std::map::emplace keeps the first record of a path; later ones are fatal diagnostics. */
  function Added(s: InventoryState, r: ResourceRecord): InventoryState
  {
    if r.path in s.resources then s.(duplicates := s.duplicates + [r.path])
    else s.(resources := s.resources[r.path := r])
  }

  ghost function AddedAll(s: InventoryState, records: seq<ResourceRecord>): InventoryState
  {
    if records == [] then s
    else Added(AddedAll(s, records[..|records| - 1]), records[|records| - 1])
  }

  lemma {:induction false} AddedAllConcat(s: InventoryState, a: seq<ResourceRecord>, b: seq<ResourceRecord>)
    ensures AddedAll(s, a + b) == AddedAll(AddedAll(s, a), b)
  {
    if b == [] {
      assert a + b == a;
    } else {
      var n := |b| - 1;
      AddedAllConcat(s, a, b[..n]);
      assert (a + b)[..|a + b| - 1] == a + b[..n];
    }
  }

  lemma AddedOne(s: InventoryState, r: ResourceRecord)
    ensures AddedAll(s, [r]) == Added(s, r)
  {
    assert [r][..0] == [];
    assert AddedAll(s, []) == s;
  }

  /** Adding what providers k and up contribute to `s` leads to `goal`. */
  ghost predicate Remaining(g: ServiceGraph, names: seq<Bytes>, ids: seq<ServiceId>, s: InventoryState, k: nat,
                            goal: InventoryState)
    requires ClosedGraph(g) && Visit(g, names, ids)
  {
    k <= |g[ids[|ids| - 1]].providers| && AddedAll(s, ProviderRecords(g, names, ids, k)) == goal
  }

  lemma RemainingStart(g: ServiceGraph, names: seq<Bytes>, ids: seq<ServiceId>, s: InventoryState)
    requires ClosedGraph(g) && Visit(g, names, ids)
    ensures var owner := ids[|ids| - 1];
            Remaining(g, names, ids, AddedAll(s, OwnRecords(names, owner, g[owner])), 0,
                      AddedAll(s, Records(g, names, ids)))
  {
    var owner := ids[|ids| - 1];
    AddedAllConcat(s, OwnRecords(names, owner, g[owner]), ProviderRecords(g, names, ids, 0));
  }

  lemma RemainingStep(g: ServiceGraph, names: seq<Bytes>, ids: seq<ServiceId>, s: InventoryState, k: nat,
                      goal: InventoryState)
    requires ClosedGraph(g) && Visit(g, names, ids) && Remaining(g, names, ids, s, k, goal)
    ensures k == |g[ids[|ids| - 1]].providers| ==> s == goal
    ensures k < |g[ids[|ids| - 1]].providers| ==>
              Remaining(g, names, ids, AddedAll(s, RecordsOfProvider(g, names, ids, k)), k + 1, goal)
  {
    if k < |g[ids[|ids| - 1]].providers| {
      AddedAllConcat(s, RecordsOfProvider(g, names, ids, k), ProviderRecords(g, names, ids, k + 1));
    }
  }

  /** The inventory that discovery leaves behind. */
  ghost function Discovered(g: ServiceGraph, root: ServiceId): InventoryState
    requires ClosedGraph(g) && root in g
  {
    AddedAll(InventoryState(map[], []), Records(g, [], [root]))
  }

  class Inventory {
    var resources: map<Bytes, ResourceRecord>
    var duplicates: seq<Bytes>
    /** The services of the current call chain. */
    var ancestry: set<ServiceId>

    constructor ()
      ensures State() == InventoryState(map[], []) && ancestry == {}
    {
      resources, duplicates, ancestry := map[], [], {};
    }

    ghost function State(): InventoryState
      reads this
    {
      InventoryState(resources, duplicates)
    }

    method AddRecord(record: ResourceRecord)
      modifies this`resources, this`duplicates
      ensures State() == Added(old(State()), record)
    {
      if record.path !in resources {
        resources := resources[record.path := record];
      } else {
        duplicates := duplicates + [record.path];
      }
    }

    method AddListed(kind: ResourceKind, ownerPath: Bytes, names: seq<Bytes>, owner: ServiceId, list: seq<Listed>)
      requires ownerPath == ServicePath(names)
      modifies this`resources, this`duplicates
      ensures State() == AddedAll(old(State()), ListedRecords(kind, names, owner, list))
    {
      ghost var all := ListedRecords(kind, names, owner, list);
      for i := 0 to |list|
        invariant State() == AddedAll(old(State()), all[..i])
      {
        var entry := list[i];
        assert all[..i + 1][..i] == all[..i];
        AddRecord(ResourceRecord(kind, ResourcePath(ownerPath, kind, entry.name), ownerPath, names, entry.name,
                                 owner, None, if entry.available then NoError else Unavailable));
      }
      TakeAll(all);
    }

    /** Records everything below one service and restores the ancestry set. */
    method DiscoverService(g: ServiceGraph, service: ServiceId, ownerPath: Bytes, names: seq<Bytes>, depth: nat,
                           ghost ids: seq<ServiceId>)
      requires ClosedGraph(g) && Visit(g, names, ids)
      requires service == ids[|ids| - 1] && ancestry == Elements(ids[..|ids| - 1])
      requires ownerPath == ServicePath(names) && depth == |names|
      modifies this
      ensures State() == AddedAll(old(State()), Records(g, names, ids))
      ensures ancestry == old(ancestry)
      decreases MAXIMUM_SERVICE_DEPTH + 1 - depth, 1
    {
      TakeMore(ids, |ids| - 1);
      TakeAll(ids);
      ancestry := ancestry + {service};
      AddOwnRecords(g, service, ownerPath, names);
      ghost var goal := AddedAll(old(State()), Records(g, names, ids));
      RemainingStart(g, names, ids, old(State()));
      var providers := g[service].providers;
      for k := 0 to |providers|
        invariant ancestry == Elements(ids)
        invariant Remaining(g, names, ids, State(), k, goal)
      {
        RemainingStep(g, names, ids, State(), k, goal);
        DiscoverProvider(g, service, k, ownerPath, names, depth, ids);
      }
      RemainingStep(g, names, ids, State(), |providers|, goal);
      ancestry := ancestry - {service};
      assert service !in ids[..|ids| - 1];
    }

    /** One turn of the provider loop. */
    method DiscoverProvider(g: ServiceGraph, service: ServiceId, k: nat, ownerPath: Bytes, names: seq<Bytes>, depth: nat,
                            ghost ids: seq<ServiceId>)
      requires ClosedGraph(g) && Visit(g, names, ids)
      requires service == ids[|ids| - 1] && ancestry == Elements(ids) && k < |g[service].providers|
      requires ownerPath == ServicePath(names) && depth == |names|
      modifies this
      ensures State() == AddedAll(old(State()), RecordsOfProvider(g, names, ids, k))
      ensures ancestry == old(ancestry)
      decreases MAXIMUM_SERVICE_DEPTH + 1 - depth, 0
    {
      var p := g[service].providers[k];
      if p.name == "this" {
        return;
      }
      var childPath := ResourcePath(ownerPath, Service, p.name);
      var error := NoError;
      if p.service.None? {
        error := Unavailable;
      } else if p.service.value in ancestry {
        error := FormsCycle;
      } else if depth >= MAXIMUM_SERVICE_DEPTH {
        error := TooDeep;
      }
      var record := ResourceRecord(Service, childPath, ownerPath, names, p.name, service, p.service, error);
      AddedOne(State(), record);
      AddRecord(record);
      if p.service.Some? && error.NoError? {
        VisitChild(g, names, ids, p);
        ChildPath(names, p.name);
        assert (ids + [p.service.value])[..|ids|] == ids;
        AddedAllConcat(old(State()), [record], Records(g, names + [p.name], ids + [p.service.value]));
        DiscoverService(g, p.service.value, childPath, names + [p.name], depth + 1, ids + [p.service.value]);
      }
    }

    method AddOwnRecords(g: ServiceGraph, service: ServiceId, ownerPath: Bytes, names: seq<Bytes>)
      requires service in g && ownerPath == ServicePath(names)
      modifies this`resources, this`duplicates
      ensures State() == AddedAll(old(State()), OwnRecords(names, service, g[service]))
    {
      var node := g[service];
      ghost var s := State();
      ghost var a, b := ListedRecords(Operation, names, service, node.operations),
                        ListedRecords(Property, names, service, node.properties);
      ghost var c, d := ListedRecords(Attribute, names, service, node.attributes),
                        ListedRecords(Port, names, service, node.ports);
      AddedAllConcat(s, a, b);
      AddedAllConcat(s, a + b, c);
      AddedAllConcat(s, a + b + c, d);
      AddListed(Operation, ownerPath, names, service, node.operations);
      AddListed(Property, ownerPath, names, service, node.properties);
      AddListed(Attribute, ownerPath, names, service, node.attributes);
      AddListed(Port, ownerPath, names, service, node.ports);
    }
  }

  lemma ChildPath(names: seq<Bytes>, name: Bytes)
    ensures ServicePath(names + [name]) == ResourcePath(ServicePath(names), Service, name)
  {
    assert (names + [name])[..|names|] == names;
  }

  /** Discovery of a whole component; without a root service there is nothing to record. */
  method DiscoverComponent(g: ServiceGraph, root: Option<ServiceId>) returns (inventory: Option<Inventory>)
    requires ClosedGraph(g) && (root.Some? ==> root.value in g)
    ensures inventory.None? <==> root.None?
    ensures inventory.Some? ==>
              fresh(inventory.value) && inventory.value.ancestry == {}
              && inventory.value.State() == Discovered(g, root.value)
  {
    if root.None? {
      return None;
    }
    var found := new Inventory();
    found.DiscoverService(g, root.value, [], [], 0, [root.value]);
    return Some(found);
  }

  // --------------------------------------------------------- characterisation

  /** A simple chain of services from the root, spelled by provider names other than "this". */
  ghost predicate Chain(g: ServiceGraph, root: ServiceId, names: seq<Bytes>, ids: seq<ServiceId>)
  {
    && Visit(g, names, ids)
    && ids[0] == root
    && forall i :: 0 <= i < |names| ==>
         names[i] != "this" && Provided(names[i], Some(ids[i + 1])) in g[ids[i]].providers
  }

  /** The record of a name on a list of the service, available or not. */
  ghost predicate ListedAs(list: seq<Listed>, r: ResourceRecord)
  {
    && r.service.None?
    && ((r.error == NoError && Listed(r.name, true) in list) || (r.error == Unavailable && Listed(r.name, false) in list))
  }

  /** The record of a provider: missing, an ancestor of its own, below too many services, or none of these. */
  ghost predicate ProvidedAs(providers: seq<Provided>, names: seq<Bytes>, ids: seq<ServiceId>, r: ResourceRecord)
  {
    && r.name != "this" && Provided(r.name, r.service) in providers
    && (r.error == Unavailable <==> r.service.None?)
    && (r.error == FormsCycle <==> r.service.Some? && r.service.value in ids)
    && (r.error == TooDeep <==> r.service.Some? && r.service.value !in ids && |names| == 32)
  }

  /** What the service at the end of a chain lists: its own four lists and its providers, and nothing else. */
  ghost predicate Lists(g: ServiceGraph, names: seq<Bytes>, ids: seq<ServiceId>, r: ResourceRecord)
    requires Visit(g, names, ids)
  {
    var owner := ids[|ids| - 1];
    && r.owner == owner && r.ownerNames == names && r.ownerPath == ServicePath(names)
    && r.path == ResourcePath(ServicePath(names), r.kind, r.name)
    && match r.kind
       case Operation => ListedAs(g[owner].operations, r)
       case Property => ListedAs(g[owner].properties, r)
       case Attribute => ListedAs(g[owner].attributes, r)
       case Port => ListedAs(g[owner].ports, r)
       case Service => ProvidedAs(g[owner].providers, names, ids, r)
  }

  lemma ListedRecordsAre(kind: ResourceKind, names: seq<Bytes>, owner: ServiceId, list: seq<Listed>, r: ResourceRecord)
    ensures r in ListedRecords(kind, names, owner, list) <==>
            && r.kind == kind && r.owner == owner && r.ownerNames == names && r.ownerPath == ServicePath(names)
            && r.path == ResourcePath(ServicePath(names), kind, r.name)
            && ListedAs(list, r)
  {
    hide ServicePath, ResourcePath;
    var records := ListedRecords(kind, names, owner, list);
    if r in records {
      var i :| 0 <= i < |records| && records[i] == r;
      assert list[i] in list;
    }
    if ListedAs(list, r) {
      var i :| 0 <= i < |list| && list[i] == Listed(r.name, r.error == NoError);
      assert records[i] in records;
    }
  }

  lemma OwnRecordsAre(g: ServiceGraph, names: seq<Bytes>, ids: seq<ServiceId>, r: ResourceRecord)
    requires Visit(g, names, ids)
    ensures var owner := ids[|ids| - 1];
            r in OwnRecords(names, owner, g[owner]) <==> r.kind != Service && Lists(g, names, ids, r)
  {
    var owner := ids[|ids| - 1];
    hide ServicePath, ResourcePath, ListedAs, ListedRecords;
    ListedRecordsAre(Operation, names, owner, g[owner].operations, r);
    ListedRecordsAre(Property, names, owner, g[owner].properties, r);
    ListedRecordsAre(Attribute, names, owner, g[owner].attributes, r);
    ListedRecordsAre(Port, names, owner, g[owner].ports, r);
  }

  /** The records that the recursion makes at one service are those that it lists. */
  lemma ListsMeans(g: ServiceGraph, names: seq<Bytes>, ids: seq<ServiceId>, r: ResourceRecord)
    requires Visit(g, names, ids)
    ensures var owner := ids[|ids| - 1];
            Lists(g, names, ids, r) <==>
            || r in OwnRecords(names, owner, g[owner])
            || exists p :: p in g[owner].providers && p.name != "this" && r == ProvidedRecord(names, ids, p)
  {
    hide ServicePath, ResourcePath, OwnRecords;
    var owner := ids[|ids| - 1];
    OwnRecordsAre(g, names, ids, r);
    if Lists(g, names, ids, r) && r.kind == Service {
      assert r == ProvidedRecord(names, ids, Provided(r.name, r.service));
    }
  }

  ghost predicate ListedBelow(g: ServiceGraph, root: ServiceId, names: seq<Bytes>, ids: seq<ServiceId>,
                              r: ResourceRecord)
  {
    exists names', ids' :: names <= names' && ids <= ids' && Chain(g, root, names', ids') && Lists(g, names', ids', r)
  }

  lemma ChainExtends(g: ServiceGraph, root: ServiceId, names: seq<Bytes>, ids: seq<ServiceId>, p: Provided)
    requires ClosedGraph(g) && Chain(g, root, names, ids) && p in g[ids[|ids| - 1]].providers
    requires p.name != "this" && ProvidedRecord(names, ids, p).error.NoError?
    ensures Chain(g, root, names + [p.name], ids + [p.service.value])
  {
    var n, d := names + [p.name], ids + [p.service.value];
    VisitChild(g, names, ids, p);
    forall i | 0 <= i < |n| ensures n[i] != "this" && Provided(n[i], Some(d[i + 1])) in g[d[i]].providers {
      if i == |names| { assert p == Provided(n[i], Some(d[i + 1])); }
    }
  }

  lemma {:induction false} RecordsAreListed(g: ServiceGraph, root: ServiceId, names: seq<Bytes>, ids: seq<ServiceId>,
                                            r: ResourceRecord)
    requires ClosedGraph(g) && Chain(g, root, names, ids) && r in Records(g, names, ids)
    ensures ListedBelow(g, root, names, ids, r)
    decreases MAXIMUM_SERVICE_DEPTH + 1 - |names|, 1, 0
  {
    var owner := ids[|ids| - 1];
    ListsMeans(g, names, ids, r);
    if r in OwnRecords(names, owner, g[owner]) {
      assert Lists(g, names, ids, r);
    } else {
      ProviderRecordsAreListed(g, root, names, ids, 0, r);
    }
  }

  lemma {:induction false} ProviderRecordsAreListed(g: ServiceGraph, root: ServiceId, names: seq<Bytes>,
                                                    ids: seq<ServiceId>, k: nat, r: ResourceRecord)
    requires ClosedGraph(g) && Chain(g, root, names, ids)
    requires k <= |g[ids[|ids| - 1]].providers| && r in ProviderRecords(g, names, ids, k)
    ensures ListedBelow(g, root, names, ids, r)
    decreases MAXIMUM_SERVICE_DEPTH + 1 - |names|, 0, |g[ids[|ids| - 1]].providers| - k
  {
    hide ListedAs, ProvidedAs, ServicePath, ResourcePath;
    if r in RecordsOfProvider(g, names, ids, k) {
      var p := g[ids[|ids| - 1]].providers[k];
      if r == ProvidedRecord(names, ids, p) {
        ListsMeans(g, names, ids, r);
      } else {
        ChainExtends(g, root, names, ids, p);
        RecordsAreListed(g, root, names + [p.name], ids + [p.service.value], r);
        var names', ids' :| names + [p.name] <= names' && ids + [p.service.value] <= ids'
                            && Chain(g, root, names', ids') && Lists(g, names', ids', r);
        assert names <= names' && ids <= ids';
      }
    } else {
      ProviderRecordsAreListed(g, root, names, ids, k + 1, r);
    }
  }

  lemma {:induction false} ProviderIsRecorded(g: ServiceGraph, names: seq<Bytes>, ids: seq<ServiceId>, k: nat, i: nat,
                                              r: ResourceRecord)
    requires ClosedGraph(g) && Visit(g, names, ids)
    requires k <= i < |g[ids[|ids| - 1]].providers| && r in RecordsOfProvider(g, names, ids, i)
    ensures r in ProviderRecords(g, names, ids, k)
    decreases i - k
  {
    hide RecordsOfProvider, Records;
    if k < i {
      ProviderIsRecorded(g, names, ids, k + 1, i, r);
    }
  }

  lemma ListedHereIsRecorded(g: ServiceGraph, names: seq<Bytes>, ids: seq<ServiceId>, r: ResourceRecord)
    requires ClosedGraph(g) && Visit(g, names, ids) && Lists(g, names, ids, r)
    ensures r in Records(g, names, ids)
  {
    var owner := ids[|ids| - 1];
    ListsMeans(g, names, ids, r);
    if r !in OwnRecords(names, owner, g[owner]) {
      var p :| p in g[owner].providers && p.name != "this" && r == ProvidedRecord(names, ids, p);
      var i :| 0 <= i < |g[owner].providers| && g[owner].providers[i] == p;
      assert r in RecordsOfProvider(g, names, ids, i);
      ProviderIsRecorded(g, names, ids, 0, i, r);
    }
  }

  lemma RecordedBelowIsRecorded(g: ServiceGraph, names: seq<Bytes>, ids: seq<ServiceId>, p: Provided, r: ResourceRecord)
    requires ClosedGraph(g) && Visit(g, names, ids) && p in g[ids[|ids| - 1]].providers && p.name != "this"
    requires ProvidedRecord(names, ids, p).error.NoError? && Visit(g, names + [p.name], ids + [p.service.value])
    requires r in Records(g, names + [p.name], ids + [p.service.value])
    ensures r in Records(g, names, ids)
  {
    var providers := g[ids[|ids| - 1]].providers;
    var i :| 0 <= i < |providers| && providers[i] == p;
    assert r in RecordsOfProvider(g, names, ids, i);
    ProviderIsRecorded(g, names, ids, 0, i, r);
  }

  lemma {:induction false} ListedIsRecorded(g: ServiceGraph, root: ServiceId, names: seq<Bytes>, ids: seq<ServiceId>,
                                            n: nat, r: ResourceRecord)
    requires ClosedGraph(g) && Chain(g, root, names, ids) && Lists(g, names, ids, r) && n <= |names|
    ensures Visit(g, names[..n], ids[..n + 1])
    ensures r in Records(g, names[..n], ids[..n + 1])
    decreases |names| - n
  {
    hide Lists;
    if n == |names| {
      TakeAll(names);
      TakeAll(ids);
      ListedHereIsRecorded(g, names, ids, r);
    } else {
      ListedIsRecorded(g, root, names, ids, n + 1, r);
      ExpandedBelowChain(g, root, names, ids, n);
      TakeMore(names, n);
      TakeMore(ids, n + 1);
      RecordedBelowIsRecorded(g, names[..n], ids[..n + 1], Provided(names[n], Some(ids[n + 1])), r);
    }
  }

  /** Along a chain every next service is expanded: it closes no cycle and is not too deep. */
  lemma ExpandedBelowChain(g: ServiceGraph, root: ServiceId, names: seq<Bytes>, ids: seq<ServiceId>, n: nat)
    requires Chain(g, root, names, ids) && n < |names|
    ensures ProvidedRecord(names[..n], ids[..n + 1], Provided(names[n], Some(ids[n + 1]))).error.NoError?
    ensures Chain(g, root, names[..n], ids[..n + 1])
  {
    assert ids[n + 1] !in ids[..n + 1];
    assert Visit(g, names[..n], ids[..n + 1]);
  }

  /** Discovery records exactly what simple chains of at most 32 services list. */
  lemma DiscoveryIsExact(g: ServiceGraph, root: ServiceId, r: ResourceRecord)
    requires ClosedGraph(g) && root in g
    ensures r in Records(g, [], [root]) <==>
            exists names, ids :: Chain(g, root, names, ids) && Lists(g, names, ids, r)
  {
    assert Chain(g, root, [], [root]);
    if r in Records(g, [], [root]) {
      RecordsAreListed(g, root, [], [root], r);
    }
    if names, ids :| Chain(g, root, names, ids) && Lists(g, names, ids, r) {
      assert names[..0] == [] && ids[..1] == [root];
      ListedIsRecorded(g, root, names, ids, 0, r);
    }
  }

  /** Every service on a chain is recorded, as one that was expanded. */
  lemma ChainIsRecorded(g: ServiceGraph, root: ServiceId, names: seq<Bytes>, ids: seq<ServiceId>, k: nat)
    requires ClosedGraph(g) && root in g && Chain(g, root, names, ids) && k < |names|
    ensures exists a :: a in Records(g, [], [root]) && IsServiceRecord(a, names[..k + 1]) && a.service == Some(ids[k + 1])
  {
    hide ResourcePath;
    ExpandedBelowChain(g, root, names, ids, k);
    TakeMore(names, k);
    var a := ProvidedRecord(names[..k], ids[..k + 1], Provided(names[k], Some(ids[k + 1])));
    assert ids[..k + 1][k] == ids[k];
    ListsMeans(g, names[..k], ids[..k + 1], a);
    DiscoveryIsExact(g, root, a);
    ChildPath(names[..k], names[k]);
  }

  /** Every service above a recorded resource is recorded too, as one that was expanded. */
  lemma AncestorsAreRecorded(g: ServiceGraph, root: ServiceId, r: ResourceRecord, k: nat)
    requires ClosedGraph(g) && root in g && r in Records(g, [], [root]) && k < |r.ownerNames|
    ensures exists a :: a in Records(g, [], [root]) && IsServiceRecord(a, r.ownerNames[..k + 1])
  {
    DiscoveryIsExact(g, root, r);
    var names, ids :| Chain(g, root, names, ids) && Lists(g, names, ids, r);
    ListedNames(g, names, ids, r);
    ChainIsRecorded(g, root, names, ids, k);
  }

  /** The record of the service reached over `names`, expanded by the discovery. */
  ghost predicate IsServiceRecord(a: ResourceRecord, names: seq<Bytes>)
  {
    && a.kind == Service
    && a.error.NoError?
    && a.ownerNames + [a.name] == names
    && a.path == ServicePath(names)
  }

  /** A record spells its own place, and neither it nor an expanded service lies too deep. */
  ghost predicate WellPlaced(r: ResourceRecord)
  {
    && r.ownerPath == ServicePath(r.ownerNames)
    && r.path == ResourcePath(r.ownerPath, r.kind, r.name)
    && |r.ownerNames| <= MAXIMUM_SERVICE_DEPTH
    && (r.kind == Service && r.error.NoError? ==> r.service.Some? && |r.ownerNames + [r.name]| <= MAXIMUM_SERVICE_DEPTH)
  }

  lemma ListedNames(g: ServiceGraph, names: seq<Bytes>, ids: seq<ServiceId>, r: ResourceRecord)
    requires Visit(g, names, ids) && Lists(g, names, ids, r)
    ensures r.ownerNames == names && WellPlaced(r) && r.owner == ids[|ids| - 1]
  {
    hide ServicePath, ResourcePath, ListedAs;
  }

  /** No resource has more than 32 services above it, and no expanded service lies deeper. */
  lemma DiscoveryDepth(g: ServiceGraph, root: ServiceId, r: ResourceRecord)
    requires ClosedGraph(g) && root in g && r in Records(g, [], [root])
    ensures WellPlaced(r)
  {
    DiscoveryIsExact(g, root, r);
    var names, ids :| Chain(g, root, names, ids) && Lists(g, names, ids, r);
    ListedNames(g, names, ids, r);
  }

  // ----------------------------------------------------- inventories as trees

  ghost function Paths(records: seq<ResourceRecord>): seq<Bytes>
  {
    seq(|records|, i requires 0 <= i < |records| => records[i].path)
  }

  /** The keys are the recorded paths; the first record of a path stays; repeats are duplicates. */
  lemma {:induction false} AddedAllMeans(records: seq<ResourceRecord>)
    ensures var s := AddedAll(InventoryState(map[], []), records);
            && s.resources.Keys == Elements(Paths(records))
            && (forall p :: p in s.resources ==> s.resources[p] in records && s.resources[p].path == p)
            && (s.duplicates == [] <==> NoDuplicates(Paths(records)))
  {
    if records != [] {
      var n := |records| - 1;
      AddedAllMeans(records[..n]);
      var paths, last := Paths(records[..n]), records[n].path;
      assert records == records[..n] + [records[n]];
      assert Paths(records) == paths + [last];
      NoDuplicatesGrow(paths, last);
    }
  }

  lemma {:induction false} FirstRecordStays(records: seq<ResourceRecord>, i: nat)
    requires i < |records| && records[i].path !in Paths(records[..i])
    ensures var s := AddedAll(InventoryState(map[], []), records);
            records[i].path in s.resources && s.resources[records[i].path] == records[i]
  {
    var n := |records| - 1;
    AddedAllMeans(records[..n]);
    if i < n {
      assert records[..n][..i] == records[..i];
      FirstRecordStays(records[..n], i);
    }
  }

  /** What later stages rely on: paths spell their owners, and every owner is in the inventory. */
  ghost predicate InventoryTree(resources: map<Bytes, ResourceRecord>)
  {
    forall p :: p in resources ==>
      && resources[p].path == p
      && WellPlaced(resources[p])
      && forall k :: 0 < k <= |resources[p].ownerNames| ==> ServicePath(resources[p].ownerNames[..k]) in resources
  }

  lemma OwnersAreKeys(g: ServiceGraph, root: ServiceId, resources: map<Bytes, ResourceRecord>, r: ResourceRecord)
    requires ClosedGraph(g) && root in g && r in Records(g, [], [root])
    requires resources.Keys == Elements(Paths(Records(g, [], [root])))
    ensures forall k :: 0 < k <= |r.ownerNames| ==> ServicePath(r.ownerNames[..k]) in resources
  {
    hide ServicePath, Records;
    var records := Records(g, [], [root]);
    forall k | 0 < k <= |r.ownerNames| ensures ServicePath(r.ownerNames[..k]) in resources {
      AncestorsAreRecorded(g, root, r, k - 1);
      var a :| a in records && IsServiceRecord(a, r.ownerNames[..k]);
      assert a.path == ServicePath(r.ownerNames[..k]);
      var i :| 0 <= i < |records| && records[i] == a;
      assert Paths(records)[i] in Elements(Paths(records));
    }
  }

  lemma DiscoveredTree(g: ServiceGraph, root: ServiceId)
    requires ClosedGraph(g) && root in g
    ensures InventoryTree(Discovered(g, root).resources)
  {
    var records := Records(g, [], [root]);
    var resources := AddedAll(InventoryState(map[], []), records).resources;
    AddedAllMeans(records);
    forall p | p in resources
      ensures WellPlaced(resources[p])
      ensures forall k :: 0 < k <= |resources[p].ownerNames| ==> ServicePath(resources[p].ownerNames[..k]) in resources
    {
      DiscoveryDepth(g, root, resources[p]);
      OwnersAreKeys(g, root, resources, resources[p]);
    }
  }

  /** The services above a resource are on record under exactly its owner names. */
  ghost predicate OwnersRecorded(resources: map<Bytes, ResourceRecord>)
  {
    forall p, k :: p in resources && 0 < k <= |resources[p].ownerNames| ==>
      && ServicePath(resources[p].ownerNames[..k]) in resources
      && IsServiceRecord(resources[ServicePath(resources[p].ownerNames[..k])], resources[p].ownerNames[..k])
  }

  /** A provider called "this" is never a resource. */
  ghost predicate NoneCalledThis(resources: map<Bytes, ResourceRecord>)
  {
    forall p :: p in resources && resources[p].kind == Service ==> resources[p].name != "this"
  }

  lemma RecordOfPath(records: seq<ResourceRecord>, a: ResourceRecord)
    requires NoDuplicates(Paths(records)) && a in records
    ensures var resources := AddedAll(InventoryState(map[], []), records).resources;
            a.path in resources && resources[a.path] == a
  {
    hide AddedAll;
    AddedAllMeans(records);
    var resources := AddedAll(InventoryState(map[], []), records).resources;
    var i :| 0 <= i < |records| && records[i] == a;
    assert Paths(records)[i] in Elements(Paths(records));
    var j :| 0 <= j < |records| && records[j] == resources[a.path];
    assert Paths(records)[j] == Paths(records)[i];
  }

  /** Without duplicates, the inventory holds every record that is listed, and no other. */
  lemma InventoryIsExact(g: ServiceGraph, root: ServiceId, r: ResourceRecord)
    requires ClosedGraph(g) && root in g && Discovered(g, root).duplicates == []
    ensures r in Discovered(g, root).resources.Values <==>
            exists names, ids :: Chain(g, root, names, ids) && Lists(g, names, ids, r)
  {
    hide Records, AddedAll, Lists, Chain;
    var records := Records(g, [], [root]);
    AddedAllMeans(records);
    DiscoveryIsExact(g, root, r);
    if r in records {
      RecordOfPath(records, r);
    }
  }

  /** Without duplicates, a discovered inventory names every owner exactly. */
  lemma DiscoveredNames(g: ServiceGraph, root: ServiceId)
    requires ClosedGraph(g) && root in g
    ensures NoneCalledThis(Discovered(g, root).resources)
    ensures Discovered(g, root).duplicates == [] ==> OwnersRecorded(Discovered(g, root).resources)
  {
    hide ServicePath, ResourcePath, Records, AddedAll, WellPlaced;
    var records := Records(g, [], [root]);
    var resources := AddedAll(InventoryState(map[], []), records).resources;
    AddedAllMeans(records);
    forall p | p in resources && resources[p].kind == Service ensures resources[p].name != "this" {
      NotCalledThis(g, root, resources[p]);
    }
    if Discovered(g, root).duplicates == [] {
      forall p, k | p in resources && 0 < k <= |resources[p].ownerNames|
        ensures var names := resources[p].ownerNames[..k];
                ServicePath(names) in resources && IsServiceRecord(resources[ServicePath(names)], names)
      {
        var names := resources[p].ownerNames[..k];
        AncestorsAreRecorded(g, root, resources[p], k - 1);
        var a :| a in records && IsServiceRecord(a, names);
        RecordOfPath(records, a);
      }
    }
  }

  lemma NotCalledThis(g: ServiceGraph, root: ServiceId, r: ResourceRecord)
    requires ClosedGraph(g) && root in g && r in Records(g, [], [root]) && r.kind == Service
    ensures r.name != "this"
  {
    hide ServicePath, ResourcePath, Records, WellPlaced;
    DiscoveryIsExact(g, root, r);
    var names, ids :| Chain(g, root, names, ids) && Lists(g, names, ids, r);
  }

  /** Resources of one owner path belong to one service. */
  ghost predicate OneOwnerPerPath(resources: map<Bytes, ResourceRecord>)
  {
    forall p, q :: p in resources && q in resources && resources[p].ownerPath == resources[q].ownerPath ==>
      resources[p].owner == resources[q].owner
  }

  lemma SameServicePathSameService(g: ServiceGraph, root: ServiceId, names: seq<Bytes>, ids: seq<ServiceId>,
                                   names': seq<Bytes>, ids': seq<ServiceId>)
    requires ClosedGraph(g) && root in g && NoDuplicates(Paths(Records(g, [], [root])))
    requires Chain(g, root, names, ids) && Chain(g, root, names', ids') && ServicePath(names) == ServicePath(names')
    ensures ids[|ids| - 1] == ids'[|ids'| - 1]
  {
    hide ServicePath, ResourcePath, WellPlaced, Records;
    var records := Records(g, [], [root]);
    if names != [] && names' != [] {
      TakeAll(names);
      TakeAll(names');
      ChainIsRecorded(g, root, names, ids, |names| - 1);
      ChainIsRecorded(g, root, names', ids', |names'| - 1);
      var a :| a in records && IsServiceRecord(a, names) && a.service == Some(ids[|names|]);
      var b :| b in records && IsServiceRecord(b, names') && b.service == Some(ids'[|names'|]);
      var i, j :| 0 <= i < |records| && records[i] == a && 0 <= j < |records| && records[j] == b;
      assert Paths(records)[i] == Paths(records)[j];
    } else {
      RootPathIsEmpty(names);
      RootPathIsEmpty(names');
    }
  }

  lemma RootPathIsEmpty(names: seq<Bytes>)
    ensures ServicePath(names) == [] <==> names == []
  {
    if names != [] { ServicePathSpelled(names); }
  }

  /** Without duplicates, an owner path names one service. */
  lemma OneOwnerWithoutDuplicates(g: ServiceGraph, root: ServiceId)
    requires ClosedGraph(g) && root in g
    requires Discovered(g, root).duplicates == []
    ensures OneOwnerPerPath(Discovered(g, root).resources)
  {
    hide ServicePath, ResourcePath, Records, AddedAll;
    var records := Records(g, [], [root]);
    var resources := AddedAll(InventoryState(map[], []), records).resources;
    AddedAllMeans(records);
    forall p, q | p in resources && q in resources && resources[p].ownerPath == resources[q].ownerPath
      ensures resources[p].owner == resources[q].owner
    {
      var r, s := resources[p], resources[q];
      DiscoveryIsExact(g, root, r);
      var names, ids :| Chain(g, root, names, ids) && Lists(g, names, ids, r);
      ListedNames(g, names, ids, r);
      DiscoveryIsExact(g, root, s);
      var names', ids' :| Chain(g, root, names', ids') && Lists(g, names', ids', s);
      ListedNames(g, names', ids', s);
      SameServicePathSameService(g, root, names, ids, names', ids');
    }
  }

  /** Two records share a path: same category, and names that differ at most as "" and "\0" do. */
  ghost predicate SamePlace(a: ResourceRecord, b: ResourceRecord)
  {
    && a.kind == b.kind
    && CanonicalAll(a.ownerNames) == CanonicalAll(b.ownerNames)
    && Canonical(a.name) == Canonical(b.name)
  }

  /** Discovery reports a fatal duplicate exactly when two discovered resources share a place. */
  lemma DuplicatesAreSharedPlaces(g: ServiceGraph, root: ServiceId)
    requires ClosedGraph(g) && root in g
    ensures var records := Records(g, [], [root]);
            Discovered(g, root).duplicates == [] <==>
            forall i, j :: 0 <= i < j < |records| ==> !SamePlace(records[i], records[j])
  {
    var records := Records(g, [], [root]);
    AddedAllMeans(records);
    forall i, j | 0 <= i < j < |records|
      ensures Paths(records)[i] == Paths(records)[j] <==> SamePlace(records[i], records[j])
    {
      var a, b := records[i], records[j];
      DiscoveryDepth(g, root, a);
      DiscoveryDepth(g, root, b);
      ResourcePathCollision(a.ownerNames, a.kind, a.name, b.ownerNames, b.kind, b.name);
    }
  }
}
