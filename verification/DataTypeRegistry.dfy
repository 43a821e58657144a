/**
  The process-wide datatype registry (src/datatype_registry.cpp): registration with NodeId
  collision checks, and the single freeze that fixes the provider order.
 */
module DataTypeRegistry {
  import opened Wrappers
  import opened Ordering
  import opened ProviderOrder

  datatype LogicalDataTypeId = LogicalDataTypeId(namespaceUri: Bytes, typeNodeId: Bytes, encodingNodeId: Bytes)

  datatype DataTypeKind = Structure | Enumeration | UnionType

  /** A definition; of its factory only the presence matters to the registry. */
  datatype Definition = Definition(
    name: Bytes, id: LogicalDataTypeId, kind: DataTypeKind, fingerprint: Bytes, hasFactory: bool)

  datatype Provider = Provider(
    name: Bytes, namespaceUri: Bytes, dependencies: seq<Bytes>, dataTypes: seq<Definition>)

  datatype RegistryError =
    | InvalidProvider
    | InvalidDependency
    | DuplicateDependency
    | InvalidDefinition
    | NamespaceMismatch
    | NodeIdCollision
    | LateRegistration
    | ConflictingProvider

  type NodeKey = (Bytes, Bytes)
  type Providers = map<Bytes, Provider>

  predicate ValidText(text: Bytes): (valid: bool)
    ensures valid <==> |text| > 0 && forall i :: 0 <= i < |text| ==> text[i] as int != 0
  {
    text != [] && '\0' !in text
  }

  // ------------------------------------------------------ sorted dependencies

  /** Where std::sort puts one more element, duplicates kept. */
  function InsertSorted(s: seq<Bytes>, x: Bytes): (r: seq<Bytes>)
    ensures multiset(r) == multiset(s) + multiset{x}
  {
    if s == [] then [x]
    else if Less(s[0], x) then
      assert s == [s[0]] + s[1..];
      [s[0]] + InsertSorted(s[1..], x)
    else [x] + s
  }

  function Sorted(s: seq<Bytes>): (r: seq<Bytes>)
    ensures multiset(r) == multiset(s)
  {
    if s == [] then []
    else
      assert s == s[..|s| - 1] + [s[|s| - 1]];
      InsertSorted(Sorted(s[..|s| - 1]), s[|s| - 1])
  }

  ghost predicate NonDecreasing(s: seq<Bytes>)
  {
    forall i, j :: 0 <= i < j < |s| ==> s[i] == s[j] || Less(s[i], s[j])
  }

  lemma {:induction false} InsertKeepsOrder(s: seq<Bytes>, x: Bytes)
    requires NonDecreasing(s)
    ensures NonDecreasing(InsertSorted(s, x))
  {
    hide Less;
    if s != [] {
      LessConnected(s[0], x);
      if Less(s[0], x) {
        InsertKeepsOrder(s[1..], x);
        var r := InsertSorted(s[1..], x);
        forall j | 0 <= j < |r| ensures s[0] == r[j] || Less(s[0], r[j]) {
          assert r[j] in multiset(r);
          if r[j] != x {
            assert r[j] in s[1..];
          }
        }
      } else {
        forall j | 0 <= j < |s| ensures x == s[j] || Less(x, s[j]) {
          if j > 0 && s[0] != s[j] && x != s[0] { LessTransitive(x, s[0], s[j]); }
        }
      }
    }
  }

  lemma {:induction false} SortedIsNonDecreasing(s: seq<Bytes>)
    ensures NonDecreasing(Sorted(s))
  {
    if s != [] {
      SortedIsNonDecreasing(s[..|s| - 1]);
      InsertKeepsOrder(Sorted(s[..|s| - 1]), s[|s| - 1]);
    }
  }

  /** Sorting forgets the order in which dependencies were listed, and nothing else. */
  lemma SortedForgetsOrder(a: seq<Bytes>, b: seq<Bytes>)
    ensures Sorted(a) == Sorted(b) <==> multiset(a) == multiset(b)
  {
    if multiset(a) == multiset(b) {
      SortedIsNonDecreasing(a);
      SortedIsNonDecreasing(b);
      NonDecreasingUnique(Sorted(a), Sorted(b));
    }
  }

  lemma {:induction false} NonDecreasingUnique(a: seq<Bytes>, b: seq<Bytes>)
    requires NonDecreasing(a) && NonDecreasing(b) && multiset(a) == multiset(b)
    ensures a == b
  {
    assert |a| == |multiset(a)| == |multiset(b)| == |b|;
    if a != [] {
      HeadIsLeast(a, b);
      HeadIsLeast(b, a);
      if a[0] != b[0] { LessTransitive(a[0], b[0], a[0]); LessIrreflexive(a[0]); }
      assert a == [a[0]] + a[1..] && b == [b[0]] + b[1..];
      assert multiset(a[1..]) == multiset(a) - multiset{a[0]};
      assert multiset(b[1..]) == multiset(b) - multiset{b[0]};
      NonDecreasingUnique(a[1..], b[1..]);
    }
  }

  lemma HeadIsLeast(a: seq<Bytes>, b: seq<Bytes>)
    requires NonDecreasing(a) && a != [] && b != [] && multiset(a) == multiset(b)
    ensures a[0] == b[0] || Less(a[0], b[0])
  {
    assert b[0] in multiset(b);
    assert b[0] in a;
    var i :| 0 <= i < |a| && a[i] == b[0];
  }

  /** std::adjacent_find on the sorted list finds a duplicate exactly when there is one. */
  method HasAdjacentDuplicate(s: seq<Bytes>) returns (found: bool)
    requires NonDecreasing(s)
    ensures found <==> !NoDuplicates(s)
  {
    var i := 1;
    while i < |s|
      invariant forall k :: 0 < k < i && k < |s| ==> s[k - 1] != s[k]
    {
      if s[i - 1] == s[i] {
        return true;
      }
      i := i + 1;
    }
    forall i, j | 0 <= i < j < |s| ensures s[i] != s[j] {
      if s[i] == s[j] {
        assert s[j - 1] != s[j] && Less(s[j - 1], s[j]);
        if i < j - 1 {
          assert Less(s[i], s[j]) by {
            if s[i] != s[j - 1] { LessTransitive(s[i], s[j - 1], s[j]); }
          }
        }
        LessIrreflexive(s[i]);
      }
    }
    return false;
  }

  // ------------------------------------------------------------------ NodeIds

  function TypeKey(d: Definition): NodeKey
  {
    (d.id.namespaceUri, d.id.typeNodeId)
  }

  function EncodingKey(d: Definition): NodeKey
  {
    (d.id.namespaceUri, d.id.encodingNodeId)
  }

  /** All NodeIds that a list of definitions claims: type and encoding of each. */
  ghost function Claims(definitions: seq<Definition>): seq<NodeKey>
  {
    if definitions == [] then []
    else
      var last := definitions[|definitions| - 1];
      Claims(definitions[..|definitions| - 1]) + [TypeKey(last), EncodingKey(last)]
  }

  /** Two claims a definition, in order: its type and its encoding, in its namespace. */
  lemma {:induction false} ClaimsOfDefinition(definitions: seq<Definition>, i: nat)
    requires i < |definitions|
    ensures |Claims(definitions)| == 2 * |definitions|
    ensures var id := definitions[i].id;
            Claims(definitions)[2 * i..2 * i + 2] ==
            [(id.namespaceUri, id.typeNodeId), (id.namespaceUri, id.encodingNodeId)]
  {
    var n := |definitions| - 1;
    if n > 0 {
      ClaimsOfDefinition(definitions[..n], if i < n then i else 0);
    }
  }

  ghost function OccupiedBy(names: set<Bytes>, providers: Providers): set<NodeKey>
    requires names <= providers.Keys
  {
    set n, key | n in names && key in Elements(Claims(providers[n].dataTypes)) :: key
  }

  ghost function Occupied(providers: Providers): set<NodeKey>
  {
    OccupiedBy(providers.Keys, providers)
  }

  /** No NodeId is claimed twice, within a provider or across providers. */
  ghost predicate DistinctClaims(providers: Providers)
  {
    && (forall n {:trigger Claims(providers[n].dataTypes)} ::
          n in providers ==> NoDuplicates(Claims(providers[n].dataTypes)))
    && (forall n, m {:trigger Claims(providers[n].dataTypes), Claims(providers[m].dataTypes)} ::
          n in providers && m in providers && n != m ==>
          Elements(Claims(providers[n].dataTypes)) !! Elements(Claims(providers[m].dataTypes)))
  }

  predicate ValidDefinition(d: Definition): (valid: bool)
    ensures valid <==>
            && d.hasFactory
            && forall t :: t in {d.name, d.fingerprint, d.id.namespaceUri, d.id.typeNodeId, d.id.encodingNodeId} ==>
                 ValidText(t)
  {
    && ValidText(d.name) && ValidText(d.fingerprint)
    && ValidText(d.id.namespaceUri) && ValidText(d.id.typeNodeId) && ValidText(d.id.encodingNodeId)
    && d.hasFactory
  }

  /** Everything a new provider must satisfy next to those already registered. */
  ghost predicate Acceptable(providers: Providers, p: Provider)
  {
    && ValidText(p.name) && ValidText(p.namespaceUri) && p.dataTypes != []
    && (forall d :: d in p.dependencies ==> ValidText(d) && d != p.name)
    && NoDuplicates(p.dependencies)
    && (forall d :: d in p.dataTypes ==> ValidDefinition(d) && d.id.namespaceUri == p.namespaceUri)
    && NoDuplicates(Claims(p.dataTypes))
    && Elements(Claims(p.dataTypes)) !! Occupied(providers)
  }

  lemma ClaimsGrow(definitions: seq<Definition>, i: nat)
    requires i < |definitions|
    ensures Claims(definitions[..i + 1]) ==
            Claims(definitions[..i]) + [TypeKey(definitions[i]), EncodingKey(definitions[i])]
  {
    assert definitions[..i + 1][..i] == definitions[..i];
  }

  lemma {:induction false} ClaimsPrefix(definitions: seq<Definition>, i: nat)
    requires i <= |definitions|
    ensures Claims(definitions[..i]) <= Claims(definitions)
  {
    if i == |definitions| {
      TakeAll(definitions);
    } else {
      var n := |definitions| - 1;
      ClaimsPrefix(definitions[..n], i);
      assert definitions[..n][..i] == definitions[..i];
    }
  }

  lemma PairClashes(claims: seq<NodeKey>, a: NodeKey, b: NodeKey)
    ensures NoDuplicates(claims + [a, b]) <==>
            NoDuplicates(claims) && a != b && a !in Elements(claims) && b !in Elements(claims)
  {
    var s := claims + [a, b];
    if NoDuplicates(s) {
      assert s[|claims|] == a && s[|claims| + 1] == b;
      forall i | 0 <= i < |claims| ensures claims[i] != a && claims[i] != b {
        assert s[i] == claims[i];
      }
      forall i, j | 0 <= i < j < |claims| ensures claims[i] != claims[j] {
        assert s[i] == claims[i] && s[j] == claims[j];
      }
    }
  }

  // ------------------------------------------------------------ state machine

  datatype RegistryState = RegistryState(providers: Providers, order: seq<Bytes>, frozen: bool)

  ghost function DependencyGraph(providers: Providers): Graph
  {
    map n | n in providers :: providers[n].dependencies
  }

  ghost predicate WellKept(providers: Providers)
  {
    forall n :: n in providers ==>
      && providers[n].name == n
      && Sorted(providers[n].dependencies) == providers[n].dependencies
      && NoDuplicates(providers[n].dependencies)
      && OwnNamespace(providers[n])
  }

  ghost predicate OwnNamespace(p: Provider)
  {
    forall d :: d in p.dataTypes ==> d.id.namespaceUri == p.namespaceUri
  }

  ghost predicate OrderIsFixed(s: RegistryState)
  {
    && s.order == Schedule(DependencyGraph(s.providers))
    && DependencyOrder(DependencyGraph(s.providers), s.order)
  }

  /** What every reachable registry satisfies. */
  ghost predicate Invariant(s: RegistryState)
  {
    && WellKept(s.providers)
    && DistinctClaims(s.providers)
    && (s.frozen ==> OrderIsFixed(s))
  }

  function Normalized(p: Provider): Provider
  {
    p.(dependencies := Sorted(p.dependencies))
  }

  ghost predicate Accepts(s: RegistryState, p: Provider)
  {
    || (p.name in s.providers && s.providers[p.name] == Normalized(p))
    || (!s.frozen && p.name !in s.providers && Acceptable(s.providers, Normalized(p)))
  }

  ghost function AfterRegister(s: RegistryState, p: Provider): RegistryState
  {
    if Accepts(s, p) && p.name !in s.providers
    then s.(providers := s.providers[p.name := Normalized(p)])
    else s
  }

  ghost predicate CanFreeze(s: RegistryState)
  {
    AllPresent(DependencyGraph(s.providers)) && Acyclic(DependencyGraph(s.providers))
  }

  ghost function AfterFreeze(s: RegistryState): RegistryState
  {
    if !s.frozen && CanFreeze(s)
    then s.(order := Schedule(DependencyGraph(s.providers)), frozen := true)
    else s
  }

  class Registry {
    var providers: Providers
    var providerOrder: seq<Bytes>
    var frozen: bool

    ghost function State(): RegistryState
      reads this
    {
      RegistryState(providers, providerOrder, frozen)
    }

    ghost predicate Valid()
      reads this
    {
      Invariant(State())
    }

    constructor ()
      ensures Valid() && State() == RegistryState(map[], [], false)
    {
      providers, providerOrder, frozen := map[], [], false;
    }

    method ValidateAndNormalize(provider: Provider) returns (r: Result<Provider, RegistryError>)
      ensures r.Ok? <==> Acceptable(providers, Normalized(provider))
      ensures r.Ok? ==> r.value == Normalized(provider)
      ensures r.Err? ==> !r.error.LateRegistration? && !r.error.ConflictingProvider?
    {
      if !ValidText(provider.name) || !ValidText(provider.namespaceUri) || provider.dataTypes == [] {
        return Err(InvalidProvider);
      }
      for i := 0 to |provider.dependencies|
        invariant forall k :: 0 <= k < i ==>
                    ValidText(provider.dependencies[k]) && provider.dependencies[k] != provider.name
      {
        if !ValidText(provider.dependencies[i]) || provider.dependencies[i] == provider.name {
          assert provider.dependencies[i] in multiset(provider.dependencies);
          assert provider.dependencies[i] in Sorted(provider.dependencies);
          return Err(InvalidDependency);
        }
      }
      var normalized := Normalized(provider);
      forall d | d in normalized.dependencies ensures ValidText(d) && d != provider.name {
        assert d in multiset(normalized.dependencies);
        assert d in provider.dependencies;
      }
      SortedIsNonDecreasing(provider.dependencies);
      var duplicate := HasAdjacentDuplicate(normalized.dependencies);
      if duplicate {
        return Err(DuplicateDependency);
      }
      var occupied := OccupiedIds();
      var claimed := ClaimDefinitions(normalized, occupied);
      if claimed.Some? {
        return Err(claimed.value);
      }
      return Ok(normalized);
    }

    method OccupiedIds() returns (occupied: set<NodeKey>)
      ensures occupied == Occupied(providers)
    {
      occupied := {};
      var rest := providers.Keys;
      assert OccupiedBy({}, providers) == {};
      while rest != {}
        invariant rest <= providers.Keys
        invariant occupied == OccupiedBy(providers.Keys - rest, providers)
        decreases rest
      {
        var name :| name in rest;
        assert providers.Keys - (rest - {name}) == (providers.Keys - rest) + {name};
        var definitions := providers[name].dataTypes;
        ghost var before := occupied;
        for i := 0 to |definitions|
          invariant occupied == before + Elements(Claims(definitions[..i]))
        {
          ClaimsGrow(definitions, i);
          occupied := occupied + {TypeKey(definitions[i]), EncodingKey(definitions[i])};
        }
        TakeAll(definitions);
        rest := rest - {name};
        assert OccupiedBy(providers.Keys - rest, providers) == before + Elements(Claims(definitions));
      }
    }

    /** The collision loop: every definition claims two NodeIds that nobody holds yet. */
    method ClaimDefinitions(provider: Provider, taken: set<NodeKey>) returns (error: Option<RegistryError>)
      ensures error.None? <==>
              && (forall d :: d in provider.dataTypes ==>
                    ValidDefinition(d) && d.id.namespaceUri == provider.namespaceUri)
              && NoDuplicates(Claims(provider.dataTypes))
              && Elements(Claims(provider.dataTypes)) !! taken
      ensures error.Some? ==>
              error.value.InvalidDefinition? || error.value.NamespaceMismatch? || error.value.NodeIdCollision?
    {
      var definitions := provider.dataTypes;
      var occupied := taken;
      for i := 0 to |definitions|
        invariant forall d :: d in definitions[..i] ==>
                    ValidDefinition(d) && d.id.namespaceUri == provider.namespaceUri
        invariant NoDuplicates(Claims(definitions[..i]))
        invariant Elements(Claims(definitions[..i])) !! taken
        invariant occupied == taken + Elements(Claims(definitions[..i]))
      {
        var definition := definitions[i];
        assert definition in definitions;
        if !ValidDefinition(definition) {
          return Some(InvalidDefinition);
        }
        if definition.id.namespaceUri != provider.namespaceUri {
          return Some(NamespaceMismatch);
        }
        var typeId, encodingId := TypeKey(definition), EncodingKey(definition);
        ClaimsGrow(definitions, i);
        PairClashes(Claims(definitions[..i]), typeId, encodingId);
        TakeMore(definitions, i);
        if typeId == encodingId || typeId in occupied || encodingId in occupied {
          ClashRejects(definitions, i, taken);
          return Some(NodeIdCollision);
        }
        occupied := occupied + {typeId, encodingId};
        assert Elements(Claims(definitions[..i + 1])) ==
               Elements(Claims(definitions[..i])) + {typeId, encodingId};
      }
      TakeAll(definitions);
      return None;
    }

    /** Returns no error exactly for providers that are already there or may be added. */
    method Register(provider: Provider) returns (error: Option<RegistryError>)
      requires Valid()
      modifies this
      ensures Valid()
      ensures State() == AfterRegister(old(State()), provider)
      ensures error.None? <==> Accepts(old(State()), provider)
      ensures error == Some(LateRegistration) <==> old(frozen) && !Accepts(old(State()), provider)
      ensures error == Some(ConflictingProvider) <==>
              !old(frozen) && provider.name in old(providers) && !Accepts(old(State()), provider)
    {
      var normalized := Normalized(provider);
      SortedIsIdempotent(provider.dependencies);
      if provider.name in providers && providers[provider.name] == normalized {
        return None;
      }
      if frozen {
        return Some(LateRegistration);
      }
      if provider.name in providers {
        return Some(ConflictingProvider);
      }
      var validated := ValidateAndNormalize(normalized);
      if validated.Err? {
        return Some(validated.error);
      }
      RegisterKeepsInvariant(State(), provider);
      providers := providers[provider.name := validated.value];
      return None;
    }

    method Freeze() returns (order: Option<seq<Bytes>>)
      requires Valid()
      modifies this
      ensures Valid()
      ensures State() == AfterFreeze(old(State()))
      ensures order.Some? <==> frozen
      ensures order.Some? ==> order.value == providerOrder
    {
      if frozen {
        return Some(providerOrder);
      }
      var graph := map n | n in providers :: providers[n].dependencies;
      assert graph == DependencyGraph(providers);
      var computed := ComputeProviderOrder(graph);
      if computed.Err? {
        return None;
      }
      providerOrder := computed.value;
      frozen := true;
      return Some(providerOrder);
    }

    /** The providers in frozen order: what an endpoint binds. */
    method FrozenProviders() returns (ordered: Option<seq<Provider>>)
      requires Valid()
      modifies this
      ensures Valid() && State() == AfterFreeze(old(State()))
      ensures ordered.Some? <==> frozen
      ensures ordered.Some? ==> ordered.value == OrderedProviders(State())
    {
      var order := Freeze();
      if order.None? {
        return None;
      }
      OrderNamesProviders(State());
      var result := ProvidersNamed(order.value);
      assert result == OrderedProviders(State());
      return Some(result);
    }

    method ProvidersNamed(names: seq<Bytes>) returns (result: seq<Provider>)
      requires forall i :: 0 <= i < |names| ==> names[i] in providers
      ensures |result| == |names|
      ensures forall i :: 0 <= i < |names| ==> result[i] == providers[names[i]]
    {
      result := [];
      for i := 0 to |names|
        invariant |result| == i
        invariant forall k :: 0 <= k < i ==> result[k] == providers[names[k]]
      {
        result := result + [providers[names[i]]];
      }
    }
  }

  lemma ClashRejects(definitions: seq<Definition>, i: nat, taken: set<NodeKey>)
    requires i < |definitions|
    requires TypeKey(definitions[i]) == EncodingKey(definitions[i])
             || TypeKey(definitions[i]) in taken + Elements(Claims(definitions[..i]))
             || EncodingKey(definitions[i]) in taken + Elements(Claims(definitions[..i]))
    ensures !(NoDuplicates(Claims(definitions)) && Elements(Claims(definitions)) !! taken)
  {
    var a, b := TypeKey(definitions[i]), EncodingKey(definitions[i]);
    ClaimsGrow(definitions, i);
    ClaimsPrefix(definitions, i + 1);
    var prefix, all := Claims(definitions[..i + 1]), Claims(definitions);
    PairClashes(Claims(definitions[..i]), a, b);
    assert prefix[|prefix| - 2] == a && prefix[|prefix| - 1] == b;
    assert a in Elements(all) && b in Elements(all) by {
      assert all[|prefix| - 2] == a && all[|prefix| - 1] == b;
    }
    if NoDuplicates(all) {
      assert NoDuplicates(prefix) by {
        forall j, k | 0 <= j < k < |prefix| ensures prefix[j] != prefix[k] {
          assert all[j] == prefix[j] && all[k] == prefix[k];
        }
      }
    }
  }

  lemma SortedIsIdempotent(s: seq<Bytes>)
    ensures Sorted(Sorted(s)) == Sorted(s)
  {
    SortedForgetsOrder(Sorted(s), s);
  }

  lemma NewProviderKeepsClaims(providers: Providers, n: Provider)
    requires DistinctClaims(providers) && n.name !in providers
    requires NoDuplicates(Claims(n.dataTypes)) && Elements(Claims(n.dataTypes)) !! Occupied(providers)
    ensures DistinctClaims(providers[n.name := n])
  {
    forall m | m in providers
      ensures Elements(Claims(providers[m].dataTypes)) !! Elements(Claims(n.dataTypes))
    {
      assert Elements(Claims(providers[m].dataTypes)) <= Occupied(providers);
    }
  }

  lemma RegisterKeepsInvariant(s: RegistryState, p: Provider)
    requires Invariant(s)
    ensures Invariant(AfterRegister(s, p))
  {
    if Accepts(s, p) && p.name !in s.providers {
      SortedIsIdempotent(p.dependencies);
      NewProviderKeepsClaims(s.providers, Normalized(p));
    }
  }

  lemma OrderNamesProviders(s: RegistryState)
    requires Invariant(s) && s.frozen
    ensures forall i :: 0 <= i < |s.order| ==> s.order[i] in s.providers
  {
    forall i | 0 <= i < |s.order| ensures s.order[i] in s.providers {
      assert s.order[i] in Elements(s.order);
    }
  }

  ghost function OrderedProviders(s: RegistryState): (r: seq<Provider>)
    requires Invariant(s) && s.frozen
    ensures |r| == |s.order|
    ensures forall i :: 0 <= i < |r| ==> s.order[i] in s.providers && r[i] == s.providers[s.order[i]]
  {
    OrderNamesProviders(s);
    seq(|s.order|, i requires 0 <= i < |s.order| => s.providers[s.order[i]])
  }

  // ------------------------------------------------------------- whole runs

  datatype Command = RegisterCommand(provider: Provider) | FreezeCommand

  ghost function After(s: RegistryState, c: Command): RegistryState
  {
    match c
    case RegisterCommand(p) => AfterRegister(s, p)
    case FreezeCommand => AfterFreeze(s)
  }

  ghost function Run(s: RegistryState, commands: seq<Command>): RegistryState
    decreases |commands|
  {
    if commands == [] then s else Run(After(s, commands[0]), commands[1..])
  }

  lemma FreezeKeepsInvariant(s: RegistryState)
    requires Invariant(s)
    ensures Invariant(AfterFreeze(s))
  {
    var g := DependencyGraph(s.providers);
    if CanFreeze(s) {
      ScheduleCompletes(g);
    }
  }

  ghost predicate Keeps(before: Providers, after: Providers)
  {
    forall n :: n in before ==> n in after && after[n] == before[n]
  }

  lemma StepKeepsInvariant(s: RegistryState, c: Command)
    requires Invariant(s)
    ensures Invariant(After(s, c))
    ensures s.frozen ==> After(s, c) == s
    ensures Keeps(s.providers, After(s, c).providers)
  {
    hide Invariant, Acceptable, Normalized, CanFreeze, Schedule;
    if c.RegisterCommand? {
      RegisterKeepsInvariant(s, c.provider);
    } else {
      FreezeKeepsInvariant(s);
    }
  }

  /**
    Over any sequence of calls NodeIds stay distinct, registered providers never change, and a
    frozen registry stays as it is.
   */
  lemma {:induction false} RunsKeepInvariant(s: RegistryState, commands: seq<Command>)
    requires Invariant(s)
    ensures Invariant(Run(s, commands))
    ensures s.frozen ==> Run(s, commands) == s
    ensures Keeps(s.providers, Run(s, commands).providers)
    decreases |commands|
  {
    if commands != [] {
      StepKeepsInvariant(s, commands[0]);
      RunsKeepInvariant(After(s, commands[0]), commands[1..]);
    }
  }

  /**
    What is accepted is registered as given, up to the order of its dependencies, and accepted again
    without effect; everything else stays, and what is refused changes nothing.
   */
  lemma RegisteredAsGiven(s: RegistryState, p: Provider)
    requires Invariant(s)
    ensures var t := AfterRegister(s, p);
            && t.providers - {p.name} == s.providers - {p.name} && t.order == s.order && t.frozen == s.frozen
            && (Accepts(s, p) <==>
                && p.name in t.providers && t.providers[p.name].(dependencies := p.dependencies) == p
                && multiset(t.providers[p.name].dependencies) == multiset(p.dependencies))
            && (Accepts(s, p) ==> Accepts(t, p) && AfterRegister(t, p) == t)
            && (!Accepts(s, p) ==> t == s)
  {
    SortedForgetsOrder(Sorted(p.dependencies), p.dependencies);
    if p.name in s.providers {
      SortedForgetsOrder(s.providers[p.name].dependencies, p.dependencies);
    }
  }

  /** After the freeze exactly the providers already registered are accepted again. */
  lemma FrozenAcceptsOnlyIdentical(s: RegistryState, p: Provider)
    requires Invariant(s) && s.frozen
    ensures Accepts(s, p) <==>
            p.name in s.providers
            && s.providers[p.name].(dependencies := []) == p.(dependencies := [])
            && multiset(s.providers[p.name].dependencies) == multiset(p.dependencies)
  {
    if p.name in s.providers {
      SortedForgetsOrder(s.providers[p.name].dependencies, p.dependencies);
    }
  }
}
