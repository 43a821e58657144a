/**
  The publication plan (buildPublicationPlan in src/object_model.cpp): which resources of an
  inventory are published. The loops are proved to compute the least set that holds everything
  selected, every service above it and every available mandatory operation.
 */
module PublicationPlan {
  import opened Wrappers
  import opened Ordering
  import opened NodeId
  import opened PublicationSelector
  import opened ResourcePaths
  import opened ServiceDiscovery

  type Resources = map<Bytes, ResourceRecord>

  datatype Mode = Full | Selected

  /** What a publication complains about; the wording of the original is reduced to these kinds. */
  datatype Diagnostic =
    | RootUnavailable
    | DuplicatePath(path: Bytes)
    | SelectorsMissing
    | SelectorProblem(issue: Issue)
    | MandatoryMissing(path: Bytes)
    | MandatorySchema(path: Bytes)
    | Unmappable(path: Bytes)
    | PublicationConflict(reason: ConflictReason)

  datatype ConflictReason = OtherInstance | OtherMode | OtherSelection

  datatype ComponentInventory = ComponentInventory(resources: Resources, fatal: seq<Diagnostic>)

  datatype Plan = Plan(mode: Mode, effective: set<Bytes>, diagnostics: seq<Diagnostic>)

  /** An operation that every proxy calls, and the type it must return. */
  datatype Mandatory = Mandatory(name: Bytes, outputType: Bytes)

  const MANDATORY_OPERATIONS: seq<Mandatory> :=
    [Mandatory("getTaskState", "TaskState"), Mandatory("getTargetState", "TaskState"),
     Mandatory("isConfigured", "Bool"), Mandatory("isActive", "Bool"), Mandatory("isRunning", "Bool"),
     Mandatory("inFatalError", "Bool"), Mandatory("inException", "Bool"), Mandatory("inRunTimeError", "Bool")]

  function RequiredPaths(mandatory: seq<Mandatory>): (r: seq<Bytes>)
    ensures |r| == |mandatory|
    ensures forall i :: 0 <= i < |r| ==> r[i] == ResourcePath([], Operation, mandatory[i].name)
  {
    seq(|mandatory|, i requires 0 <= i < |mandatory| => ResourcePath([], Operation, mandatory[i].name))
  }

  // ----------------------------------------------------------------- inventory

  /** discoverComponent: the inventory of a component and what is fatally wrong with it. */
  method DiscoverInventory(g: ServiceGraph, root: Option<ServiceId>) returns (inventory: ComponentInventory)
    requires ClosedGraph(g) && (root.Some? ==> root.value in g)
    ensures InventoryTree(inventory.resources)
    ensures root.None? ==> inventory == ComponentInventory(map[], [RootUnavailable])
    ensures root.Some? ==>
              var all := Discovered(g, root.value);
              inventory == ComponentInventory(all.resources, DuplicateDiagnostics(all.duplicates))
  {
    var found := DiscoverComponent(g, root);
    if found.None? {
      return ComponentInventory(map[], [RootUnavailable]);
    }
    DiscoveredTree(g, root.value);
    return ComponentInventory(found.value.resources, DuplicateDiagnostics(found.value.duplicates));
  }

  function DuplicateDiagnostics(duplicates: seq<Bytes>): (r: seq<Diagnostic>)
    ensures |r| == |duplicates| && forall i :: 0 <= i < |r| ==> r[i] == DuplicatePath(duplicates[i])
  {
    seq(|duplicates|, i requires 0 <= i < |duplicates| => DuplicatePath(duplicates[i]))
  }

  // --------------------------------------------------------- service ancestors

  /** The services above an owner path: `prefix` has been read, `rest` are the segments to come. */
  function AncestorsFrom(category: Bytes, prefix: Bytes, rest: seq<Bytes>): set<Bytes>
    decreases |rest|
  {
    if |rest| < 2 || rest[0] != category then {}
    else
      var path := prefix + rest[0] + "/" + rest[1];
      {path} + AncestorsFrom(category, path + "/", rest[2..])
  }

  method AddServiceAncestors(category: Bytes, ownerPath: Bytes, effective: set<Bytes>) returns (r: set<Bytes>)
    ensures r == effective + AncestorsFrom(category, [], Split(ownerPath))
  {
    r := effective;
    var begin := 0;
    assert ownerPath[0..] == ownerPath;
    while begin < |ownerPath|
      invariant begin <= |ownerPath|
      invariant r + AncestorsFrom(category, ownerPath[..begin], Split(ownerPath[begin..]))
                == effective + AncestorsFrom(category, [], Split(ownerPath))
    {
      var categoryEnd := FindSlash(ownerPath, begin);
      AncestorStop(category, ownerPath, begin, categoryEnd);
      if categoryEnd == |ownerPath| || ownerPath[begin..categoryEnd] != category {
        return;
      }
      var nameEnd := FindSlash(ownerPath, categoryEnd + 1);
      AncestorStep(category, ownerPath, begin, categoryEnd, nameEnd);
      r := r + {ownerPath[..nameEnd]};
      if nameEnd == |ownerPath| {
        return;
      }
      begin := nameEnd + 1;
    }
    assert Split([]) == [[]];
  }

  lemma AncestorStop(category: Bytes, path: Bytes, begin: nat, categoryEnd: nat)
    requires begin <= categoryEnd <= |path| && SlashFree(path[begin..categoryEnd])
    requires categoryEnd < |path| ==> path[categoryEnd] == '/'
    ensures categoryEnd == |path| || path[begin..categoryEnd] != category ==>
              AncestorsFrom(category, path[..begin], Split(path[begin..])) == {}
  {
    SplitPiece(path, begin, categoryEnd);
  }

  lemma AncestorStep(category: Bytes, path: Bytes, begin: nat, categoryEnd: nat, nameEnd: nat)
    requires begin <= categoryEnd < nameEnd <= |path| && path[categoryEnd] == '/'
    requires SlashFree(path[begin..categoryEnd]) && path[begin..categoryEnd] == category
    requires SlashFree(path[categoryEnd + 1..nameEnd]) && (nameEnd < |path| ==> path[nameEnd] == '/')
    ensures AncestorsFrom(category, path[..begin], Split(path[begin..])) ==
            {path[..nameEnd]} +
            (if nameEnd == |path| then {}
             else AncestorsFrom(category, path[..nameEnd + 1], Split(path[nameEnd + 1..])))
  {
    hide Split, SlashFree;
    SplitPiece(path, begin, categoryEnd);
    SplitPiece(path, categoryEnd + 1, nameEnd);
    SlicesJoin(path, begin, categoryEnd, nameEnd);
    var rest := Split(path[begin..]);
    assert rest[2..] == if nameEnd < |path| then Split(path[nameEnd + 1..]) else [];
  }

  lemma SlicesJoin(path: Bytes, begin: nat, categoryEnd: nat, nameEnd: nat)
    requires begin <= categoryEnd < nameEnd <= |path| && path[categoryEnd] == '/'
    ensures path[..nameEnd] == path[..begin] + path[begin..categoryEnd] + "/" + path[categoryEnd + 1..nameEnd]
    ensures nameEnd < |path| && path[nameEnd] == '/' ==> path[..nameEnd + 1] == path[..nameEnd] + "/"
  {
  }

  /** The services above the service reached over `names`, that one included. */
  ghost function ServicesAbove(names: seq<Bytes>): set<Bytes>
  {
    set k | 0 < k <= |names| :: ServicePath(names[..k])
  }

  ghost function ServicesBetween(names: seq<Bytes>, k: nat): set<Bytes>
  {
    set j | k < j <= |names| :: ServicePath(names[..j])
  }

  /** The text before the segments of service k. */
  function Prefix(names: seq<Bytes>): Bytes
  {
    if names == [] then [] else ServicePath(names) + "/"
  }

  /** The segments of the services from k on. */
  function SegmentsFrom(category: Bytes, names: seq<Bytes>, k: nat): seq<Bytes>
    requires k <= |names|
    decreases |names| - k
  {
    if k == |names| then [] else [category, Escaped(names[k])] + SegmentsFrom(category, names, k + 1)
  }

  lemma {:induction false} AncestorsOfTail(names: seq<Bytes>, k: nat)
    requires k <= |names|
    ensures AncestorsFrom(Category(Service), Prefix(names[..k]), SegmentsFrom(Category(Service), names, k))
            == ServicesBetween(names, k)
    decreases |names| - k
  {
    hide Category, Escaped, ServicePath, Prefix;
    if k < |names| {
      ServiceChildSpelled(names[..k], names[k]);
      TakeMore(names, k);
      AncestorsOfTail(names, k + 1);
      PrefixGrows(names, k + 1);
      assert SegmentsFrom(Category(Service), names, k)[2..] == SegmentsFrom(Category(Service), names, k + 1);
      assert ServicesBetween(names, k) == {ServicePath(names[..k + 1])} + ServicesBetween(names, k + 1);
    }
  }

  lemma PrefixGrows(names: seq<Bytes>, k: nat)
    requires 0 < k <= |names|
    ensures Prefix(names[..k]) == ServicePath(names[..k]) + "/"
  {
  }

  lemma {:induction false} SegmentsSpelled(names: seq<Bytes>, k: nat)
    requires k <= |names| == |ServiceNames(names)| / 2
    ensures SegmentsFrom(Category(Service), names, k) == EscapedAll(ServiceNames(names))[2 * k..]
    decreases |names| - k
  {
    hide Category, Escaped;
    if k < |names| {
      var segments := EscapedAll(ServiceNames(names));
      SegmentsSpelled(names, k + 1);
      ServiceNameAt(names, k);
      CategoryEscapesToItself(Service);
      assert segments[2 * k..] == [segments[2 * k], segments[2 * k + 1]] + segments[2 * (k + 1)..];
    } else {
      CanonicalServiceNames(names);
    }
  }

  lemma ServiceChildSpelled(names: seq<Bytes>, name: Bytes)
    ensures Prefix(names) + Category(Service) + "/" + Escaped(name) == ServicePath(names + [name])
  {
    ChildPath(names, name);
    if names != [] { ServicePathSpelled(names); }
  }

  lemma {:induction false} ServiceNameAt(names: seq<Bytes>, k: nat)
    requires k < |names|
    ensures |ServiceNames(names)| == 2 * |names|
    ensures ServiceNames(names)[2 * k] == Category(Service) && ServiceNames(names)[2 * k + 1] == names[k]
  {
    CanonicalServiceNames(names);
    CanonicalServiceNames(names[..|names| - 1]);
    if k < |names| - 1 {
      ServiceNameAt(names[..|names| - 1], k);
    }
  }

  /** Reading the text of an owner path finds exactly the services above it, whatever their names. */
  lemma AncestorsOfServicePath(names: seq<Bytes>)
    ensures AncestorsFrom(Category(Service), [], Split(ServicePath(names))) == ServicesAbove(names)
  {
    if names == [] {
      assert Split([]) == [[]];
    } else {
      hide Category, Escaped;
      var segments := EscapedAll(ServiceNames(names));
      ServicePathSpelled(names);
      CanonicalServiceNames(names);
      forall i | 0 <= i < |segments| ensures SlashFree(segments[i]) {
        EscapedAlphabet(ServiceNames(names)[i]);
      }
      SplitJoin(segments);
      SegmentsSpelled(names, 0);
      AncestorsOfTail(names, 0);
      assert names[..0] == [];
    }
  }

  // ---------------------------------------------------------------- the plan

  ghost function Chosen(mode: Mode, resources: Resources, selectors: set<Bytes>): set<Bytes>
  {
    if mode.Full? then resources.Keys else SelectedPaths(selectors, resources.Keys)
  }

  ghost function Available(required: seq<Bytes>, resources: Resources): set<Bytes>
  {
    set p | p in required && p in resources
  }

  /** With a resource, every service above it. */
  ghost predicate OwnersClosed(resources: Resources, s: set<Bytes>)
  {
    forall p :: p in s && p in resources ==> ServicesAbove(resources[p].ownerNames) <= s
  }

  /** `s` publishes everything it has to. */
  ghost predicate Suffices(required: seq<Bytes>, mode: Mode, resources: Resources, selectors: set<Bytes>,
                           s: set<Bytes>)
  {
    && Chosen(mode, resources, selectors) <= s
    && Available(required, resources) <= s
    && OwnersClosed(resources, s)
  }

  /** `s` is inside the inventory, suffices, and every set that suffices contains it. */
  ghost predicate IsEffective(required: seq<Bytes>, mode: Mode, resources: Resources, selectors: set<Bytes>,
                              s: set<Bytes>)
  {
    && s <= resources.Keys
    && Suffices(required, mode, resources, selectors, s)
    && forall t :: Suffices(required, mode, resources, selectors, t) ==> s <= t
  }

  lemma EffectiveIsUnique(required: seq<Bytes>, mode: Mode, resources: Resources, selectors: set<Bytes>,
                          s: set<Bytes>, t: set<Bytes>)
    requires IsEffective(required, mode, resources, selectors, s)
    requires IsEffective(required, mode, resources, selectors, t)
    ensures s == t
  {
  }

  ghost function ClosureOf(resources: Resources, chosen: set<Bytes>): set<Bytes>
    requires chosen <= resources.Keys
  {
    chosen + (set p, a | p in chosen && a in ServicesAbove(resources[p].ownerNames) :: a)
  }

  /** What the loops of buildPublicationPlan collect is the least set that suffices. */
  lemma ClosureIsEffective(required: seq<Bytes>, mode: Mode, resources: Resources, selectors: set<Bytes>)
    requires InventoryTree(resources)
    requires forall p :: p in required ==> exists name :: p == ResourcePath([], Operation, name)
    ensures IsEffective(required, mode, resources, selectors,
                        ClosureOf(resources, Chosen(mode, resources, selectors)) + Available(required, resources))
  {
    var chosen := Chosen(mode, resources, selectors);
    var available := Available(required, resources);
    var all := ClosureOf(resources, chosen) + available;
    forall p | p in available ensures ServicesAbove(resources[p].ownerNames) == {} {
      var name :| p == ResourcePath([], Operation, name);
      OwnerOfRootResource(resources[p], Operation, name);
    }
    forall p | p in all ensures ServicesAbove(resources[p].ownerNames) <= all {
      if p !in chosen && p !in available {
        var q :| q in chosen && p in ServicesAbove(resources[q].ownerNames);
        AboveAnOwner(resources, q, p);
      }
    }
  }

  /** What is above an owner of q is above q. */
  lemma AboveAnOwner(resources: Resources, q: Bytes, p: Bytes)
    requires InventoryTree(resources) && q in resources && p in ServicesAbove(resources[q].ownerNames)
    ensures p in resources && ServicesAbove(resources[p].ownerNames) <= ServicesAbove(resources[q].ownerNames)
  {
    hide Category, ResourcePath;
    var names := resources[q].ownerNames;
    var k :| 0 < k <= |names| && p == ServicePath(names[..k]);
    OwnerOfService(resources, names[..k]);
    AboveAPrefix(names, k - 1);
    assert names[..k][..k - 1] == names[..k - 1];
    SameServices(resources[p].ownerNames, names[..k - 1]);
  }

  /** The record at a service's path lists its owners, up to the spelling of empty names. */
  lemma OwnerOfService(resources: Resources, names: seq<Bytes>)
    requires InventoryTree(resources) && names != [] && ServicePath(names) in resources
    ensures var r := resources[ServicePath(names)];
            r.kind == Service && CanonicalAll(r.ownerNames) == CanonicalAll(names[..|names| - 1])
            && Canonical(r.name) == Canonical(names[|names| - 1])
  {
    var r := resources[ServicePath(names)];
    ResourcePathCollision(r.ownerNames, r.kind, r.name, names[..|names| - 1], Service, names[|names| - 1]);
  }

  lemma OwnerOfRootResource(r: ResourceRecord, kind: ResourceKind, name: Bytes)
    requires WellPlaced(r) && r.path == ResourcePath([], kind, name)
    ensures r.ownerNames == [] && r.kind == kind && Canonical(r.name) == Canonical(name)
  {
    ResourcePathCollision(r.ownerNames, r.kind, r.name, [], kind, name);
  }

  lemma AboveAPrefix(names: seq<Bytes>, k: nat)
    requires k <= |names|
    ensures ServicesAbove(names[..k]) <= ServicesAbove(names)
  {
    forall j | 0 < j <= k ensures names[..k][..j] == names[..j] {}
  }

  lemma {:induction false} ServicePathOfCanonical(names: seq<Bytes>)
    ensures ServicePath(names) == ServicePath(CanonicalAll(names))
  {
    if names != [] {
      var n := |names| - 1;
      ServicePathOfCanonical(names[..n]);
      assert CanonicalAll(names)[..n] == CanonicalAll(names[..n]);
      EmptyAndNul();
    }
  }

  lemma SameServices(a: seq<Bytes>, b: seq<Bytes>)
    requires CanonicalAll(a) == CanonicalAll(b)
    ensures ServicesAbove(a) == ServicesAbove(b)
  {
    hide ServicePath, Canonical;
    assert |a| == |b|;
    forall k | 0 <= k <= |a| ensures ServicePath(a[..k]) == ServicePath(b[..k]) {
      ServicePathOfCanonical(a[..k]);
      ServicePathOfCanonical(b[..k]);
      assert CanonicalAll(a[..k]) == CanonicalAll(a)[..k] == CanonicalAll(b[..k]);
    }
  }

  // -------------------------------------------------------------- diagnostics

  function SelectorDiagnostics(issues: seq<Issue>): (r: seq<Diagnostic>)
    ensures |r| == |issues|
  {
    seq(|issues|, i requires 0 <= i < |issues| => SelectorProblem(issues[i]))
  }

  function MissingMandatory(required: seq<Bytes>, resources: Resources): seq<Diagnostic>
  {
    if required == [] then []
    else
      var n := |required| - 1;
      MissingMandatory(required[..n], resources)
      + (if required[n] in resources then [] else [MandatoryMissing(required[n])])
  }

  lemma {:induction false} NothingMissing(required: seq<Bytes>, resources: Resources)
    ensures MissingMandatory(required, resources) == [] <==> Elements(required) <= resources.Keys
  {
    if required != [] {
      var n := |required| - 1;
      NothingMissing(required[..n], resources);
      TakeMore(required, n);
      TakeAll(required);
    }
  }

  /** The mandatory operations that the inventory does not have. */
  ghost function MissingOperations(mandatory: seq<Mandatory>, resources: Resources): set<Diagnostic>
  {
    set m | m in mandatory && ResourcePath([], Operation, m.name) !in resources
      :: MandatoryMissing(ResourcePath([], Operation, m.name))
  }

  lemma {:induction false} MissingAre(mandatory: seq<Mandatory>, resources: Resources)
    ensures Elements(MissingMandatory(RequiredPaths(mandatory), resources)) == MissingOperations(mandatory, resources)
  {
    hide ResourcePath;
    if mandatory != [] {
      var n := |mandatory| - 1;
      var required := RequiredPaths(mandatory);
      MissingAre(mandatory[..n], resources);
      assert required[..n] == RequiredPaths(mandatory[..n]);
      assert mandatory == mandatory[..n] + [mandatory[n]];
      Concatenated(MissingMandatory(required[..n], resources),
                   if required[n] in resources then [] else [MandatoryMissing(required[n])]);
    }
  }

  ghost function Problems(issues: set<Issue>): set<Diagnostic>
  {
    set i | i in issues :: SelectorProblem(i)
  }

  lemma SelectorDiagnosticsAre(issues: seq<Issue>)
    ensures Elements(SelectorDiagnostics(issues)) == Problems(Elements(issues))
  {
    var all := SelectorDiagnostics(issues);
    forall i | i in issues ensures SelectorProblem(i) in all {
      var k :| 0 <= k < |issues| && issues[k] == i;
      assert all[k] == SelectorProblem(i);
    }
  }

  /** A plan is free of diagnostics exactly when all of this holds. */
  ghost predicate Clean(required: seq<Bytes>, mode: Mode, inventory: ComponentInventory, selectors: set<Bytes>)
  {
    && inventory.fatal == []
    && (mode.Selected? ==>
          && selectors != {}
          && forall s :: s in selectors ==> !Reported(s, inventory.resources.Keys))
    && Elements(required) <= inventory.resources.Keys
  }

  /** What a plan reports: what discovery found, the problems of the selectors and the missing operations. */
  ghost function PlanFindings(mandatory: seq<Mandatory>, mode: Mode, inventory: ComponentInventory,
                              selectors: set<Bytes>): set<Diagnostic>
  {
    Elements(inventory.fatal)
    + (if mode.Full? then {} else if selectors == {} then {SelectorsMissing}
       else Problems(IssuesOf(selectors, inventory.resources.Keys)))
    + MissingOperations(mandatory, inventory.resources)
  }

  lemma CleanFindsNothing(mandatory: seq<Mandatory>, mode: Mode, inventory: ComponentInventory, selectors: set<Bytes>)
    ensures PlanFindings(mandatory, mode, inventory, selectors) == {} <==>
            Clean(RequiredPaths(mandatory), mode, inventory, selectors)
  {
    hide ResourcePath;
    var resources := inventory.resources;
    NoElements(inventory.fatal);
    MissingAre(mandatory, resources);
    NoElements(MissingMandatory(RequiredPaths(mandatory), resources));
    NothingMissing(RequiredPaths(mandatory), resources);
    forall s | s in selectors && Reported(s, resources.Keys)
      ensures Problems(IssuesOf(selectors, resources.Keys)) != {}
    {
      assert SelectorProblem(IssueOf(s)) in Problems(IssuesOf(selectors, resources.Keys));
    }
  }

  method BuildPublicationPlan(mandatory: seq<Mandatory>, mode: Mode, inventory: ComponentInventory,
                              selectors: seq<Bytes>)
    returns (plan: Plan)
    requires InventoryTree(inventory.resources)
    ensures plan.mode == mode
    ensures IsEffective(RequiredPaths(mandatory), mode, inventory.resources, Elements(selectors), plan.effective)
    ensures inventory.fatal <= plan.diagnostics
    ensures Elements(plan.diagnostics) == PlanFindings(mandatory, mode, inventory, Elements(selectors))
  {
    hide ResourcePath, IsEffective, IssuesOf, Problems, MissingMandatory, MissingOperations, SelectorDiagnostics;
    var resources := inventory.resources;
    var effective: set<Bytes> := {};
    var diagnostics := inventory.fatal;
    ClosureIsEffective(RequiredPaths(mandatory), mode, resources, Elements(selectors));
    NoElements(selectors);
    MissingAre(mandatory, resources);
    if mode.Full? {
      effective := resources.Keys;
      FullIsClosed(resources);
    } else if selectors == [] {
      diagnostics := diagnostics + [SelectorsMissing];
      Concatenated(inventory.fatal, [SelectorsMissing]);
    } else {
      var resourcePaths := ListOf(resources.Keys);
      var matched := MatchPublicationSelectors(selectors, resourcePaths);
      diagnostics := diagnostics + SelectorDiagnostics(matched.issues);
      SelectorDiagnosticsAre(matched.issues);
      Concatenated(inventory.fatal, SelectorDiagnostics(matched.issues));
      effective := AddAncestorsOf(resources, matched.resourcePaths);
    }
    assert effective == ClosureOf(resources, Chosen(mode, resources, Elements(selectors)));
    Concatenated(diagnostics, MissingMandatory(RequiredPaths(mandatory), resources));
    effective, diagnostics := AddMandatory(mandatory, resources, effective, diagnostics);
    return Plan(mode, effective, diagnostics);
  }

  method AddMandatory(mandatory: seq<Mandatory>, resources: Resources, before: set<Bytes>, reported: seq<Diagnostic>)
    returns (effective: set<Bytes>, diagnostics: seq<Diagnostic>)
    ensures effective == before + Available(RequiredPaths(mandatory), resources)
    ensures diagnostics == reported + MissingMandatory(RequiredPaths(mandatory), resources)
  {
    hide ResourcePath;
    effective, diagnostics := before, reported;
    ghost var required := RequiredPaths(mandatory);
    for i := 0 to |mandatory|
      invariant effective == before + Available(required[..i], resources)
      invariant diagnostics == reported + MissingMandatory(required[..i], resources)
    {
      TakeMore(required, i);
      MissingGrows(required, i, resources);
      var path := ResourcePath([], Operation, mandatory[i].name);
      if path in resources {
        effective := effective + {path};
      } else {
        diagnostics := diagnostics + [MandatoryMissing(path)];
      }
    }
    TakeAll(required);
  }

  lemma MissingGrows(required: seq<Bytes>, i: nat, resources: Resources)
    requires i < |required|
    ensures MissingMandatory(required[..i + 1], resources) ==
            MissingMandatory(required[..i], resources)
            + (if required[i] in resources then [] else [MandatoryMissing(required[i])])
  {
    assert required[..i + 1][..i] == required[..i];
  }

  /** The loop over the matched resources. */
  method AddAncestorsOf(resources: Resources, matched: set<Bytes>) returns (effective: set<Bytes>)
    requires InventoryTree(resources) && matched <= resources.Keys
    ensures effective == ClosureOf(resources, matched)
  {
    hide Category, ResourcePath;
    effective := matched;
    var rest := matched;
    while rest != {}
      invariant rest <= matched
      invariant effective == matched + ClosureOf(resources, matched - rest)
    {
      var path :| path in rest;
      AncestorsOfServicePath(resources[path].ownerNames);
      assert WellPlaced(resources[path]);
      effective := AddServiceAncestors(Category(Service), resources[path].ownerPath, effective);
      ClosureGrows(resources, matched - rest, path);
      assert matched - (rest - {path}) == matched - rest + {path};
      rest := rest - {path};
    }
  }

  lemma ClosureGrows(resources: Resources, chosen: set<Bytes>, path: Bytes)
    requires chosen <= resources.Keys && path in resources
    ensures ClosureOf(resources, chosen + {path})
            == ClosureOf(resources, chosen) + {path} + ServicesAbove(resources[path].ownerNames)
  {
  }

  lemma FullIsClosed(resources: Resources)
    requires InventoryTree(resources)
    ensures ClosureOf(resources, resources.Keys) == resources.Keys
  {
  }

  /** Selecting "**" publishes what full mode publishes. */
  lemma WildcardIsFullMode(required: seq<Bytes>, resources: Resources, s: set<Bytes>)
    requires InventoryTree(resources)
    ensures IsEffective(required, Selected, resources, {"**"}, s) <==> s == resources.Keys
    ensures IsEffective(required, Full, resources, {"**"}, s) <==> s == resources.Keys
  {
    forall p | p in resources ensures Selects("**", p) {
      var r := resources[p];
      assert WellPlaced(r);
      ResourcePathsParse(r.ownerNames, r.kind, r.name);
      RecursiveWildcardSelectsAll(p);
    }
    assert SelectedPaths({"**"}, resources.Keys) == resources.Keys;
    FullSuffices(required, Full, resources, {"**"});
    FullSuffices(required, Selected, resources, {"**"});
  }

  lemma FullSuffices(required: seq<Bytes>, mode: Mode, resources: Resources, selectors: set<Bytes>)
    requires InventoryTree(resources) && Chosen(mode, resources, selectors) == resources.Keys
    ensures IsEffective(required, mode, resources, selectors, resources.Keys)
    ensures forall s :: IsEffective(required, mode, resources, selectors, s) ==> s == resources.Keys
  {
    forall p | p in resources ensures ServicesAbove(resources[p].ownerNames) <= resources.Keys {
    }
  }
}
