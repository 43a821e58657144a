/**
  From a publication to the proxies: what a publication commits is what every client stages,
  at any time until the model is shut down.
 */
module EndToEnd {
  import opened Wrappers
  import opened Ordering
  import opened ServiceDiscovery
  import opened PublicationPlan
  import opened Snapshot
  import opened SnapshotTree
  import opened ObjectModel
  import opened Staging
  import opened StagedTree
  import opened VisibleResources
  import opened StagingRoundTrip

  lemma CommittedIsPublished(s: ModelState, t: ModelState, name: Bytes, instance: InstanceId,
                             mandatory: seq<Mandatory>, mode: Mode, selectors: set<Bytes>, all: InventoryState,
                             root: ServiceId, live: LiveMap, effective: set<Bytes>)
    requires CommittedAs(s, t, name, instance, mode, effective, root, live, all.resources)
    requires Publishable(mandatory, mode, all, selectors, live, effective)
    requires IsEffective(RequiredPaths(mandatory), mode, all.resources, selectors, effective)
    ensures name in t.components && t.components[name].effective == effective
    ensures Published(name, root, live, all.resources, effective, t.components[name].nodes)
    ensures AllMapped(mandatory, live, all.resources, effective)
    ensures Elements(RequiredPaths(mandatory)) <= effective
  {
    hide IsEffective, Clean, AllMapped, Published, RequiredPaths;
    RequiredIsEffective(RequiredPaths(mandatory), mode, ComponentInventory(all.resources, []), selectors,
                        effective);
  }

  /**
    A component committed at some moment of a run is there at every later one until shutdown.
    A client then stages exactly its published resources, iff it can build each that it sees.
   */
  lemma CommittedIsStaged(client: TypeRegistry, states: seq<ModelState>, i: nat, j: nat, s: ModelState, name: Bytes,
                          instance: InstanceId, mandatory: seq<Mandatory>, mode: Mode, selectors: set<Bytes>,
                          all: InventoryState, root: ServiceId, live: LiveMap, effective: set<Bytes>)
    requires Run(states) && i <= j < |states| && !states[j].shut
    requires CommittedAs(s, states[i], name, instance, mode, effective, root, live, all.resources)
    requires Publishable(mandatory, mode, all, selectors, live, effective)
    requires IsEffective(RequiredPaths(mandatory), mode, all.resources, selectors, effective)
    requires ProperMandatory(mandatory)
    ensures name in states[j].components
    ensures StagedOf(client, states[j].components[name].nodes, name, mandatory, [])
            == if VisibleCanBeBuilt(client, live, all.resources, effective, [])
               then Some(ExpectedTree(live, all.resources, effective, [])) else None
  {
    hide *;
    LifeOfAModel(states, i, j);
    CommittedIsPublished(s, states[i], name, instance, mandatory, mode, selectors, all, root, live, effective);
    PublishThenStage(client, name, root, mandatory, live, all.resources, effective,
                     states[j].components[name].nodes);
  }
}
