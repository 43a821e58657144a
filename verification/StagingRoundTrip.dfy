/**
  Publishing a component and staging it gives back the published resources: the proxy's tree
  is the tree of effective resources whose names can be spelled by a browse name, minus
  output ports that keep no value. Staging fails exactly over a visible resource that the
  client cannot build: a property that cannot be assigned, an operation whose description its
  constructor refuses, or a value or port of a type that it does not know.
 */
module StagingRoundTrip {
  import opened Wrappers
  import opened Ordering
  import opened NodeId
  import opened ResourcePaths
  import opened ServiceDiscovery
  import opened PublicationPlan
  import opened Snapshot
  import Calls = RemoteOperation
  import opened SnapshotTree
  import opened Staging
  import opened PublishedFolders
  import opened StagedTree
  import opened VisibleResources

  /** Required names are distinct and none is one of the two that share a path. */
  ghost predicate ProperMandatory(mandatory: seq<Mandatory>)
  {
    && (forall i :: 0 <= i < |mandatory| ==> mandatory[i].name != [] && mandatory[i].name != ['\0'])
    && forall i, j :: 0 <= i < j < |mandatory| ==> mandatory[i].name != mandatory[j].name
  }

  lemma MandatoryOperationsAreProper()
    ensures ProperMandatory(MANDATORY_OPERATIONS)
  {
    var m := MANDATORY_OPERATIONS;
    assert |m| == 8;
    assert |m[0].name| == 12 && |m[1].name| == 14 && |m[2].name| == 12 && |m[3].name| == 8;
    assert |m[4].name| == 9 && |m[5].name| == 12 && |m[6].name| == 11 && |m[7].name| == 14;
    assert m[0].name[0] == 'g' && m[2].name[2] == 'C' && m[5].name[2] == 'F' && m[5].name[0] == 'i';
    assert m[2].name[0] == 'i' && m[1].name[0] == 'g' && m[7].name[0] == 'i';
  }

  lemma {:induction false} TypeOfRequired(mandatory: seq<Mandatory>, i: nat)
    requires ProperMandatory(mandatory) && i < |mandatory|
    ensures TypeFor(mandatory, mandatory[i].name) == Some(mandatory[i].outputType)
  {
    if i > 0 {
      assert mandatory[0].name != mandatory[i].name;
      assert mandatory[1..][i - 1] == mandatory[i];
      forall a, b | 0 <= a < b < |mandatory[1..]| ensures mandatory[1..][a].name != mandatory[1..][b].name {
        assert mandatory[a + 1].name != mandatory[b + 1].name;
      }
      TypeOfRequired(mandatory[1..], i - 1);
    }
  }

  lemma RequiredIsStaged(c: Bytes, root: ServiceId, mandatory: seq<Mandatory>, live: LiveMap, resources: Resources,
                         effective: set<Bytes>, nodes: NodeMap, i: nat)
    requires Published(c, root, live, resources, effective, nodes)
    requires AllMapped(mandatory, live, resources, effective)
    requires Elements(RequiredPaths(mandatory)) <= effective && ProperMandatory(mandatory) && i < |mandatory|
    ensures var m := ExpectedFolder(resources, effective, [], Operation, OperationItems(live));
            mandatory[i].name in m && m[mandatory[i].name] == Calls.Description([], [mandatory[i].outputType], [-1])
  {
    hide IsSnapshot, OwnersRecorded, OneOwnerPerPath, Category, Escaped, ResourcePath,
      OperationParts;
    var m := mandatory[i];
    PublishedTree(c, root, live, resources, effective, nodes);
    assert RequiredPaths(mandatory)[i] in Elements(RequiredPaths(mandatory));
    var p := ResourcePath([], Operation, m.name);
    InventoryRecord(resources, p);
    OwnerOfRootResource(resources[p], Operation, m.name);
    TypeOfRequired(mandatory, i);
    assert IsAt(resources, effective, [], Operation, p);
    assert Outcome(c, mandatory, live, resources[p]).Ok?;
    assert m.name in NamesAt(resources, effective, [], Operation);
  }

  /**
    Publish, then stage: the proxy is built exactly when the client can build every resource
    that it can see, and then it shows exactly the published resources.
   */
  lemma PublishThenStage(types: TypeRegistry, c: Bytes, root: ServiceId, mandatory: seq<Mandatory>, live: LiveMap,
                         resources: Resources, effective: set<Bytes>, nodes: NodeMap)
    requires Published(c, root, live, resources, effective, nodes)
    requires AllMapped(mandatory, live, resources, effective)
    requires Elements(RequiredPaths(mandatory)) <= effective && ProperMandatory(mandatory)
    ensures StagedOf(types, nodes, c, mandatory, [])
            == if VisibleCanBeBuilt(types, live, resources, effective, [])
               then Some(ExpectedTree(live, resources, effective, [])) else None
  {
    hide Published, AllMapped, ExpectedFolder, StagedOf, CanBuildBelow, ExpectedTree, RequiredPaths, ProperMandatory,
      VisibleCanBeBuilt;
    forall m | m in mandatory
      ensures var f := ExpectedFolder(resources, effective, [], Operation, OperationItems(live));
              m.name in f && f[m.name] == Calls.Description([], [m.outputType], [-1])
    {
      var i :| 0 <= i < |mandatory| && mandatory[i] == m;
      RequiredIsStaged(c, root, mandatory, live, resources, effective, nodes, i);
    }
    StagingMatches(types, c, root, live, resources, effective, nodes, mandatory, []);
    BuiltResourceByResource(types, c, root, live, resources, effective, nodes, []);
  }
}
