# Verified model of the RTT OPC UA transport

This project models the parts of the Orocos RTT OPC UA transport that decide what is
published, what runs, and what becomes of data that is under way, and proves what the code
promises about them. open62541, RTT and the network appear as small environments that may
do anything their interfaces allow: an address space that can refuse any request and delete
more than it was asked to, threads that can be scheduled in any order, operations that
complete whenever they like, sessions that can end with any request.

## Contents

Paths and selectors
- `NodeId`: escaping, decoding, splitting and printing of NodeId paths.
- `PublicationSelector`: selectors, their glob meaning and the collected result.
- `ResourcePaths`: the resource and node paths of server and client.

Static publication as a transaction
- `ServiceDiscovery`: the inventory of a possibly cyclic service graph.
- `PublicationPlan`: ancestors, the mandatory baseline and the effective set.
- `Snapshot`, `SnapshotTree`: the bundles of nodes of each resource and the tree they form.
- `PublishedNodes`: the nodes of a published component, spelled out.
- `AddressSpace`, `Cascades`, `Rollback`: a finite graph of nodes with an adversarial delete, the
  possible results of walking back over a ledger, and the rollback itself.
- `Publication`, `ObjectModel`: candidate creation, publishing, republishing and shutdown.
- `Staging`, `PublishedFolders`, `StagedTree`, `VisibleResources`, `StagingRoundTrip`: the proxy as
  a reader of the published nodes; publishing, then staging.
- `ClientTypes`: what a client with the server's types can stage.
- `EndToEnd`: what a publication commits, and what clients stage of it until shutdown.

Threads
- `ServerProtocol`, `ServerSafety`: the server's threads as a transition system and what every
  interleaving keeps; a step is one mutex-protected block or one atomic access.
- `Server`: `start`, `run`, `drainTasks`, `failPendingTasks`, `stop` and `invoke` as imperative code whose
  every statement is such a step, with any steps of the other threads in between.
- `Leases`: component states and leases as objects that are moved and released.
- `ShutdownProtocol`: calls, retained calls and shutdown as a transition system over leases.
- `Dispatcher`: `invoke`, `retainPending`, `reapOnce`, `drain`, `deactivate` and `shutdown` over it.

The proxy
- `RemotePort`: the session's access state, and port adapters with logs of what became of each sample.
- `Proxy`: synchronisation, staleness, the pause handshake and the replacement of adapters.
- `RemoteOperation`: operation descriptions, and remote calls against local calls.

Data types
- `ProviderOrder`: the deterministic dependency order and its cycle report.
- `DataTypeRegistry`: registration and the freeze.
- `EndpointTypeRegistry`: materialisation in dependency order over reserved storage.

`Wrappers` and `Ordering` hold options, results, byte strings and sorted lists.

## Where the obvious statement is false

- The empty name and the name of one NUL byte share the segment `%00`
  (`NodeId.EscapedCollision`); decoding gives back exactly the nonempty names.
- `Server::invoke` reports true for a callback that threw an exception without a text
  (`ServerSafety.SilentThrowReportsTrue`); `ServerSafety.ReportIsExact` says when it reports true.
- A failed server can hold queued tasks (`ServerSafety.FailedQueueMayHoldTasks`); a stopped one
  cannot (`ServerSafety.StoppedQueueStaysEmpty`).
- A call that returns early after sending drops its lease while the operation is under way
  (`ShutdownProtocol.EarlyReturnDropsTheLease`); `ShutdownProtocol.LeaseDroppedInFlight` says
  that this is the only such step.
- What is published cannot always be staged: a property that cannot be assigned is published and
  makes the proxy refuse the component, and so does an operation whose description the client's
  constructor refuses. `StagingRoundTrip.PublishThenStage` is stated for both outcomes, with the
  exact condition.
- The server publishes operations that no client accepts: `A const&` counts as a mutable argument
  and takes the place of the output that belongs to the next one
  (`RemoteOperation.RefusedDescription`, `ClientTypes.RefusedOperationStopsStaging`).
  `RemoteOperation.DescriptionIsAccepted` says exactly which descriptions are accepted.
- When the argument nodes of a new method cannot be browsed, they never enter the ledger. They
  appear as `strays` in the contracts of `Publication` and `ObjectModel`, which say that
  there are none unless a request to the address space failed.
- Closing the model does not stop a publication that has been admitted
  (`ObjectModel.CommitAfterClosing`); `ObjectModel.ClosedIsSettled` says when nothing more commits.
- A rollback without a failing request can still be incomplete, when a deletion cascades to a node
  that the walk has not reached (`Cascades.BackReferenceMayFail`); `Cascades.CompletesWhateverCascades`
  says exactly for which ledgers it cannot, and those that `createCandidate` makes are among them
  unless others link the new nodes elsewhere.
- Describing a rebuilt operation can give another description, even one that no client accepts
  (`RemoteOperation.MisreadDescription`); `RemoteOperation.RebuiltDescribesTheSame` says exactly
  when it does not.

## Model

| member | source | states |
|---|---|---|
| NodeId.EscapeNodeIdSegment | src/node_id.cpp:23-41 | the loop produces the percent-encoding of RFC 3986, section 2.1, byte by byte, with the empty name's `%00` |
| NodeId.EscapedOneByte | src/node_id.cpp:6-41 | letters, digits, `-`, `.`, `_` and `~` are kept, by their ASCII codes; any other byte becomes `%` and its two digits of `0123456789ABCDEF`, the high one first |
| NodeId.UnescapedEscapes | src/publication_selector.cpp:42-58 | undoing every escape of an encoded byte string gives the byte string back |
| NodeId.DecodedIsExact | src/publication_selector.cpp:42-63 | decoding inverts escaping: a segment decodes to a name iff the name is nonempty and escapes to the segment, and to nothing iff no name escapes to it |
| NodeId.EscapedCollision | src/node_id.cpp:23-41 | two names share a segment iff they are equal or are the empty name and the one NUL byte |
| NodeId.DecodeCanonicalSegment | src/publication_selector.cpp:42-63 | the index loop accepts exactly canonical segments and returns the name each stands for |
| NodeId.SplitPath | src/publication_selector.cpp:65-76 | the loop over slashes cuts the text into the recursive split of it |
| NodeId.JoinSplit | src/publication_selector.cpp:65-76 | joining the pieces with slashes restores any text, and no piece contains a slash |
| NodeId.SplitJoin | src/publication_selector.cpp:65-76 | splitting undoes joining for segments without slashes |
| NodeId.MakeNodePath | src/node_id.cpp:43-50 | prints the root and the escaped segments |
| NodeId.NodePathSplits | src/node_id.cpp:43-50 | a printed path splits back into its root and its escaped segments, at any length |
| NodeId.NodePathInjective | src/node_id.cpp:43-50 | two lists of names print the same path iff they agree position by position, up to the empty name against NUL |
| PublicationSelector.ParseSelector | src/publication_selector.cpp:78-118 | the parser returns the segments of the selector or the reason of the first offending one |
| PublicationSelector.ReasonOfSelector | src/publication_selector.cpp:78-118 | a selector is refused with a reason iff it is empty, or that is what is wrong with its first offending segment: empty, a recursive wildcard that is not last, a wildcard within other text, or not canonical |
| PublicationSelector.ParseInvertsPrint | src/publication_selector.cpp:78-118 | a selector parses to given segments iff they are well formed and print to it; so parsing is total on printed selectors and unambiguous |
| PublicationSelector.ParseResource | src/publication_selector.cpp:120-139 | the parser accepts a path iff every segment is canonical and nonempty |
| PublicationSelector.ResourceNamesInvertPrinting | src/publication_selector.cpp:120-139 | a resource path parses to given names iff they are nonempty names that print to it |
| PublicationSelector.GlobOfFixed | src/publication_selector.cpp:141-162 | without a recursive wildcard a pattern selects the paths of its length that agree with it wherever it is not `*` |
| PublicationSelector.GlobOfRecursive | src/publication_selector.cpp:141-162 | a terminal recursive wildcard admits any remainder, even an empty one |
| PublicationSelector.WildcardIsSomeLiteral | src/publication_selector.cpp:141-162 | a pattern with `*` selects a path iff the pattern with some literal name in that place does |
| PublicationSelector.RecursiveIsAnyNumber | src/publication_selector.cpp:141-162 | a pattern with a final `**` selects a path iff the pattern with some number of `*` in its place does |
| PublicationSelector.Matches | src/publication_selector.cpp:141-162 | the index loop decides the recursive meaning of a glob over decoded segments |
| PublicationSelector.MatchPublicationSelectors | src/publication_selector.cpp:171-212 | the selected paths are those that some selector selects; the issues are sorted, without duplicates, and name a selector iff it is malformed or matches nothing |
| PublicationSelector.IssuesAre | src/publication_selector.cpp:171-212 | an issue is reported iff it names a malformed selector, with the reason, or one that parses and selects no resource |
| PublicationSelector.ResultDependsOnSetsOnly | src/publication_selector.cpp:171-212 | reordering or repeating selectors and resources changes nothing in the result, issues included |
| PublicationSelector.RecursiveWildcardSelectsAll | src/publication_selector.cpp:171-212 | `**` selects exactly the canonical resource paths |
| Ordering.LessIsLexicographic | src/publication_selector.cpp:171-212 | the order of `std::set` and `std::sort` on strings: a proper prefix comes first, otherwise the first byte that differs decides |
| ResourcePaths.ModelPath | src/client_session.cpp:62-75 | the client's path is the printed list of component, service and trailing names |
| ResourcePaths.ResourcePathSpelled | src/object_model.cpp:1016-1024 | a resource path is the joined escapes of the resource's segments, at any service depth |
| ResourcePaths.ServerAndClientAgree | src/client_session.cpp:62-75 | server and client compute the same node for every resource of every service |
| ResourcePaths.MetadataAgrees | src/object_model.cpp:558-561 | and the same metadata nodes below it |
| ResourcePaths.OwnersAgree | src/object_model.cpp:558-561 | and the same node for every service, the component being the root service |
| ResourcePaths.FoldersAgree | src/object_model.cpp:1251-1269 | and the same category folders |
| ResourcePaths.ResourcePathsParse | src/publication_selector.cpp:120-139 | every path of an inventory can be parsed, and parses to the names it was built from |
| ResourcePaths.ResourcePathCollision | src/object_model.cpp:1016-1036 | two resources of a component share a path iff kind, owner names and name agree, up to the empty name against NUL |
| ServiceDiscovery.Inventory.AddRecord | src/object_model.cpp:1026-1036 | the first record of a path stays, a further one is a duplicate |
| ServiceDiscovery.Inventory.DiscoverService | src/object_model.cpp:1038-1123 | on any graph, cyclic or not, the recursion terminates, records what the graph lists below the service and restores the ancestry set |
| ServiceDiscovery.Inventory.DiscoverProvider | src/object_model.cpp:1092-1120 | one turn of the provider loop records the provider and, if it is neither missing, cyclic nor too deep, everything below it |
| ServiceDiscovery.DiscoverComponent | src/object_model.cpp:1125-1143 | a component without a root service has no inventory; otherwise the inventory is the discovered one, with the ancestry set empty again |
| ServiceDiscovery.DiscoveryIsExact | src/object_model.cpp:1038-1123 | a record is found iff a simple chain of at most 32 services from the root ends at a service one of whose lists has it: operations, properties, attributes and ports each with name and availability as listed there, provided services with their child or the reason why it was not expanded; its owner is the end of the chain |
| ServiceDiscovery.InventoryIsExact | src/object_model.cpp:1026-1123 | without duplicates the inventory holds exactly those records |
| ServiceDiscovery.FirstRecordStays | src/object_model.cpp:1026-1036 | a path holds the first record that was found for it |
| ServiceDiscovery.AncestorsAreRecorded | src/object_model.cpp:1092-1120 | every service above a recorded resource is recorded, as one that was expanded |
| ServiceDiscovery.DiscoveryDepth | src/object_model.cpp:1107-1122 | no recorded resource has more than 32 services above it, and no expanded service lies deeper than the proxy accepts |
| ServiceDiscovery.DiscoveredTree | src/object_model.cpp:1026-1123 | in an inventory every key is its record's path, and all owners of a record are keys |
| ServiceDiscovery.DiscoveredNames | src/object_model.cpp:1092-1120 | no recorded service is called `this`, and without duplicates every owner path leads to the record of exactly that owner |
| ServiceDiscovery.DuplicatesAreSharedPlaces | src/object_model.cpp:1026-1036 | a duplicate is reported iff two discovered resources agree in kind, owner names and name up to spelling |
| ServiceDiscovery.OneOwnerWithoutDuplicates | src/object_model.cpp:1026-1036 | without duplicates an owner path names a single service |
| PublicationPlan.DiscoverInventory | src/object_model.cpp:1125-1143 | the inventory is a tree, without a root it is empty and fatal; otherwise it is the discovered one, with a diagnostic for each further record of a path |
| PublicationPlan.AddServiceAncestors | src/object_model.cpp:1145-1164 | the text loop over an owner path adds the prefixes that end in a service name and nothing else |
| PublicationPlan.AncestorsOfServicePath | src/object_model.cpp:1145-1164 | on the text of an owner path these prefixes are exactly the paths of the services above, whatever their names |
| PublicationPlan.EffectiveIsUnique | src/object_model.cpp:1166-1217 | there is at most one least set that holds the chosen resources, is closed under service ancestors and holds every available mandatory operation |
| PublicationPlan.ClosureIsEffective | src/object_model.cpp:1166-1217 | what the loops collect is that least set, and lies inside the inventory |
| PublicationPlan.BuildPublicationPlan | src/object_model.cpp:1166-1217 | the plan's effective set is the least sufficient set; its diagnostics are exactly those of discovery, one for missing selectors, one for each malformed or unmatched selector, and one for each mandatory operation that the inventory lacks |
| PublicationPlan.WildcardIsFullMode | src/object_model.cpp:1170-1188 | the selector `**` alone gives the same effective set as full mode, whatever is mandatory |
| Snapshot.SpellingsAgree | src/object_model.cpp:1251-1269 | the three ways in which the source spells a folder and a resource node give the same paths |
| Snapshot.ComponentSnapshot.AppendCategoryNode | src/object_model.cpp:1251-1269 | inserts the category folder of a resource |
| Snapshot.ComponentSnapshot.AppendOperationBundle | src/object_model.cpp:1271-1360 | adds the operation's method and type metadata, or the one diagnostic of its first obstacle |
| Snapshot.ComponentSnapshot.AppendConfigurationBundle | src/object_model.cpp:1362-1422 | adds the value and its type, read-only unless it can be assigned, or a diagnostic |
| Snapshot.ComponentSnapshot.AppendPortBundle | src/object_model.cpp:1424-1491 | adds the port with direction, type and description, and a value node iff the port holds a value, or a diagnostic |
| Snapshot.ComponentSnapshot.AppendServiceBundle | src/object_model.cpp:1493-1512 | adds the service object, or a diagnostic |
| SnapshotTree.PlacesDiffer | src/object_model.cpp:1251-1512 | two nodes of any resources share a path only if they are the same node of the same resource, or the folder of two resources of one category |
| SnapshotTree.MappedExactly | src/object_model.cpp:1271-1512 | a resource can be mapped iff discovery found no error and its live answer is of its kind: an operation with a schema, which for a mandatory one at the root has no inputs and just the required output; a property or attribute with a value, whether or not it can be assigned; a port with exactly one direction and a value, whether or not it keeps one; a provided service. Otherwise the diagnostic names it, as a mandatory schema or as unmappable |
| SnapshotTree.OutcomeByPlace | src/object_model.cpp:1271-1512 | a mapped resource contributes exactly one node for each of its places |
| SnapshotTree.SharedOnlyFolders | src/object_model.cpp:1251-1512 | in a plan without duplicates, distinct resources contribute disjoint nodes apart from identical category folders |
| SnapshotTree.RootIsApart | src/object_model.cpp:1514-1572 | no resource contributes the component's own node |
| SnapshotTree.SnapshotGrows | src/object_model.cpp:1514-1572 | appending one more resource to an exact snapshot keeps it exact: nothing is overwritten with something else |
| SnapshotTree.AppendResources | src/object_model.cpp:1548-1572 | the loop over the effective resources adds one diagnostic for each that cannot be mapped, and no other |
| SnapshotTree.SnapshotComponent | src/object_model.cpp:1514-1572 | the diagnostics are those of the plan and one for each effective resource that cannot be mapped; without any, the snapshot holds exactly the root and the nodes of the effective resources |
| SnapshotTree.ParentsPresent | src/object_model.cpp:1514-1572 | every node's parent is in the snapshot or is the shared components node, one level higher |
| SnapshotTree.ParentsFirst | src/object_model.cpp:2095-2147 | in depth-then-path order the component's node comes first and every other parent before its children |
| PublishedNodes.PublishedOperation | src/object_model.cpp:1271-1360 | a published operation is a method `operations/<name>` below its service, with its argument types, and with `rttInputTypes`, `rttOutputTypes` and `rttOutputSources` iff there are inputs, outputs and outputs |
| PublishedNodes.PublishedProperty | src/object_model.cpp:1362-1422 | a published property is a variable `properties/<name>`, writable iff it can be assigned, with its type in `rttType` |
| PublishedNodes.PublishedAttribute | src/object_model.cpp:1362-1422 | so is an attribute, below `attributes` |
| PublishedNodes.PublishedPort | src/object_model.cpp:1424-1491 | a published port is an object `ports/<name>` with `type`, `direction` and `description`, and a `value` iff it is an input or keeps its last sample |
| PublishedNodes.PublishedService | src/object_model.cpp:1493-1512 | a published service is an object `services/<name>` in the folder of its owner's services, with its own document |
| PublishedNodes.PublishedComponentNode | src/object_model.cpp:1514-1545 | the component is an object below the shared components node |
| AddressSpace.ReachesStaysInClosed | src/object_model.cpp:1574-1604 | once no reference leads out of a set, nothing outside it can be reached from inside |
| Rollback.CollectDescendants | src/object_model.cpp:1574-1604 | on any finite graph the worklist terminates with exactly the nodes reachable from the root, less the root |
| Rollback.DetachForeignReferences | src/object_model.cpp:1612-1651 | when it succeeds no hierarchical reference leads out of the created nodes; it only removes references from created to foreign nodes |
| Rollback.DeleteOwned | src/object_model.cpp:1653-1707 | after the detach even a deletion that cascades at will takes only owned nodes |
| Rollback.RemoveDescendants | src/object_model.cpp:1653-1707 | the deletions below one recursive root take only owned nodes; when no request fails, every owned node below the root is gone and counted as removed, and whatever else is gone was within reach of one of them |
| Rollback.RollBackEntry | src/object_model.cpp:1665-1705 | one turn of the reverse walk takes only owned nodes; when no request fails, its result is one of the possible turns, whatever the deletions cascade to |
| Rollback.RollbackCreatedNodes | src/object_model.cpp:1653-1707 | for any graph, ledger and cascading delete: nothing outside the ledger is deleted, and a rollback that reports completion has removed the whole ledger; when no request fails, it ends as one of the possible walks, and completes over an orderly ledger, so in particular when every reference among the ledger nodes leads from an earlier to a later entry |
| Cascades.CompletesWhateverCascades | src/object_model.cpp:1664-1706 | with no failed request, the walk completes for all possible cascades iff the ledger is orderly: walking back, a node that is deleted alone has nothing left below it, and a recursive root is still there and on no cycle |
| Cascades.ForwardIsOrderly | src/object_model.cpp:1664-1706 | references that lead from earlier to later entries only make an orderly ledger |
| Cascades.BackReferenceMayFail | src/object_model.cpp:1685-1693 | a ledger of two nodes with a reference back to the first: deleting the second may take the first along, which is then missed |
| Publication.CreateNode | src/object_model.cpp:341-354 | a creator may fail before or after its node exists, and reports which |
| Publication.CollectArguments | src/object_model.cpp:420-434 | the argument nodes found are added to the ledger, and any other property is noticed |
| Publication.CheckArguments | src/object_model.cpp:436-467 | accepted iff the arguments are exactly the inputs and outputs that the method's schema calls for |
| Publication.RecordMethodArguments | src/object_model.cpp:403-468 | all argument nodes enter the ledger, or none does because they could not be browsed; success means they are complete |
| Publication.CreateAndRecord | src/object_model.cpp:2095-2147 | one turn creates the node and its arguments on the ledger, touching no other node |
| Publication.CreateCandidate | src/object_model.cpp:2095-2147 | success means exactly the candidate's nodes, each below its parent with the reference its link calls for, plus the argument nodes that its methods call for; failure leaves all that was created on the ledger, but for strays; unless others link the new nodes elsewhere, every reference leads from an earlier to a later entry of the ledger; on free paths below the roots it succeeds unless a request fails |
| ObjectModel.ObjectModel.EnsureRoots | src/object_model.cpp:2177-2241 | adds at most the shared roots, and remembers them only when all are there |
| ObjectModel.ObjectModel.Build | src/object_model.cpp:2149-2175 | after a failed build whose rollback completed, at most shared roots and strays are left of it; whatever failed during creation, the rollback completes if none of its own requests fails and nobody linked the new nodes elsewhere, however deletions cascade; a candidate for which there is room is built unless a request failed before the rollback |
| ObjectModel.ObjectModel.Transaction | src/object_model.cpp:1899-1972 | commits exactly when the candidate was built; otherwise components and revision are as before, and an incomplete rollback, which needs a request that failed after it began or a foreign link, is kept on the abandoned list |
| ObjectModel.InvokedMeansRan | src/object_model.cpp:1907-1957 | the callback of a publication does not throw, so invoke returning true means that it ran once, and returning false that it never runs, in all states of the server to come |
| ObjectModel.ObjectModel.TakeSnapshot | src/object_model.cpp:1514-1572 | the snapshot as a value: its problems are exactly what speaks against the plan and the effective resources, and without problems it is exact for the effective set |
| ObjectModel.ObjectModel.Republish | src/object_model.cpp:1800-1854 | a name is accepted again iff instance and mode agree and, when selective, the effective set is the same and nothing speaks against the plan; a refusal names the first difference, or all that speaks against the plan; the component stays as it is |
| ObjectModel.ObjectModel.PublishNew | src/object_model.cpp:1856-1978 | rejected iff something speaks against the component, with exactly that and without touching a node; otherwise committed, for this instance, mode and effective set, with exactly its nodes, or undone; with room, and undisturbed before any rollback, it commits |
| ObjectModel.ObjectModel.PublishComponent | src/object_model.cpp:1783-1978 | the answer is that of the state it is admitted in: shutting down iff closed; for a known name accepted or refused as by `Republish`; for a new one not running, without type registry, bad timeout, in this order and for no other reason; then rejected iff the findings are not empty, with exactly these; else committed or failed. A commit adds exactly one component, of this instance, mode, effective set and live answers, also when another thread closes the model meanwhile; every other outcome leaves components and revision as they were; a transaction fails only disturbed or without room; a rollback is incomplete only over a request that failed after it began or a foreign link |
| ObjectModel.NoReasons | src/object_model.cpp:1166-1217 | nothing speaks against a component iff nothing is discovered twice, no selector is reported, nothing mandatory is missing and every effective resource can be mapped |
| ObjectModel.ObjectModel.BeginShutdown | src/object_model.cpp:2015-2015 | closes admission and changes nothing else; it needs no mutex, so it may come in the middle of a publication |
| ObjectModel.ObjectModel.Shutdown | src/object_model.cpp:2017-2040 | the first call hands over all components and abandoned resources, later calls find nothing |
| ObjectModel.LifeOfAModel | src/object_model.cpp:1788-1933 | over any run, closed at any moment by any thread: a committed component's instance, mode, effective set and nodes never change before shutdown, and the revision equals the number of components until then and never falls; after closing at most the publication admitted before commits, and after the detach nothing does |
| ObjectModel.ClosedIsSettled | src/object_model.cpp:1788-1933 | once the model is closed, revision and names stay as they are in every continuation iff no admitted publication of a new name is in flight |
| ObjectModel.CommitAfterClosing | src/object_model.cpp:1788-1933 | a run in which a publication is admitted, the model is closed, and the publication commits |
| Staging.Discover | src/client_session.cpp:405-993 | a discovery loop succeeds iff every child can be read and no name occurs twice, and returns what they were read as |
| Staging.FolderIsExact | src/client_session.cpp:405-993 | a folder can be read iff each of its named components of the class browsed for can be read and no two come out under one name; the result is then exactly what these were read as |
| Staging.ReadsOperation | src/client_session.cpp:405-564 | an operation is read from its method and three lists, a missing list being empty; a list of another type is unreadable; outputs and sources must be as many, and the inputs as many as the method has unless it has none |
| Staging.ReadsValue | src/client_session.cpp:566-709 | a property or attribute needs its type as a text, and can be written iff its node can |
| Staging.ReadsPort | src/client_session.cpp:852-993 | a port is read iff type, direction and a sample of that direction are there; only an output without a sample is left out |
| Staging.ReadsService | src/client_session.cpp:755-850 | every object in the folder is a service, but for one called `this` |
| Staging.ValidateRequiredRootOperations | src/task_context_proxy.cpp:95-116 | accepted iff every required operation is there without inputs and with its one output type |
| Staging.BuildOperations | src/task_context_proxy.cpp:215-220 | the loop over the operations of a service gets through iff the constructor of a remote operation accepts every description |
| Staging.BuildFolders | src/task_context_proxy.cpp:215-265 | a service is built iff every description is accepted, every property can be written, and the client has values of every type of property, attribute and port |
| Staging.StageRemoteService | src/task_context_proxy.cpp:161-276 | the recursion over services succeeds iff every folder can be read, everything in it can be built and no service is deeper than allowed, and returns the service tree |
| Staging.StagedIsUsable | src/task_context_proxy.cpp:161-276 | whatever the address space holds, at every depth of a staged tree, at most 32, the constructor takes every operation, properties can be written and all values have a type; the root has every required operation |
| PublishedFolders.FolderMatches | src/client_session.cpp:405-993 | reading a category folder of published nodes gives exactly the effective resources of that owner and kind |
| StagedTree.StagingMatches | src/task_context_proxy.cpp:161-276 | staging from any published service gives the tree of effective resources below it, or fails over one of them that cannot be built |
| VisibleResources.BuiltResourceByResource | src/task_context_proxy.cpp:215-265 | the recursive check of all folders is the plain one: every visible resource can be built |
| VisibleResources.OwnersAreStaged | src/task_context_proxy.cpp:161-276 | every visible resource hangs in the staged tree below the services that own it |
| StagingRoundTrip.MandatoryOperationsAreProper | src/object_model.cpp:61-71 | the eight mandatory names are distinct and none is the empty name or NUL, so each has a path of its own |
| StagingRoundTrip.PublishThenStage | src/task_context_proxy.cpp:161-276 | publishing, then staging rebuilds exactly the effective resources as a service tree, less output ports without a value, iff the client can build each visible one: operations with an acceptable description, properties that can be assigned, values and ports of types it has values of; the required operations are always found |
| ClientTypes.TypesOfServerSuffice | src/operation_dispatcher.cpp:306-397 | a client with the server's types can build all it sees iff each visible property can be assigned and each visible operation collects its outputs in the order of its mutable arguments |
| ClientTypes.RegularOperationsSuffice | src/task_context_proxy.cpp:215-235 | if moreover the visible operations are regular, as for `RemoteOperation.RegularIsAccepted`, only the properties count |
| ClientTypes.SnapshotExists | src/object_model.cpp:1514-1572 | resources that can all be mapped have a snapshot |
| ClientTypes.RefusedOperationStopsStaging | src/remote_operation.cpp:345-376 | any published component with any visible operation that is not mandatory, given an argument `A const&` before its output: still published, and staged by no client |
| EndToEnd.CommittedIsStaged | src/object_model.cpp:1856-1978 | a component committed in some state of a run is there, unchanged, in every later one until shutdown, and a client then stages exactly its effective resources iff it can build each visible one |
| ServerSafety.RunKeepsInv | src/server.cpp:103-434 | every interleaving keeps: unfinished tasks in order and exactly those not done, executed ones in order and once, reports true to their tasks, and the lifecycle conditions |
| ServerSafety.AtMostOnceInOrder | src/server.cpp:388-410 | in every run each callback runs at most once, and callbacks start in the order in which they were queued |
| ServerSafety.TimedOutNeverRuns | src/server.cpp:246-258 | an invoke that reported a timeout never has its callback run later, not even after a restart |
| ServerSafety.ReportIsExact | src/server.cpp:246-261 | an answered invoke reports true iff its callback ran, once, and threw nothing or an exception without a text |
| ServerSafety.FalseMeansThrewOrNeverRuns | src/server.cpp:233-261 | an invoke that reported false saw its callback throw, or the callback never runs |
| ServerSafety.NeverStranded | src/server.cpp:246-258 | in the second, untimed wait the task is complete or being executed by the server thread |
| ServerSafety.StopIsFinal | src/server.cpp:152-160 | once a stop request is through, the server is not running again before a launch |
| ServerSafety.OnlyLaunchWithdraws | src/server.cpp:103-150 | no step but the launch of a new thread withdraws a stop request |
| ServerSafety.RequestEndsTheLoop | src/server.cpp:352-371 | in every run, a thread that comes to its loop test while a stop is requested never iterates again before the next launch: it takes the queue for the last time and, once that is drained, closes the server |
| ServerSafety.StoppedQueueStaysEmpty | src/server.cpp:162-192 | a stopped server has an empty queue, and it stays empty until the server runs again |
| ServerSafety.SilentThrowReportsTrue | src/server.cpp:246-261 | a reachable state in which a callback threw and its invoke reported true |
| ServerSafety.FailedQueueMayHoldTasks | src/server.cpp:371-380 | a reachable state of a failed server with a queued task |
| Server.Server.DrainTasks | src/server.cpp:388-410 | every task in the queue is seen through: its callback ran once or its client had given up, whatever the other threads do meanwhile |
| Server.Server.RunTask | src/server.cpp:395-409 | one turn of the loop resolves the next task and leaves the rest of the batch |
| Server.Server.FailPendingTasks | src/server.cpp:412-421 | every task left in the queue is answered without having run; after a regular end the queue stays empty |
| Server.Server.ServeOnce | src/server.cpp:352-361 | one turn of the serving loop finds a stop request that was there before, drains, and leaves the loop iff it found one or the native server threw; then it closes regularly or over the exception |
| Server.Server.Serve | src/server.cpp:352-371 | the serving loop goes on only while no stop is requested and nothing throws; it is left over a stop request, or over an exception |
| Server.Server.Run | src/server.cpp:281-386 | the thread is still serving only if it started, nobody requested a stop and nothing threw; it ends failed if the startup or the closing failed, stopped if nothing did, and stopped means that every task that ever was queued is answered |
| Server.Server.Stop | src/server.cpp:162-192 | after stop the server is not running; once it has joined the thread it is stopped, the queue is empty and every task is answered; it ends without joining only with the stop requested, on the server thread itself or while that thread has not ended |
| Server.Server.Start | src/server.cpp:103-150 | true iff the server is running; false leaves no thread; a running server is left alone; it waits only for a thread to end, or for the startup |
| Server.Server.Invoke | src/server.cpp:233-261 | a timeout means the callback never runs, true means it ran once, false without an exception means it never runs, and who still waits is not stranded |
| Leases.ComponentLease.constructor | src/component_state.hpp:32-45 | a lease is taken iff admission is open, the component active and present; then it is counted |
| Leases.ComponentLease.Move | src/component_state.hpp:52-54 | a move passes the hold on without changing the count |
| Leases.ComponentLease.Assign | src/component_state.hpp:56-63 | assignment releases what was held and takes over the other hold; assigning to itself changes nothing |
| Leases.ComponentLease.Release | src/component_state.hpp:70-81 | the component no longer counts this lease, and counts every other |
| Leases.ComponentState.Deactivate | src/component_state.hpp:87-95 | no lease is admitted any more, and the pointer goes iff no lease holds the component |
| ShutdownProtocol.LeasesAreCounted | src/component_state.hpp:30-95 | in every run the user count is the number of live leases across retained and moved calls, and a held lease sees the component |
| ShutdownProtocol.WaitedOperationsKeepTheComponent | src/operation_dispatcher.cpp:508-521 | from the wait loop on, a component outlives every operation under way |
| ShutdownProtocol.LeaseDroppedInFlight | src/operation_dispatcher.cpp:489-506 | a step drops a lease whose operation is under way iff it is an early return after sending |
| ShutdownProtocol.EarlyReturnDropsTheLease | src/operation_dispatcher.cpp:489-506 | a reachable state, after an early return and a shutdown, in which the component is gone while a sent operation is under way |
| ShutdownProtocol.ShutdownIsClean | src/object_model.cpp:2017-2040 | once shutdown is through every component has no users and no pointer, no call is retained or holds a lease, and no lease can be taken |
| ShutdownProtocol.ShutdownIsFinal | src/object_model.cpp:2017-2040 | and no later step of any thread changes that or begins a call |
| Dispatcher.Dispatcher.Invoke | src/operation_dispatcher.cpp:399-527 | no lease, no call; in the wait loop the answer is given iff the operation is complete when the wait ends, and the lease is back; a timeout leaves the lease in the list, or the operation complete; a thread still waiting has an operation that is not |
| Dispatcher.Dispatcher.RetainPending | src/operation_dispatcher.cpp:251-270 | the list takes no call once it is draining; a thread left to wait keeps the component alive |
| Dispatcher.Dispatcher.ReapOnce | src/operation_dispatcher.cpp:272-276 | every retained call whose operation was complete has given its lease back, no other call is touched |
| Dispatcher.Dispatcher.Drain | src/operation_dispatcher.cpp:215-235 | returns only with an empty list that takes nothing more; goes on only while a call is retained |
| Dispatcher.Dispatcher.Shutdown | src/object_model.cpp:2017-2040 | when it gets through, nothing holds a lease, no component is left and none can be leased, whatever calls do meanwhile; it waits only for a retained call or a component in use |
| RemotePort.ClientSession.WritePortValue | src/client_session.cpp:1114-1148 | sends nothing without access and a connection; accepted iff the answer is good; an exception, a lost connection or one of the listed statuses other than not connected ends the interface, at once and without access; any other answer leaves it as it was |
| RemotePort.ClientSession.ReadPortValue | src/client_session.cpp:1066-1112 | yields the sample iff the answer is good; an exception, a lost connection or one of the listed statuses other than not connected ends the interface; missing data, an inactive component and any other answer leave it as it was |
| RemotePort.ClientSession.CallOperation | src/client_session.cpp:1158-1234 | needs a connection but no access; succeeds iff the answer is good, and an exception, a lost connection or any of the listed statuses, here also not connected, ends the interface; any other answer leaves it as it was |
| RemotePort.RemotePortAdapter.PumpInput | src/remote_port.cpp:147-181 | takes the offered sample iff none is pending; sends the pending sample iff the session is usable and the sample encodes; counts it as delivered iff the server accepts it; never sends one whose write ended the interface |
| RemotePort.RemotePortAdapter.PumpOutput | src/remote_port.cpp:183-227 | fetches a sample iff none is pending, and offers it until the local port takes it |
| RemotePort.RemotePortAdapter.DiscardPendingState | src/remote_port.cpp:127-136 | the pending sample goes on record as discarded, exactly once |
| RemotePort.RemotePortAdapter.TransferPendingStateTo | src/remote_port.cpp:114-125 | swaps everything pending with an adapter of the same identity, and changes nothing otherwise |
| RemotePort.WroteKeepsAcknowledged | src/remote_port.cpp:147-181 | a turn keeps: what the port counts as delivered are the last samples that the server accepted for it |
| RemotePort.WroteKeepsOrder | src/remote_port.cpp:147-181 | a turn keeps: the writes of a port are in the order of its samples, and only a refused sample is written again |
| RemotePort.AcceptedAtMostOnce | src/remote_port.cpp:147-181 | these are samples that the port took, each at a position of its own and in order; all others were discarded, but for at most one that is pending |
| RemotePort.SettledIsNotResent | src/remote_port.cpp:147-181 | in an ordered log of writes, positions never go back, and a sample whose write was accepted or ended the interface has no later write |
| Proxy.Proxy.PumpPort | src/task_context_proxy.cpp:676-694 | one adapter's turn keeps the delivery record of every port |
| Proxy.NeverSentAgain | src/task_context_proxy.cpp:676-694 | in every state of a proxy, over all writes ever sent and all adapters of a port: a sample is not written again after an exception, after a good answer, after a lost connection, or after any of the listed statuses other than not connected |
| Proxy.Proxy.PausePortPump | src/task_context_proxy.cpp:522-527 | afterwards no round is under way and none begins |
| Proxy.Proxy.MarkInterfaceStale | src/task_context_proxy.cpp:508-514 | leaves a stale, paused interface without access and without pending samples |
| Proxy.Proxy.MarkInterfaceFresh | src/task_context_proxy.cpp:516-520 | access comes back together with freshness |
| Proxy.Proxy.CanReplacePortAdapters | src/task_context_proxy.cpp:566-588 | accepted iff every pending sample has a replacement port of its identity |
| Proxy.Proxy.ReplacePortAdapters | src/task_context_proxy.cpp:590-606 | each new port goes on with exactly what its namesake held, its record included |
| Proxy.Proxy.ResumePortPump | src/task_context_proxy.cpp:608-617 | a stale interface stays paused |
| Proxy.Proxy.Synchronize | src/task_context_proxy.cpp:791-908 | only clean outcomes: success is ready, fresh, connected and with access, and the new interface offers a namesake for all that was pending; it is refused, keeping the interface, its samples and access, iff it can be read and lacks one; any other failure needs an unreachable server, an unreadable interface or a failing installation, and is stale, paused, without access or pending samples; on success every new port goes on where its namesake stopped |
| Proxy.Proxy.InvokeOperation | src/task_context_proxy.cpp:360-405 | returns iff the interface is ready and fresh and a compatible answer comes; any failure leaves a stale interface without pending samples |
| Proxy.HandOverAll | src/task_context_proxy.cpp:595-601 | the nested loops move every old port's contents to its namesake and leave the others empty |
| RemoteOperation.IsMutableReference | src/operation_dispatcher.cpp:50-63 | the trimming loops decide whether the text is a reference that is not const |
| RemoteOperation.MutableText | src/operation_dispatcher.cpp:50-63 | a text within any white space reads as mutable iff it ends in `&` and does not begin with `const ` |
| RemoteOperation.ArgumentTextIsReadBack | src/remote_operation.cpp:384-396 | the text written for an argument is read back as mutable or not iff its type name, if mutable, is neither `const` nor starts with `const ` after leading space, and, if by value, does not end in `&` after trimming unless it starts with `const ` |
| RemoteOperation.Describe | src/operation_dispatcher.cpp:306-397 | an operation is described iff all its types have values or it returns nothing, and every collected value has a source; every output then has one source, the return value first and then the mutable arguments in order |
| RemoteOperation.DescribedSources | src/operation_dispatcher.cpp:343-395 | the sources of a described operation: -1 for the return value, if there is one, then the mutable arguments in order, as many as are collected and none twice |
| RemoteOperation.MutableFromIsExact | src/operation_dispatcher.cpp:348-353 | the collected indices are exactly the mutable arguments |
| RemoteOperation.BuildRemoteOperation | src/remote_operation.cpp:316-398 | the constructor accepts a description iff its types are known, its sources are distinct, in range and of the argument's type |
| RemoteOperation.DescriptionIsAccepted | src/remote_operation.cpp:316-376 | a client with the server's types accepts what the server describes iff, after the return value, the k-th collected type is that of the k-th mutable argument and that argument exists |
| RemoteOperation.RegularIsAccepted | src/operation_dispatcher.cpp:306-397 | so it accepts every operation whose argument list is as long as its arity and whose collected types follow its mutable arguments |
| RemoteOperation.RefusedDescription | src/operation_dispatcher.cpp:50-63 | arguments written `A const&` and `B &`: the server describes the operation with a source of the wrong type, which no client accepts |
| RemoteOperation.RebuiltDescribesTheSame | src/remote_operation.cpp:316-437 | under the same assumptions, describing the operation that the client rebuilt gives the same type lists and output sources iff no mutable argument has a const name and no argument by value, before some mutable argument, has the name of a reference |
| RemoteOperation.MisreadDescription | src/remote_operation.cpp:384-396 | an argument by value of a type named `T&` before a mutable one: the rebuilt operation is accepted, its description names the wrong source, and no client accepts that one |
| RemoteOperation.EncodeArguments | src/remote_operation.cpp:54-74 | the server decodes exactly the values that the caller passed |
| RemoteOperation.AssignCallOutputs | src/remote_operation.cpp:76-102 | the loop assigns all outputs in order, or reports failure |
| RemoteOperation.AssignedValues | src/remote_operation.cpp:76-102 | after any number of outputs, exactly the destinations named so far hold what the server's call left in them |
| RemoteOperation.RemoteCallRefinesLocal | src/operation_dispatcher.cpp:442-487 | when the outputs come back, the caller's return value and arguments are what the local call would have made of them |
| ProviderOrder.ComputeProviderOrder | src/datatype_registry.cpp:125-186 | succeeds iff every dependency exists and the graph is acyclic; a cycle report names exactly the providers that cannot be ordered, sorted, and they contain a cycle |
| ProviderOrder.CountDown | src/datatype_registry.cpp:138-172 | the counting loop orders what the simple schedule orders, which always takes the least provider whose dependencies are ordered |
| ProviderOrder.ScheduleCompletes | src/datatype_registry.cpp:174-186 | the schedule is a dependency order of all providers iff the graph is acyclic, iff it has as many entries as there are providers |
| ProviderOrder.ScheduleIsLeast | src/datatype_registry.cpp:156-172 | no dependency order is lexicographically before it, so it does not depend on the order of registration |
| ProviderOrder.StuckProviders | src/datatype_registry.cpp:174-186 | the providers left over are exactly those that still wait on one another |
| DataTypeRegistry.Registry.ValidateAndNormalize | src/datatype_registry.cpp:62-123 | accepted iff the sorted provider is well formed and claims only NodeIds that nobody holds |
| DataTypeRegistry.Registry.Register | src/datatype_registry.cpp:221-250 | accepted iff identical to the registered provider of its name, or new, acceptable and before the freeze |
| DataTypeRegistry.RegisteredAsGiven | src/datatype_registry.cpp:221-250 | a provider is accepted iff it is then registered as given, up to the order of its dependencies, and is accepted again without effect; no other provider changes, and what is refused changes nothing |
| DataTypeRegistry.ClaimsOfDefinition | src/datatype_registry.cpp:90-118 | each definition claims its type and its encoding NodeId in its namespace |
| DataTypeRegistry.Registry.Freeze | src/datatype_registry.cpp:258-279 | the registry is frozen once, with an order, or stays open if there is none |
| DataTypeRegistry.Registry.FrozenProviders | src/datatype_registry.cpp:283-297 | returns all providers, in the frozen order |
| DataTypeRegistry.SortedForgetsOrder | src/datatype_registry.cpp:62-123 | normalisation forgets the order of dependencies and nothing else |
| DataTypeRegistry.RunsKeepInvariant | src/datatype_registry.cpp:221-279 | over any sequence of calls all type and encoding NodeIds are pairwise distinct, registered providers never change, and nothing changes after the freeze |
| DataTypeRegistry.FrozenAcceptsOnlyIdentical | src/datatype_registry.cpp:221-250 | after the freeze a registration succeeds iff that provider is registered, with its dependencies in any order |
| EndpointTypeRegistry.Create | src/endpoint_type_registry.cpp:61-198 | an endpoint registry has every definition of the frozen order bound; there is none only for an improper namespace table, a registry without an order, an unknown namespace, a factory that does not build what is defined, or an RTT type whose codec cannot be bound |
| EndpointTypeRegistry.EndpointRegistry.Bind | src/endpoint_type_registry.cpp:91-144 | succeeds iff all namespaces are known and every factory, seeing exactly the earlier types, builds what is defined; then all are bound in order within the reserved storage, so every stored handle stays valid |
| EndpointTypeRegistry.FrozenProvidersAreOrdered | src/endpoint_type_registry.cpp:91-144 | what a frozen registry hands out can be bound: dependencies first, all NodeIds distinct |
| EndpointTypeRegistry.DependenciesAreVisible | src/endpoint_type_registry.cpp:111-144 | when a definition is materialised, every definition of every dependency of its provider is visible |

## Left out

- The text of error messages, logging, warning sinks, fingerprints and allocation failure: only the kind of a diagnostic and whether there is one are kept.
- open62541 and the network: status results and a finite graph of nodes and hierarchical references stand for them; namespaces, wire encoding and user access are not part of the model.
- RTT's engine and ports: an operation is under way or complete, a port offers a sample, is connected, or takes one.
- EndpointTypeRegistry.EndpointRegistry.Bind: ends with the custom types; whether the codecs that follow in the code can be bound is the parameter `codecsBind` of `EndpointTypeRegistry.Create`.
- Type codecs and connection policies: a codec is a parameter with a round trip assumed where it is needed (`RoundTrips`).
- Progress and time: a timeout is a step that may happen at any moment; waits either see their condition or are left open (`StillWaiting`, and the results `through`, `joined` and `drained` being false); the contracts say what is then still waited for.
- Server.Server.Start: has valid options. A server's options never change, so a server with invalid options never has a thread, and the step of the transition system that fails over them requires that there is none.
- invoke on the server thread itself: runs its task directly and touches no shared state; it is not part of the transition system, and publishing from that thread is not modelled.
- Dispatcher.Invoke: an exception thrown by `collectIfDone` or by a future counts as completion of the operation, as in the code.
- Inventory diagnostics are sorted and made unique in the code: the model keeps them as found; only their emptiness and their order after fatal ones matter to the results.
- SnapshotTree.SnapshotComponent: takes the root service as present; a component without one is covered by `PublicationPlan.DiscoverInventory`.
- AddressSpace.Space.AddNode: others may link a new node to anything but an existing argument node; the code would record any local variable called InputArguments or OutputArguments that a new method has as a property, even one that was there before.
- Staging.BuildFolders: RTT's factories for data sources, properties, attributes and ports are taken to succeed for types with values, and RTT's type `Void` to be registered.
- Staging.Discover: the vectors of descriptions, sorted and free of duplicate names, are maps by name; a duplicate name is an error, as in the code. The client reads the nodes of its own component, as they were published.
- Quarantined port adapters: adapters whose removal failed are only kept alive; they take no part in pumping.
- Proxy.InvokeOperation: the pump's concurrent turns are those of `Proxy.Idle` before and after it and of `PausePortPump` within it.
- Dispatcher.ReapOnce: the vector of retained calls is the set of calls in phase `Retained`; its order plays no role.
- Port bridges, value callbacks, server options, endpoint texts and the plugin entry point: single-branch wrappers.
