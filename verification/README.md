# Verified model of the CloudWatch agent operator

This project models the parts of the operator that keep state or rewrite what users gave it, and proves what they are
for. `dafny verify dfyconfig.toml` checks all of it.

* **Target allocator** (`Diff`, `Allocation`, `AllocationHistory`, `Discovery`, `Replay`, `CollectorWatch`,
  `CollectorPods`). A class with the fields of the consistent-hashing allocator and three redundant views of one
  assignment: the stored targets, the count of each collector, the nested index. Every method is proved against a
  function from state to state; the store and the index stay in step through the half-relocated states too, and by how
  much each count is off is known throughout. Over that function: after any history of calls a target is where the ring
  locates its address, the assignment is what the last non-empty collector set and the targets as they were introduced
  call for, and replicas agree exactly if these coincide. Discovery says when hashes tell targets apart, and a replay
  runs the class over any discoveries and collectors.
* **Change notification** (`EventSender`). Handlers, the ticking sender with its one-slot channel, and the main loop as
  a step system. No change is lost over any interleaving as long as loads succeed, and what becomes of one that fails is
  known exactly.
* **Environment injection** (`Strings`, `Env`, `ResourceAttributes`, `SdkInjection`, `SdkLaws`, `SdkContents`,
  `JavaInjection`). The environment of a container as it is rewritten in place; the print and parse round trip of
  resource attributes; what an injected environment says, the user before the pod before the resource; when a second
  injection changes nothing; who is injected at all; the four layers of precedence.
* **Reconciliation** (`Manifests`, `Cluster`, `Reconcile`, `Convergence`). Mutation of live objects in place, an API
  server whose calls may fail, the configure and prune round, and convergence from any cluster.
* **Annotations** (`Annotations`, `Annotators`, `Monitor`). The inverted index of mutators and the direct walk over the
  languages, proved against one declarative meaning.
* **Names and ports** (`Naming`, `Ports`). Truncation, DNS labels, and the accumulation of service and container ports.

Where Go iterates over a map in no particular order, the model picks elements in any order, so the results hold for
every order.

## Findings

Each of these is a property one might expect that the code does not have in general. The lemmas named say exactly when
it does and when it does not, or show an input for which it does not.

* A failed load or a failed application of a configuration is not retried by itself. It is made up for by the next
  resync of an informer, as long as a store has an object, or by a notification in flight; and a configuration that could
  not be applied is applied together with the configuration file (`EventSender.FailureIsMadeUpFor`, exactly). It is lost
  until a store changes if the last object was deleted and nothing else is under way (`EventSender.FailedLoadLosesUpdate`,
  `EventSender.LossIsReachable`).
* A target that arrives with the name of a collector takes one off that collector's count. The count stays one too low,
  also after the target is gone, until that collector goes; nothing else disturbs the accounts
  (`Allocation.ConsistentHashingAllocator.SetTargets`, `Allocation.ConsistentHashingAllocator.HandleRemovals`,
  `Allocation.ConsistentHashingAllocator.SetCollectors`). The discoverer names no collectors.
* The hash of a target is its job, its address and the fingerprint of its labels without separators. As the labels have
  the address, this tells discovered targets apart (`Discovery.RegularIsToldApart`) but in two cases: two label sets have
  the same fingerprint (`Discovery.FingerprintCollides`), or a group of targets sets the address
  (`Discovery.GroupAddressCollides`). A key that is held is not looked at again, so replicas that have seen two targets
  of one hash may disagree (`AllocationHistory.CollidingHashesDisagree`; exactly when, `AllocationHistory.ReplicasAgree`).
* A pod that ends while no watch is open stays among the collectors, although the next watch shows all pods there are,
  until a pod of that name starts and is seen to end (`CollectorPods.MapIsRight`, `CollectorPods.EndIsMissed`).
* Asking for the pod UID overrides the UID the user set (`SdkLaws.UserKeysAreNotRepeated`) and makes every injection add
  it once more (`SdkLaws.InjectingTwice`).
* Attribute keys with commas, equals signs or leading space are added again by each injection
  (`SdkLaws.UncleanKeyNeverSettles`). Two attributes entries take turns (`SdkLaws.TwoEntriesTakeTurns`) unless they agree
  with what the first injection makes of the first one (`SdkLaws.InjectingTwice`).
* An environment variable the container defines without a value is defined a second time by the language layer
  (`JavaInjection.EmptyEntryIsRepeated`, exactly when in `JavaInjection.NamesStayDistinct`).
* Two owners in one namespace can carry the same label, if a name has 62 characters or more: then nothing of the
  namespace is in the label, and what is kept of the name can be that of another long name, or the namespace, a dot and
  a short name (`Naming.LabelsTellApart`). Owners with the same labels in one namespace prune each other's objects
  (`Convergence.SharedLabelsPrune`).
* The embedded metric format is left without TCP if a receiver that comes before asks for its port number and no receiver
  asks for that number with TCP (`Ports.EmfIsServed`).
* `DNSName` compares the byte offset of a character with the number of characters, so behind characters of several bytes
  the last one may become a hyphen (`Naming.DnsNameIsLabel`, `Naming.AccentHidesEnd`).
* The comment on `Truncate` says that it does nothing if the fixed part is too long; the code cuts the text at the limit
  (`Naming.TruncatedFits`, `Naming.FixedPartIsCut`).

## Assumptions

* The hash ring is a function from a non-empty member set and a key to a member of the set. The address of a target
  decides its key, maps are keyed by hash and by collector name, and collectors have names.
* A label set has a fingerprint of 16 digits; results that need different label sets to have different fingerprints say
  so. What the relabelling hook decides depends on the job and the labels of a target, and may change between calls.
* The API server shows a watch that does not say where to start all pods there are.
* The API server is written to by nobody else during a round, a failing call has no effect, identities are never handed
  out twice, and of the defaults the server fills in only the volume mode of claims matters.
* Merging maps lets the second one win. Merging specifications is an unknown function; results that need it to have
  nothing to do the second time say so.
* Lower case is a function from characters to characters that leaves the number of characters alone.

## Model

| member | source | states |
|---|---|---|
| `Diff.Maps` | cmd/amazon-cloudwatch-agent-target-allocator/diff/diff.go:32-52 | the difference of two maps: additions are the new keys and the keys whose hash changed, removals the old ones of both kinds |
| `Diff.ApplyingDifference` | cmd/amazon-cloudwatch-agent-target-allocator/diff/diff.go:29-52 | applying the difference to the current map gives the new one, up to values whose hash says they are the same |
| `Diff.DifferenceOfKeyed` | cmd/amazon-cloudwatch-agent-target-allocator/diff/diff.go:29-52 | for maps keyed by hash no retained key is touched: additions are exactly the keys that are new, removals exactly those that are gone |
| `Diff.MergedByDifference` | cmd/amazon-cloudwatch-agent-target-allocator/diff/diff.go:29-52 | for maps keyed by hash, applying the difference keeps the retained values and takes the new ones from the new map |
| `Allocation.ConsistentHashingAllocator.SetTargets` | cmd/amazon-cloudwatch-agent-target-allocator/allocation/consistent_hashing.go:166-221 | the stored keys are exactly those of the targets the filter keeps, a retained target keeps its collector, a new one goes to its owner whatever collector it names, and the index is exact; without collectors targets keep the names they come with; each new target that names a collector takes one off that collector's count, so exact accounts stay exact if and only if none does (or, without collectors, names anything); the owner of a target is the member at which the ring locates its address, its parts written one after the other, whatever its job and labels, so targets of one address share a collector |
| `Allocation.ConsistentHashingAllocator.SetCollectors` | cmd/amazon-cloudwatch-agent-target-allocator/allocation/consistent_hashing.go:225-244 | an empty or unchanged set is ignored; otherwise all targets end up with their owners among the new collectors, where the ring locates their addresses and the index is exact; no count gets worse, except that a collector which stored targets named before it came is off by their number; exact accounts stay exact |
| `Allocation.ConsistentHashingAllocator.AddTargetToTargetItems` | cmd/amazon-cloudwatch-agent-target-allocator/allocation/consistent_hashing.go:97-110 | the target is stored with its owner, where the ring locates its address, and the index stays exact; the counts are as good as before if the target was entered in them, otherwise that of the collector it names comes out one too low, so exact counts stay exact if and only if it was entered or arrives without the name of a collector |
| `Allocation.ErrorsAfterAssigning` | cmd/amazon-cloudwatch-agent-target-allocator/allocation/consistent_hashing.go:99-108 | the same law for the errors of the counts, whatever they are: unchanged for a target that was counted, one lower for the collector any other target names |
| `Allocation.LoweredIsExact` | cmd/amazon-cloudwatch-agent-target-allocator/allocation/consistent_hashing.go:99-108 | after any number of arrivals exact counts are still exact if and only if none of them names a counted collector |
| `Allocation.ConsistentHashingAllocator.HandleRemovals` | cmd/amazon-cloudwatch-agent-target-allocator/allocation/consistent_hashing.go:115-126 | removed targets leave the store, their collector's count and its index row, nothing else changes, and no count gets better or worse |
| `Allocation.ConsistentHashingAllocator.HandleAdditions` | cmd/amazon-cloudwatch-agent-target-allocator/allocation/consistent_hashing.go:128-138 | additions whose key is stored are skipped, the others are stored and indexed with their owners, where the ring locates their addresses; each of these that names a collector takes one off that collector's count |
| `Allocation.ConsistentHashingAllocator.HandleTargets` | cmd/amazon-cloudwatch-agent-target-allocator/allocation/consistent_hashing.go:115-138 | the store becomes what the removals and then the additions make of it, an addition whose key is stored and not removed being skipped; retained targets stay where they are; the counts suffer from new targets that name a collector and from nothing else |
| `Allocation.ConsistentHashingAllocator.HandleCollectors` | cmd/amazon-cloudwatch-agent-target-allocator/allocation/consistent_hashing.go:143-161 | whole rows of removed collectors are dropped, then all targets are relocated; the index is exact in every half-way state and all targets end with their owners, where the ring locates their addresses; the errors of the counts carry over |
| `Allocation.ConsistentHashingAllocator.ReallocateAll` | cmd/amazon-cloudwatch-agent-target-allocator/allocation/consistent_hashing.go:157-160 | every stored target moves to its owner, where the ring locates its address, although its previous collector may be gone; the index of the collectors that exist is exact throughout, and the errors of the counts stay, but for targets that had not been entered |
| `Allocation.ConsistentHashingAllocator.DropCollectors` | cmd/amazon-cloudwatch-agent-target-allocator/allocation/consistent_hashing.go:144-150 | removing collectors keeps the accounts of those that remain exact |
| `Allocation.ConsistentHashingAllocator.InsertCollectors` | cmd/amazon-cloudwatch-agent-target-allocator/allocation/consistent_hashing.go:152-155 | new collectors start with empty accounts, which is exact because no target that has been entered names them |
| `Allocation.ConsistentHashingAllocator.AddCollectorTargetItemMapping` | cmd/amazon-cloudwatch-agent-target-allocator/allocation/consistent_hashing.go:81-89 | exactly one hash is added to exactly one cell of the nested index |
| `Allocation.ConsistentHashingAllocator.GetTargetsForCollectorAndJob` | cmd/amazon-cloudwatch-agent-target-allocator/allocation/consistent_hashing.go:246-262 | the listing has every stored target with that collector and job exactly once, and no missing entry |
| `Allocation.ConsistentHashingAllocator.GetAllTargetsByJob` | cmd/amazon-cloudwatch-agent-target-allocator/server/server.go:317-324 | one exact listing for each collector |
| `Allocation.CountsAddUp` | cmd/amazon-cloudwatch-agent-target-allocator/allocation/consistent_hashing.go:97-161 | once there are collectors, the counts add up to the number of stored targets |
| `Allocation.ListingsPartition` | cmd/amazon-cloudwatch-agent-target-allocator/allocation/consistent_hashing.go:246-262 | over all collectors the listings of a job hold every stored target of that job, and no target is in two of them |
| `Allocation.CountsAfterAssigning` | cmd/amazon-cloudwatch-agent-target-allocator/allocation/consistent_hashing.go:99-108 | moving a target between two counts keeps them exact if and only if it was counted where it came from, or came from nobody who is counted |
| `Allocation.IndexAfterAssigning` | cmd/amazon-cloudwatch-agent-target-allocator/allocation/consistent_hashing.go:99-107 | moving a target between two index cells keeps the index exact, for a previous holder that may no longer exist |
| `Allocation.ReplacementPlacesWell` | cmd/amazon-cloudwatch-agent-target-allocator/allocation/consistent_hashing.go:166-221 | replacing the target set leaves every target with its owner: with collectors, the member at which the ring locates its address, one for all targets of that address |
| `Allocation.RelocationPlacesWell` | cmd/amazon-cloudwatch-agent-target-allocator/allocation/consistent_hashing.go:143-161 | relocation leaves every target with its owner among the new members: the one at which the ring locates its address, one for all targets of that address |
| `Allocation.WellPlacedByAddress` | cmd/amazon-cloudwatch-agent-target-allocator/allocation/consistent_hashing.go:104-105 | with its owner means: with the member at which the ring locates the address, its parts joined without a separator; targets of one address have one collector, whatever their jobs and labels |
| `Allocation.JoinedInOrder` | cmd/amazon-cloudwatch-agent-target-allocator/allocation/consistent_hashing.go:104 | the parts of an address go into the key in their order, and a single part is the key |
| `AllocationHistory.ReachableWellPlaced` | cmd/amazon-cloudwatch-agent-target-allocator/allocation/consistent_hashing.go:166-244 | after any sequence of calls every target is with the owner among the last non-empty collector set, where the ring locates its address, and the keys are those of the last target set |
| `AllocationHistory.HistoryIsForgotten` | cmd/amazon-cloudwatch-agent-target-allocator/allocation/consistent_hashing.go:166-244 | computing the assignment from the last inputs alone gives the same as the incremental updates if and only if every target still is as it was when its key was introduced |
| `AllocationHistory.HistoryIsCanonical` | cmd/amazon-cloudwatch-agent-target-allocator/allocation/consistent_hashing.go:166-244 | over any sequence of calls the incremental updates add up to one computation from the last non-empty collector set and the targets as they were introduced |
| `AllocationHistory.ReplicaAgreement` | cmd/amazon-cloudwatch-agent-target-allocator/allocation/consistent_hashing.go:104-109 | replicas whose histories end with the same targets and collectors hold the same assignment, provided a hash stands for one target |
| `AllocationHistory.ReplicasAgree` | cmd/amazon-cloudwatch-agent-target-allocator/allocation/consistent_hashing.go:104-109 | replicas hold the same assignment if and only if their last collector sets coincide and so do their targets as introduced |
| `AllocationHistory.AccountsAreDetermined` | cmd/amazon-cloudwatch-agent-target-allocator/allocation/consistent_hashing.go:97-110 | replicas that assign alike count alike and answer alike |
| `Discovery.Discover` | cmd/amazon-cloudwatch-agent-target-allocator/target/discovery.go:98-119 | for any order of the jobs: every discovered target is filed under its hash, nothing else is, nobody is assigned, and of targets with one hash one comes through |
| `Discovery.DiscoveredByHash` | cmd/amazon-cloudwatch-agent-target-allocator/target/discovery.go:98-119 | if hashes tell the discovered targets apart, what is handed on, after relabelling, depends on them alone and not on the order in which they are found |
| `Discovery.SameHash` | cmd/amazon-cloudwatch-agent-target-allocator/target/target.go:35-44 | two targets have one hash if and only if job and address, written one after the other, coincide and the fingerprints of the labels do |
| `Discovery.ToldApartExactly` | cmd/amazon-cloudwatch-agent-target-allocator/target/target.go:35-44 | over any discovered targets, hashes tell them apart if and only if, whenever job and address written together and the fingerprints coincide, job and labels do |
| `Discovery.RegularIsToldApart` | cmd/amazon-cloudwatch-agent-target-allocator/target/discovery.go:98-119 | as the labels have the address, hashes tell discovered targets apart if different label sets have different fingerprints and no group of targets sets the address |
| `Discovery.GroupAddressCollides` | cmd/amazon-cloudwatch-agent-target-allocator/target/discovery.go:112-113 | a group that sets the address hides where the job ends: whatever the fingerprint, moving the end of the job to the front of the address gives another target with the same hash |
| `Discovery.FingerprintCollides` | cmd/amazon-cloudwatch-agent-target-allocator/target/target.go:35-44 | two label sets with one fingerprint make two targets of one hash if and only if job and address, written together, coincide |
| `Replay.ReplayAll` | cmd/amazon-cloudwatch-agent-target-allocator/allocation/consistent_hashing.go:166-244 | a new allocator that is given any discoveries and any collectors, in any order, is in the state of that history with exact accounts; if hashes tell apart all that was discovered, in the state that the last discovery and the last collectors call for |
| `Replay.ReplayIsCanonical` | cmd/amazon-cloudwatch-agent-target-allocator/allocation/consistent_hashing.go:166-244 | for discovered targets whose hashes tell them apart, the state is one computation from the last discovery and the last collectors, whatever came before |
| `Replay.MatchedHashesFixTargets` | cmd/amazon-cloudwatch-agent-target-allocator/target/discovery.go:98-119 | where hashes tell apart all that is ever discovered, a hash stands for one target throughout the history |
| `Replay.ReplicasOfDiscoveryAgree` | cmd/amazon-cloudwatch-agent-target-allocator/allocation/consistent_hashing.go:104-109 | replicas whose last discoveries and collectors coincide hold the same assignment, with conditions on label sets and groups only |
| `AllocationHistory.CollidingHashesDisagree` | cmd/amazon-cloudwatch-agent-target-allocator/allocation/consistent_hashing.go:188-202 | a replica that has seen two targets of one hash one after the other and one that has seen the second only, given any collectors, agree if and only if the targets are the same |
| `CollectorWatch.Client.RunWatch` | cmd/amazon-cloudwatch-agent-target-allocator/collector/collector.go:99-128 | handling the events until the watch ends leaves the allocator in the state the remaining stream calls for, sound, and exact if it was |
| `CollectorWatch.Client.Watch` | cmd/amazon-cloudwatch-agent-target-allocator/collector/collector.go:55-79 | over an initial pod list, any events and any restarts, the allocator ends in the state that the published name sets call for, and the map has exactly the names whose last news is an arrival or, without news, that were listed at the start |
| `CollectorWatch.Client.HandleEvent` | cmd/amazon-cloudwatch-agent-target-allocator/collector/collector.go:119-125 | one event updates the map and hands all of it to the allocator |
| `CollectorWatch.MembersAreLastNonEmpty` | cmd/amazon-cloudwatch-agent-target-allocator/collector/collector.go:55-128 | the allocator's members are the last non-empty set published and never become empty again |
| `CollectorWatch.FinalNamesTakenToRun` | cmd/amazon-cloudwatch-agent-target-allocator/collector/collector.go:61-124 | a name is in the map exactly if the last thing heard of the pod is that it runs |
| `CollectorWatch.Client.List` | cmd/amazon-cloudwatch-agent-target-allocator/collector/collector.go:55-70 | the map has exactly the names of the listed pods that are not terminating |
| `CollectorWatch.LastPublishedIsFinal` | cmd/amazon-cloudwatch-agent-target-allocator/collector/collector.go:72-125 | the last set published is the map as it is, so nothing is withheld |
| `CollectorPods.MapIsRight` | cmd/amazon-cloudwatch-agent-target-allocator/collector/collector.go:81-128 | over anything that happens to pods and to the connection, while a watch is open the map has the pods there are and those whose end was missed, so it is right if and only if no end was missed: that of a known pod, while no watch was open, which has not started again |
| `CollectorPods.WatchedAreKnown` | cmd/amazon-cloudwatch-agent-target-allocator/collector/collector.go:81-128 | while a watch is open every pod there is is in the map |
| `CollectorPods.EndIsMissed` | cmd/amazon-cloudwatch-agent-target-allocator/collector/collector.go:81-97 | a pod that ends between two watches stays in the map |
| `EventSender.StepKeepsInv` | cmd/amazon-cloudwatch-agent-target-allocator/watcher/promOperator.go:40-204 | every step of stores, resyncs, handlers, sender and main loop keeps the invariant that a change no load has seen is carried by somebody, unless a load has just failed or the watcher was stopped |
| `EventSender.ObjectsAreCounted` | cmd/amazon-cloudwatch-agent-target-allocator/watcher/promOperator.go:143-173 | over every run the objects of a store are those at the start and those added, less those deleted; updates do not count |
| `EventSender.UnreflectedChangeIsPending` | cmd/amazon-cloudwatch-agent-target-allocator/watcher/promOperator.go:143-204 | over all interleavings a change that is not in force is in a handler, in the slot, with the sender or in a load, unless the last load failed, a configuration is kept that could not be applied, or the watcher was stopped |
| `EventSender.NoLostUpdate` | cmd/amazon-cloudwatch-agent-target-allocator/watcher/promOperator.go:143-267 | if loads succeed and can be applied, a quiescent state is up to date with both stores, although they are read at two instants |
| `EventSender.FailedLoadLosesUpdate` | cmd/amazon-cloudwatch-agent-target-allocator/main.go:205-214 | in every reachable state with empty stores and nothing in flight behind a load, a failure leaves the protocol idle and as far behind as before; without a change of the stores only the configuration file changes that, if the failure was in applying; had the load been applied, all would be in force |
| `EventSender.FailureIsMadeUpFor` | cmd/amazon-cloudwatch-agent-target-allocator/main.go:205-214 | a failure can be made up for without further changes if and only if it had nothing to bring, or what is kept is up to date and the configuration file is applied, or a notification is in flight or a store has an object that a resync presents again, and the sender is there to deliver it |
| `EventSender.LossIsReachable` | cmd/amazon-cloudwatch-agent-target-allocator/main.go:205-214 | such a loss occurs: the only object is deleted and the load that follows fails |
| `EventSender.QuiescenceIsFinal` | cmd/amazon-cloudwatch-agent-target-allocator/watcher/promOperator.go:185-203 | without changes an idle protocol with empty stores, or one that is stopped, puts nothing in force but what is kept, and that only with the configuration file |
| `EventSender.SettlesByProductiveSteps` | cmd/amazon-cloudwatch-agent-target-allocator/watcher/promOperator.go:185-203 | while not quiescent some productive step is possible, and each uses up work |
| `EventSender.CanCatchUp` | cmd/amazon-cloudwatch-agent-target-allocator/watcher/promOperator.go:185-203 | from every reachable running state with nothing lost productive steps alone lead to an up-to-date quiescent state |
| `Strings.JoinOfSplit` | pkg/instrumentation/sdk.go:513-515 | joining what was split gives the text back |
| `Strings.SortedListingIsUnique` | pkg/instrumentation/sdk.go:609-613 | the sorted listing of the keys does not depend on the order in which a map gives them |
| `ResourceAttributes.ParseExisting` | pkg/instrumentation/sdk.go:511-521 | the keys recognised in a user's attribute string |
| `ResourceAttributes.ParsedKeysExactly` | pkg/instrumentation/sdk.go:513-520 | a key is recognised if and only if some part between commas is, but for blanks around, the key, an equals sign and a value, neither having an equals sign |
| `ResourceAttributes.ResourceMapToStr` | pkg/instrumentation/sdk.go:603-619 | the printed form of a map depends on the map alone: pairs in the order of their keys |
| `ResourceAttributes.RoundTrip` | pkg/instrumentation/sdk.go:603-619 | with values free of commas and equals signs, parsing the printed form recovers exactly the keys of the map if and only if every key is free of commas, equals signs and leading space |
| `ResourceAttributes.RecoveredFromPrinted` | pkg/instrumentation/sdk.go:603-619 | a clean key is recovered from the printed form whatever the other keys are |
| `ResourceAttributes.ParsedKeysAreClean` | pkg/instrumentation/sdk.go:511-521 | an unclean key is never recognised |
| `ResourceAttributes.ParsedKeysOfAppended` | pkg/instrumentation/sdk.go:413-418 | appending attributes behind a comma recognises the keys of both parts and no others |
| `Env.GetIndexOfEnv` | pkg/instrumentation/sdk.go:621-628 | the first entry of a name, or -1 if there is none |
| `Env.MoveEnvToListEnd` | pkg/instrumentation/sdk.go:630-638 | the entry goes last, the others keep their order, and the list is a permutation of what it was |
| `SdkInjection.CreateResourceMap` | pkg/instrumentation/sdk.go:508-545 | for a key the user has not set, the value the pod provides wins if there is one: that of a parent, or else its namespace, container, name, UID, node or instance identifier; otherwise the value of the resource, if any; what the user set is left out |
| `SdkInjection.ResourceMapIsOrdered` | pkg/instrumentation/sdk.go:523-544 | the same of the specification: user before pod before resource, for every key |
| `SdkInjection.FinalAttributesSay` | pkg/instrumentation/sdk.go:356-404 | what is printed has all these values, but for a version the image gives; the name and the node of the pod by reference if nothing else gives them, the UID if asked for, the source of the service name if nothing gives it, and nothing else |
| `SdkInjection.InjectCommonSDKConfig` | pkg/instrumentation/sdk.go:334-457 | the new environment is the old one without its attributes entry, what is added, and the attributes entry last - also when agent and application are the same container; that entry prints, behind what the user had, the values of the pod, or else of the resource, for the keys the user left open |
| `SdkInjection.WriteAttributes` | pkg/instrumentation/sdk.go:405-418 | the printed attributes are written behind the value the user gave, or in a new entry |
| `SdkInjection.AddPropagators` | pkg/instrumentation/sdk.go:420-427 | propagators are added only if nobody defined them |
| `SdkInjection.AddSampler` | pkg/instrumentation/sdk.go:429-445 | sampler and argument are added only if neither is defined |
| `SdkContents.AttributesInjected` | pkg/instrumentation/sdk.go:356-418 | the last entry of an injected environment has the user's attributes first and then what the pod and the resource say, the pod first |
| `SdkContents.VersionIsTag` | pkg/instrumentation/sdk.go:485-493 | the version of an image is its tag, none if what is behind the last colon has a slash |
| `SdkContents.ServiceNameIsFirst` | pkg/instrumentation/sdk.go:459-482 | the service name is the first that is not empty of deployment, replica set, stateful set, daemon set, cron job, job and pod, otherwise that of the container |
| `SdkContents.ServiceNameInjected` | pkg/instrumentation/sdk.go:337-345 | an environment without a service name is given that of the first of these attributes for which the pod or the resource has a value, otherwise that of the container |
| `SdkContents.EndpointInjected` | pkg/instrumentation/sdk.go:346-354 | an endpoint the container leaves open is that of the resource |
| `SdkContents.PropagatorsInjected` | pkg/instrumentation/sdk.go:420-427 | propagators the container leaves open are those of the resource, in their order |
| `SdkContents.SamplerInjected` | pkg/instrumentation/sdk.go:429-445 | so are the sampler and its argument, if the container defines neither |
| `SdkContents.ReferencesInjected` | pkg/instrumentation/sdk.go:356-400 | the name, UID and node of the pod that are referred to are taken from the fields of the pod that hold them, if the container does not define these variables |
| `SdkLaws.UserSettingsSurvive` | pkg/instrumentation/sdk.go:334-457 | the user's attributes are the beginning of the new ones, the attributes entry is last, and all other entries keep value and order |
| `SdkLaws.UserKeysAreNotRepeated` | pkg/instrumentation/sdk.go:508-545 | no appended key repeats one of the user's, if and only if the pod UID is not both asked for and set by the user |
| `SdkLaws.DefinitionsBeforeUses` | pkg/instrumentation/sdk.go:356-454 | every variable the injector refers to in the attributes is defined earlier in the list |
| `SdkLaws.AfterOneInjection` | pkg/instrumentation/sdk.go:334-457 | after an injection whose further attributes entries agree with its result, the keys recognised are the user's and those recognised in what was printed |
| `SdkLaws.SecondEntryIsReadNext` | pkg/instrumentation/sdk.go:413-454 | with a second attributes entry, the keys recognised after an injection are that entry's |
| `SdkLaws.FixedPoints` | pkg/instrumentation/sdk.go:334-457 | for every list: an injection changes nothing if and only if nothing but repetitions follow the first attributes entry and there is nothing to add |
| `SdkLaws.InjectingTwice` | pkg/instrumentation/sdk.go:334-457 | for every list: injecting twice equals injecting once if and only if every attribute is recognised again, the pod UID is not asked for, and the further attributes entries agree with the first result |
| `SdkLaws.SingleEntryAgrees` | pkg/instrumentation/sdk.go:413-454 | with at most one attributes entry the last of these conditions holds |
| `SdkLaws.CleanAttributesSettle` | pkg/instrumentation/sdk.go:334-457 | if no value has an equals sign before its first comma, the injection is idempotent if and only if all keys are clean, the pod UID is not asked for, and the further attributes entries agree |
| `SdkLaws.UncleanKeyNeverSettles` | pkg/instrumentation/sdk.go:508-545 | one key of the resource with a comma, an equals sign or leading space is among what every injection adds, whatever the list, and no injection is idempotent |
| `SdkLaws.TwoEntriesTakeTurns` | pkg/instrumentation/sdk.go:413-454 | with two attributes entries of which the second does not begin with the first, the injection is not idempotent: each run edits the first and moves it behind the other |
| `JavaInjection.InjectJavaagent` | pkg/instrumentation/javaagent.go:28-56 | a container is injected if and only if its options come from no field, nobody requires non-root without a user, and it asks for Application Signals or sends nothing to an endpoint that is not the agent's; then the language layer adds what the container leaves without a value, unless Application Signals is switched off, and loads the agent |
| `JavaInjection.WhoIsInjected` | pkg/instrumentation/helper.go:252-319 | injection is the default: it is refused exactly if the pod requires non-root without a user, whatever the container says, or the container requires it with no user of its own or of the pod, or one of the four endpoints is set to another address than the agent's and Application Signals is not set to true |
| `JavaInjection.InjectCommonEnvVar` | pkg/instrumentation/sdk.go:316-325 | the common layer adds exactly the names nobody defined yet |
| `JavaInjection.InjectJava` | pkg/instrumentation/sdk.go:88-106 | the layers are applied in this order to whoever may be injected, and to nobody else; that includes, security contexts permitting, every container that defines no endpoint and no options |
| `JavaInjection.FourLayers` | pkg/instrumentation/javaagent.go:41-56 | each name but the two that are edited takes its first entry from the first layer that defines it: container, language, common, SDK configuration |
| `JavaInjection.ContainerComesFirst` | pkg/instrumentation/helper.go:324-338 | whatever the container defines, even without a value, comes first in the list under its name |
| `JavaInjection.AgentIsLoaded` | pkg/instrumentation/javaagent.go:48-56 | the agent argument follows the options of the container, or else of the language layer |
| `JavaInjection.NamesStayDistinct` | pkg/instrumentation/javaagent.go:41-56 | distinct names stay distinct if and only if no entry the container leaves empty is in the language layer and the injector's own variables are free |
| `JavaInjection.Precedence` | pkg/instrumentation/javaagent.go:41-56 | the precedence law on the inputs it is meant for: distinct names, non-empty container values, no layer using the injector's own names |
| `JavaInjection.EmptyEntryIsRepeated` | pkg/instrumentation/helper.go:324-338 | names are no longer distinct once the language layer defines an entry that the container leaves empty |
| `Manifests.Manifest.Mutate` | internal/manifests/mutate.go:50-164 | the live object takes what its kind replaces or merges from the desired one and keeps its identity, or is found immutable, or unsupported |
| `Manifests.ResultByKind` | internal/manifests/mutate.go:50-330 | kind by kind: who merges labels and annotations and who replaces them, whose selector is set and whose is added to, whose specification is merged and whose replaced |
| `Manifests.ConflictsExactly` | internal/manifests/mutate.go:256-355 | an object conflicts if and only if it exists and its selector, or the number or contents of the claims of a stateful set, would change |
| `Manifests.Manifest.MutateStatefulSet` | internal/manifests/mutate.go:291-312 | claims and fields are taken over unless a selector or claim template changed |
| `Manifests.Manifest.HasVolumeClaimsTemplatesChanged` | internal/manifests/mutate.go:332-355 | claim templates count as changed exactly if they differ beyond the volume modes the server fills in |
| `Manifests.StoredDoesNotConflict` | internal/manifests/mutate.go:332-355 | what the server stores of a desired object, volume modes filled in, never looks like an immutable change later |
| `Manifests.StoredIsSettled` | internal/manifests/mutate.go:50-164 | mutating what was stored gives what was stored, if the merge settles |
| `Manifests.FilledMakesNoDifference` | internal/manifests/mutate.go:338-341 | volume modes filled in by an earlier attempt make no difference to a later one |
| `Reconcile.ReconcileDesiredObjectsWPrune` | controllers/common.go:115-135 | whatever calls fail, an object disappears only if it is owned and no longer desired or is a desired workload to be replaced; no pruning after a failed configuration; a round without faults is the function of the state that the convergence results are about; after a completed round every desired object that is there and not cluster-wide has the owner as its controller |
| `Reconcile.ReconcileDesiredObjectUIDs` | controllers/common.go:60-113 | identities are returned only if every desired object was configured; other objects are untouched and only workloads are ever deleted |
| `Reconcile.PruneStaleObjects` | controllers/common.go:143-163 | exactly the owned objects whose identity is not remembered are deleted, or errors are reported |
| `Reconcile.FindOwnedObjects` | controllers/amazoncloudwatchagent_controller.go:46-118 | the search finds exactly the labelled objects of the six kinds in the owner's namespace, by identity |
| `Reconcile.RetryOnConflict` | controllers/common.go:84-90 | repeated attempts have the effect of one that succeeds, or none |
| `Reconcile.ConfigureOne` | controllers/common.go:66-104 | one desired object is configured, deleted for re-creation and still remembered, reported, or stops the round; what is configured has the owner as its controller unless it is cluster-wide, and one of another namespace or another controller is reported |
| `Cluster.NothingDesiredIsPruned` | controllers/common.go:143-163 | what is pruned are the owned objects that are not desired: no desired key and no desired identity is among them |
| `Cluster.DesiredIsRemembered` | controllers/common.go:109-112 | an object that was there and is still desired is remembered under the identity it had, even if it is deleted for re-creation |
| `Cluster.ConfiguredIsControlled` | controllers/common.go:70-77 | a configured object has the owner as its controller unless it is cluster-wide; those keep the controller they ask for |
| `Cluster.ConfiguredAllAreControlled` | controllers/common.go:66-77 | so has every object that is configured in turn and is not cluster-wide |
| `Convergence.AfterOneRound` | controllers/common.go:115-135 | after one round the owner has nothing but desired objects, all in place with the contents they ask for and the owner as their controller but those that had to be deleted |
| `Convergence.OneRoundConverges` | controllers/common.go:91-98 | one round is enough if and only if no immutable field has to change |
| `Convergence.TwoRoundsConverge` | controllers/common.go:115-135 | two rounds bring any cluster to exactly the desired owned objects with the labels, annotations, selector and replaced fields they ask for and, unless they are cluster-wide, the owner as their controller, whatever the merge; with a merge that settles the rest is up to date as well |
| `Convergence.Convergence` | controllers/common.go:115-135 | after two rounds any number of further rounds creates, deletes and replaces nothing; with a merge that settles, they change nothing |
| `Convergence.SharedLabelsPrune` | controllers/amazoncloudwatchagent_controller.go:46-53 | what only another owner desires survives a round if and only if it is in another namespace or lacks one of this owner's labels; with the same labels in one namespace it is deleted |
| `Convergence.SurvivesRound` | controllers/common.go:143-163 | of the objects that are not desired a round deletes exactly those the search takes for the owner's and leaves the others as they are |
| `Convergence.UpToDateExactly` | internal/manifests/mutate.go:50-164 | mutating a stored object changes nothing, server defaults included, if and only if it has the contents asked for and its controller, the merge has nothing left to do, and its claims are those asked for |
| `Annotations.BothKeysMeansSelected` | pkg/instrumentation/auto/annotation.go:228-236 | exactly the selected languages have both keys |
| `Annotations.OthersAreUntouched` | pkg/instrumentation/annotationmutator.go:20-64 | other keys are untouched, values are never overwritten, and one key of a pair on its own is left alone |
| `Annotations.SelectingTwice` | pkg/instrumentation/annotationmutator.go:20-64 | selecting the same languages again changes nothing |
| `Annotations.OneMoreDeclared` | pkg/instrumentation/annotationmutator.go:20-53 | the mutation of one language, applied last, extends the selection by that language, so the order does not matter |
| `Annotators.InsertAnnotations` | pkg/instrumentation/annotationmutator.go:20-29 | missing keys are inserted, present ones kept, and what was inserted is reported |
| `Annotators.RemoveAnnotations` | pkg/instrumentation/annotationmutator.go:41-64 | all keys are removed if all are present, otherwise none, and what was removed is reported |
| `Annotators.CollectLanguages` | pkg/instrumentation/auto/config.go:41-83 | a language is selected if and only if its list for the kind of the object has the name of the object, with its namespace if it has one, or, if asked, its list of namespaces has that of the object |
| `Annotators.InvertResources` | pkg/instrumentation/auto/annotation.go:189-202 | the index from languages to names is turned into one from names to exactly their languages |
| `Annotators.BuildMutators` | pkg/instrumentation/auto/annotation.go:189-214 | the mutations under each name select its languages on any annotations, for every order in which types and names come |
| `Annotators.AnnotationMutators.constructor` | pkg/instrumentation/auto/annotation.go:128-148 | the mutators for the four kinds and the default one, which removes all |
| `Annotators.AnnotationMutators.MutateObject` | pkg/instrumentation/auto/annotation.go:67-116 | the object gets exactly the annotations of its configured languages: afterwards it has both keys of a language if and only if that is among those managed and the list for its kind has its name; what is reported is the difference |
| `Monitor.Monitor.MutateObject` | pkg/instrumentation/auto/monitor.go:454-472 | an object that is safe to change has afterwards both keys of a supported language if and only if the language is chosen, by the custom list of its kind or because it is configured and a service selects the object with monitoring on, and not excluded by name or namespace; any other object is untouched |
| `Monitor.Monitor.SelectedExactly` | pkg/instrumentation/auto/monitor.go:458-468 | the selection in terms of the lists of the configuration and of the services |
| `Monitor.Monitor.IsWorkloadAutoMonitored` | pkg/instrumentation/auto/monitor.go:475-502 | a workload is selected automatically if and only if monitoring is on, its namespace is not one of the system and some service with a selector, in its namespace, selects its pods |
| `Monitor.Mutate` | pkg/instrumentation/auto/monitor.go:505-534 | for every order of the languages the annotations are those of the selected languages and the report is the difference |
| `Monitor.AnnotatorsAgree` | pkg/instrumentation/auto/annotation.go:189-214 | the two implementations agree on all annotations if and only if the first was built for the supported languages |
| `Monitor.AnnotatedOnce` | pkg/instrumentation/auto/monitor.go:454-534 | after annotating exactly the selected languages have both keys, all else is as it was, and a second run reports nothing |
| `Naming.Truncate` | internal/naming/triming.go:24-56 | for ASCII text and as many verbs as arguments: the excess is taken off the ends of the string arguments, the first argument first; what is still too long is cut, all else trimmed |
| `Naming.TruncatedFits` | internal/naming/triming.go:24-56 | the result never exceeds the limit; if the strings are long enough exactly the excess is removed and the fixed parts stay whole, otherwise the result has exactly the limit |
| `Naming.FixedPartIsCut` | internal/naming/triming.go:20-56 | a fixed part longer than the limit is cut at the limit |
| `Naming.ShortenedFromTheFront` | internal/naming/triming.go:29-48 | arguments behind one that keeps something are whole |
| `Naming.TrimLaw` | internal/naming/triming.go:60-63 | trimming leaves nothing, if there is no letter or digit, or a text that begins and ends with one |
| `Naming.MakeDnsName` | internal/naming/dns.go:22-38 | for any text: character by character in lower case, with an `a` for what is not allowed where the byte offset is 0 or the number of characters less one, and a hyphen elsewhere |
| `Naming.DnsNameIsLabel` | internal/naming/dns.go:22-38 | the result is a label if and only if the text has 1 to 63 characters, and its last one is a letter or digit or has only single-byte characters before it |
| `Naming.WideCharacterHidesEnd` | internal/naming/dns.go:22-38 | behind a character of several bytes a last character that is not allowed becomes a hyphen, and the result is no label |
| `Naming.AccentHidesEnd` | internal/naming/dns.go:22-38 | for example, an accented letter and an underscore become `a-` |
| `Naming.DnsNameOfAscii` | internal/naming/dns.go:22-38 | on ASCII text this is a mapping by position |
| `Naming.NamesAreLabels` | internal/naming/main.go:7-137 | every name is a valid host name label of at most 63 characters (section 2.1 of RFC 1123, section 2.3.4 of RFC 1035), unless no letter or digit is left |
| `Naming.NamingTwice` | internal/naming/main.go:91-98 | a name made from a name is that name |
| `Naming.LabelsTellApart` | internal/manifests/manifestutils/labels.go:76-82 | for tidy names and a namespace without dots: two owners of one namespace get the same label if and only if they are the same, or have long names of which the same is kept, or what is kept of one long name is the namespace, a dot and the other, short, name |
| `Naming.LongNameLabel` | internal/manifests/manifestutils/labels.go:76-82 | the label has no more than the first 62 characters of a long name and nothing of its namespace |
| `Naming.ShortNameLabel` | internal/manifests/manifestutils/labels.go:76-82 | a name of less than 62 characters is whole in the label, behind what there is room for of the namespace |
| `Naming.NamespaceInName` | internal/manifests/manifestutils/labels.go:76-82 | a long name that begins with the namespace, a dot and another name, 62 characters in all, shares its label |
| `Naming.ShortNamesAreSafe` | internal/manifests/manifestutils/labels.go:76-82 | names of less than 62 characters are told apart |
| `Ports.PortTable.GetReceiverServicePort` | internal/manifests/collector/ports.go:171-213 | a port is added unless its number and protocol are taken or its address cannot be read |
| `Ports.PortMapToServicePortList` | internal/manifests/collector/ports.go:56-65 | the list is sorted by name and has the entries of the map, each as often as there |
| `Ports.GetServicePorts` | internal/manifests/collector/ports.go:126-135 | for every configuration: sorted by name, never two ports with the same number and protocol, one for each that is granted |
| `Ports.GrantedAllIsFiled` | internal/manifests/collector/ports.go:171-287 | every port is filed under its number and no number has a protocol twice |
| `Ports.OneIsServed` | internal/manifests/collector/ports.go:171-213 | a receiver that asks for one port finds its number and protocol served in the end, whoever comes before or after |
| `Ports.SignalsAreServed` | internal/manifests/collector/ports.go:289-303 | over every configuration: ports 4315, 4316 and 4311 are served over TCP under their names if and only if Application Signals is on for logs or traces, port 2000 under its name if and only if it is on for traces, whatever else is configured |
| `Ports.StatsDIsServed` | internal/manifests/collector/ports.go:145-152 | StatsD always gets its port: 8125 without an address, otherwise the one of its address, over UDP and under its own name, if the address can be read |
| `Ports.ServedExactly` | internal/manifests/collector/ports.go:171-287 | over all requests in their order: a number and protocol is served if and only if somebody asks for it, or it comes with a whole number that nobody had anything to do with before |
| `Ports.GrantsStay` | internal/manifests/collector/ports.go:171-287 | later requests take nothing away |
| `Ports.WholeAfterOnes` | internal/manifests/collector/ports.go:221-238 | in the final table, each protocol of a whole number requested after single ports is served if and only if the number was not asked for before or somebody asks for that protocol |
| `Ports.EmfIsServed` | internal/manifests/collector/ports.go:221-238 | for every configuration with the embedded metric format: its port is served for TCP or UDP in the end if and only if no receiver that comes before asks for the number, or some receiver asks for the number and that protocol |
| `Ports.EmfMayBeCutOff` | internal/manifests/collector/ports.go:221-238 | that condition fails for a configuration: a StatsD receiver on the port of the embedded metric format leaves that format without TCP |
| `Ports.InferContainerPorts` | internal/manifests/collector/ports.go:90-114 | with names shortened to 15 characters: no number and protocol has two entries; a valid port is missing only if its place was overwritten by a port of another place with the same shortened name |
| `Ports.ShortNamesFit` | internal/manifests/collector/ports.go:90-95 | shortened names have at most 15 characters: a shorter name is trimmed, a longer one cut |
| `Ports.GetContainerPorts` | internal/manifests/collector/ports.go:67-124 | from the agent's configuration to the container: each granted port and each other port that is valid has its number and protocol, unless another port took its shortened name; ports of the specification go over those inferred |

## Left out

- The hash ring and its hash function: library code. Nothing is said of balance, or of how few targets move.
- Metrics, logging, timers, HTTP and TLS, JSON and YAML, certificates: input and output only.
- Relabel processing: the filter of the allocator is any predicate on targets.
- Updates of a stored target by a new item with the same hash: the allocator ignores the new item, and so does the model, which does not follow the caller's own use of the item it offered.
- Locking in the allocator: its methods are modelled as they run under the lock.
- EventSender.FailedLoadLosesUpdate: a configuration is applied as a whole or not at all; what a failed application leaves half done in the discovery manager is not modelled.
- CollectorPods.MapIsRight: a pod that is being deleted counts as there until it ends.
- Owner look-ups of a pod: their result, the attributes contributed by parents, is a fixed map.
- Variables from envFrom: the precedence results are for containers without it; `InjectJavaagent` takes any list of resolved variables.
- Mounts, volumes and init containers of the Java injection, and the injectors for other languages.
- JavaInjection.Precedence: says which entry comes first and that there is only one, for names the injector does not edit.
- Manifests.StoredDoesNotConflict: of the defaults a server fills in, volume modes only.
- SdkLaws.AfterOneInjection: lists whose further attributes entries disagree with the result; `SdkLaws.SecondEntryIsReadNext` says what is recognised then.
- Manifests.Manifest.Mutate: the specification of an object is two texts, one that its kind replaces and one that it merges, beside selector and claims; cluster roles, ingresses and the other kinds that are replaced share one case.
- Naming.Truncate: ASCII text, and formats with as many verbs as arguments; a format is the list of its fixed parts.
- Naming.LabelsTellApart: namespaces with dots, or names with other characters at their ends than letters and digits, which the API server does not accept.
- Ports.GetContainerPorts: takes a parsed configuration; the ports of the OpenTelemetry configuration and the name and number checks of the Kubernetes library are parameters.
- Annotators.AnnotationMutators.MutateObject: is the internal function; the public one beside it panics on kinds other than the four, where this one reports nothing.
- Monitor.Monitor.MutateObject: whether the pod template changed, and what the informer of services holds, are given.
- Building the desired objects of a round, and the status and events that follow it.
- Admission webhooks, manifest builders, default tables, deep copies: straight-line code or chains of independent checks.
