# Verified model of the mux port controller

A mux is a LoadBalancer Service shared by many channel Services. The controller decides, pass by
pass, which channel port gets which mux port. This project models that decision and proves what it
guarantees: within one pass, from one pass to the next, and over whole runs.

## What is modelled

One reconciliation pass reads the channel Services, the live mux ports, the `ports` annotations the
controller wrote earlier, and the claims persisted in a ConfigMap. It recovers owners, overlays the
persisted claims, resolves each channel's static and automatic ports, rejects conflicts all or
nothing, records claims, and emits mux ports and Endpoints subsets. `Controller.MuxPass` is that
pass, step by step, over the mutable class `MuxState.MuxState`; it is proved equal to `Pass.Run`, a
function on values about which everything else is proved. `Runs` adds what happens between passes:
channels added, edited or removed, the port list reset, a pass interrupted before it saved, a pass
that cannot read the store.

| file | contents |
|---|---|
| Text, Annotations, Sorting, ChannelOrder | the strings that assignments travel through, and the processing order |
| Model, PortRanges, PortLimit | channels, ports, keys, owners; ranges and first fit; port limits |
| Claims, MuxState | the claim dictionary on values, and the class proved against it |
| Reconcile, Endpoints | the helpers of a pass: functions, and the source's loops proved against them |
| Pass, Controller | the pass as a function, and the daemon's loop body proved equal to it |
| PassFacts, PassInvariant, PassClaims | what one pass keeps and establishes |
| StaticPorts, AutoPorts, Capacity | what a channel gets and when it is refused, said of the annotations and numbers users write |
| StateRoundTrip, Stability, Recovery, Handover, Routing | two passes in a row; the stored document; traffic |
| Runs, Convergence, AutoConvergence, LimitConvergence | runs of any length, and when they settle |
| Blocking, WaitsFor, Graphs, Deadlock | when a static channel is accepted, and who waits for whom |
| Scenarios, StaleStore, Swap, AutoMove | concrete runs in which stronger claims fail |
| PortAllocator, StateStore, ExternalDns, DebugEvents | the legacy allocator, the ConfigMap and its owner, external-dns annotations, the debug event ring |

### Hypotheses

They are preconditions of the lemmas that need them, never assumed globally.

- `WellFormedAll`: channels are distinct by namespace and name, port names are distinct within a
  channel and free of `,`, `:`, `/` and blanks. The Kubernetes API enforces all of this. A missing
  port name is allowed: the code rejects it itself, and so does the model.
- `CollisionFree`: the short port hash separates the declared channel ports. `hash` is a parameter.
  The concrete runs ask only that it tells their two channels apart (`Scenarios.Apart`).
- `ShortHash`: a hash is seven characters long, so it never reads `placeholder`.
- Declared port numbers lie in 1-65535, and every declared port states its protocol, as the API server fills it in.
- The set of live mux ports is iterated in an arbitrary order (`livePorts` lists it in some order);
  `Recovery.OrderIrrelevant` and `Convergence.PassDeterministic` prove that the order is irrelevant.
- The annotation prefix is the default one.

### What turned out not to hold

Each item names the run or input that shows the failure, and the exact condition.

- **An unreadable store lets ports change hands.** docs/controller.md:256 says that invalid JSON
  skips the pass so that ports are not reassigned. The code carries on without state
  (src/controller.py:380-401), and the model follows the code. `StaleStore.StaleStoreHandsOver` is a
  run of two passes, the first of which cannot read the store: it gives a port to one channel, the
  next gives it to another, although the live port list survived. `Handover.HandoverIff` is the exact
  condition: whoever holds the port after the next pass is the old holder if and only if the store
  that pass reads gives the port to nobody else.
- **Automatic ports are not stable as such.** `AutoMove.AutoPortMoves` is a run in which an accepted
  automatic port moves because another channel now declares its number, although that channel does
  not get it yet. An automatic number is kept if and only if it is still in the ranges and no valid
  channel declares it statically (`Handover.AutoKeptIff`).
- **Swapped numbers never settle.** `Swap.SwapCrosses` is a run that accepts and saves two static
  channels and then exchanges their numbers; `Swap.SwappedNeverAccepted` proves that no later pass
  that reads the store accepts either, for as long as they stay declared so. The same holds of every
  set of static channels in which the store holds a port of each for another of the set
  (`Deadlock.DeadlockOverRuns`), whatever happens in between. The exact condition of acceptance is
  `Blocking.StaticAcceptedIff`; it covers passes that cannot read the store, which start from the
  recovered owners alone (`Blocking.BlindOwners`) and may accept a swap (`Swap.BlindPassLetsSwap`).
  Once nothing changes any more, over static channels with distinct requests and room for all, every
  valid channel is accepted if and only if no valid channels wait for each other in a circle, of
  whatever length, and none waits for an invalid one (`WaitsFor.AllAcceptedIff`).
- **The two readings of `external-ports` disagree on repeated names.** The recorded label and the
  mapping in use agree if and only if the name is never marked `auto` or its last entry is
  (`Annotations.LabelsAgreeIff`); `Annotations.LabelsCanDisagree` gives a failing annotation for
  every name and port.
- **One bad `ports` annotation stops the whole mux.** Reading `a->b:80` raises
  (`Annotations.ArrowFirstRaises`), and the read at the start of the pass is not guarded. A pass stops
  there exactly when some item of some annotation has a colon and all its arrows, at least one, before
  its first colon (`Annotations.MappingsRaiseIff`, `Runs.RaisedIff`); while such an annotation is
  there, no pass changes anything (`Runs.MisplacedStops`, `Runs.ArrowFirstStops`).

## Model

| member | source | states |
|---|---|---|
| Annotations.ParsePortMappings | src/annotations.py:88-102 | the loop computes the last-wins mapping, or raises, as specified item by item |
| Annotations.RaisesIff | src/annotations.py:95-99 | an item raises exactly when it has a colon, an arrow before its first colon and none after it |
| Annotations.MappingsRaiseIff | src/annotations.py:93-100 | an annotation cannot be read exactly when, in some comma-separated item, all arrows (at least one) stand before the first colon |
| Annotations.ArrowFirstRaises | src/annotations.py:95-99 | the annotation `a->b:80` cannot be read |
| Annotations.PairIff | src/annotations.py:95-100 | any other item with an arrow after its first colon maps the name before the colon to the text after that arrow, both without outer blanks |
| Annotations.SkipIff | src/annotations.py:95-97 | and every item of neither kind is passed over |
| Runs.RaisedIff | src/controller.py:488 | a pass raises before its loop exactly when the annotation of some channel has such an item |
| Runs.MisplacedStops | src/reconcile.py:428-434 | while such an annotation is there, no pass, complete or not, changes the cluster |
| Runs.ArrowFirstStops | src/reconcile.py:428-434 | for instance with `a->b:80` on any channel of any cluster |
| Annotations.PortMappingsOfFormat | src/annotations.py:80-102 | reading any printed list gives the mux port of every name, the last entry winning for a repeated name |
| Annotations.PrintedPortReadsBack | src/annotations.py:80-102 | print and read round trip: every printed mux port is read back as the same number |
| Annotations.ParseExternalPortsAnnotation | src/reconcile.py:35-60 | the loop computes the last-wins request map, or the error of the first bad entry |
| Annotations.EntryIff | src/reconcile.py:41-58 | an item requests a port exactly if, around its first colon, it is a name and `auto` in any case or a number in 1-65535; it is passed over exactly if it is blank |
| Annotations.EntryErrors | src/reconcile.py:45-54 | a non-blank item without a colon, and one without a name, are the errors they are |
| Annotations.ExternalRejectedIff | src/reconcile.py:41-58 | the annotation is rejected exactly when some item is neither blank nor such an entry |
| Annotations.RequestedIff | src/reconcile.py:49-60 | what is requested for a name is what the last entry for it says |
| Annotations.ExternalPortModes | src/mux_state.py:235-246 | the loop computes the set of names that some item marks auto |
| Annotations.LabelsAgreeIff | src/mux_state.py:68-85 | the recorded auto label agrees with the request in use if and only if the name is never marked auto or its last entry is |
| Annotations.LabelsAgree | src/mux_state.py:235-246 | the two parsers agree on every annotation that repeats no name |
| Annotations.LabelsCanDisagree | src/reconcile.py:55-58 | for every name and port, an accepted annotation on which the two parsers disagree |
| Model.KeyTextInjective | src/port_allocations.py:37-39 | the dictionary key text identifies the channel port |
| Model.OwnerTextInjective | src/mux_state.py:205-207 | the owner text identifies channel and port hash |
| Model.TextExamples | src/port_allocations.py:37-39 | the key and owner texts of an example |
| Text.StripBlanks | src/annotations.py:94-94 | spaces, tabs and line ends around a text do not count |
| ChannelOrder.ProcessingOrder | src/controller.py:484-487 | channels of the smaller namespace are processed first, within a namespace those of the smaller name |
| Sorting.StrLeIff | src/controller.py:484-487 | texts compare lexicographically |
| PortRanges.ParsePortRanges | src/port_allocations.py:42-63 | the loop reads the ranges or fails at the first bad item; accepted ranges lie in 1-65535 and are not reversed |
| PortRanges.RangesRoundTrip | src/port_allocations.py:303-304 | parsing the printed form of any valid ranges gives the same ranges back |
| PortRanges.RangeIff | src/port_allocations.py:47-61 | an item is a range exactly if it is a port number, or two of them in order around its first dash |
| PortRanges.RangesRejectedIff | src/port_allocations.py:47-61 | the annotation is rejected exactly when some item is neither blank nor a range |
| PortRanges.FirstFreeExact | src/mux_state.py:118-123 | the search returns the first unused port in range order, and fails exactly when every port of every range is used |
| PortRanges.FirstFreeSucceeds | src/mux_state.py:118-130 | pigeonhole: with fewer used ports of the protocol than the ranges contain, the search succeeds |
| Claims.AllocateExact | src/mux_state.py:45-66 | the number is in the ranges, not reserved, recovered for nobody else and held by no other key; no other claim moves; a failure changes nothing |
| Claims.AllocatedRecord | src/mux_state.py:96-109 | a newly allocated claim, field by field |
| Claims.ReusableIff | src/mux_state.py:52-62 | a claim is kept exactly if its number is in the ranges, not reserved, recovered for nobody else and held by no other key |
| Claims.AllocateFirstFit | src/mux_state.py:45-66 | a still valid claim is reused, otherwise exact first fit; failure exactly when every range port is used |
| Claims.AllocateSucceeds | src/mux_state.py:118-153 | automatic allocation cannot fail while fewer ports are in use than the ranges contain |
| Claims.AllocateInjective | src/mux_state.py:132-153 | allocation never makes two keys hold one mux port |
| Claims.PortOwnersExact | src/mux_state.py:35-43 | when no port is claimed twice, the owner map says exactly what the claims say |
| Claims.FirstClaimOwns | src/mux_state.py:35-43 | of several claims on one port the first in dictionary order owns it |
| StateRoundTrip.FirstRecordOwns | src/mux_state.py:156-172 | should a document claim one mux port for several declared channel ports, the one it mentions first owns the port |
| MuxState.MuxState.constructor | src/mux_state.py:17-33 | the object starts with exactly the claims of declared ports, and the changed flag that loading gives |
| MuxState.MuxState.PortOwners | src/mux_state.py:35-43 | the loop builds the first-claim-wins owner map |
| MuxState.MuxState.Allocate | src/mux_state.py:45-66 | answer, claims, order and flag are those of the specified allocation |
| MuxState.MuxState.RecordChannelClaims | src/mux_state.py:68-85 | claims, order and flag are those of recording the annotation port by port; nothing changes if it cannot be read |
| MuxState.MuxState.ToState | src/mux_state.py:87-94 | the document in key order, whose properties SavedForm and ReadSaved state |
| MuxState.MuxState.SetClaim | src/mux_state.py:96-109 | the flag is raised exactly when the stored record differs; a new key goes last |
| MuxState.MuxState.PruneInactive | src/mux_state.py:111-116 | exactly the claims of undeclared ports go, in place, and the flag tells whether any did |
| MuxState.MuxState.IsClaimed | src/mux_state.py:132-142 | true exactly when another key holds the port, it is reserved, or it is recovered for another owner |
| MuxState.MuxState.UsedPortProtocols | src/mux_state.py:144-153 | the loop collects exactly the reserved, foreign-recovered and claimed ports |
| MuxState.FirstUnused | src/mux_state.py:118-123 | the nested loop is the first-fit search |
| MuxState.ActiveClaimKeys | src/mux_state.py:185-192 | the loop collects exactly the keys of named declared ports |
| StateRoundTrip.LoadIs | src/mux_state.py:31-33 | loading drops exactly the claims of undeclared ports, and asks for a rewrite exactly when it did or the document has the older form |
| StateRoundTrip.ReadSaved | src/mux_state.py:156-182 | reading what was saved gives the identical claim dictionary and asks for no rewrite |
| StateRoundTrip.SaveLoad | src/mux_state.py:87-94 | with the same channels declared, saving and loading is the identity and leaves changed false |
| StateRoundTrip.SavedForm | src/mux_state.py:87-94 | the saved list is strictly ordered by key and complete, and its second view holds exactly the automatic claims |
| StateRoundTrip.SavedOrder | src/mux_state.py:87-94 | both saved lists are sorted by `protocol:namespace:service:port`, each channel port once |
| StateRoundTrip.LoadedRecord | src/mux_state.py:156-203 | the last record of a declared port is its claim: on `muxPort` or else `port`, for its protocol or else TCP, automatic unless labelled otherwise |
| StateRoundTrip.EmptyDocument | src/mux_state.py:175-182 | an empty document has no claims and needs no rewrite |
| StateRoundTrip.LegacyMigrates | src/mux_state.py:156-182 | an allocation-only document, whatever its labels, keeps the assignment of every active key and invents none, and forces one rewrite, after which none is asked for |
| Reconcile.CollectStaticPortClaims | src/reconcile.py:362-379 | the loop collects exactly what valid channels declare statically, as ReservedIff says it |
| StaticPorts.ReservedIff | src/reconcile.py:272-281 | reserved are exactly the numbers that some valid channel requests, or declares without requesting another |
| Reconcile.ChannelOwnersByMuxName | src/reconcile.py:401-414 | for every hash, exactly the channel ports that have it |
| Reconcile.OwnersFromExistingMuxPorts | src/reconcile.py:417-425 | the first live port with an unambiguous owner wins |
| Reconcile.OwnersFromChannelPortAnnotations | src/reconcile.py:428-453 | for every port, exactly the channel ports whose annotation states it; fails exactly when an annotation cannot be read |
| Reconcile.CollectExistingPortOwners | src/reconcile.py:382-398 | live ports first, unambiguous annotations for the rest |
| Reconcile.ResolveChannelPorts | src/reconcile.py:311-333 | ports, annotation text, error and allocator state after resolving a channel port by port, partial allocations included; the numbers are those of StaticOutcome and AutoOutcome |
| StaticPorts.StaticOutcome | src/reconcile.py:272-281 | an accepted channel gets the number it requests for a port, and the port's own number where it requests nothing |
| StaticPorts.NumberRequested | src/reconcile.py:49-60 | the annotation `name:number` gives an accepted channel that number on that port, for every name and number |
| StaticPorts.RequestsValid | src/reconcile.py:290-308 | a request is valid exactly if it parses, every port is named and no other name is requested |
| StaticPorts.InvalidSkipped | src/controller.py:510-520 | a channel with an invalid request is skipped, for the limit or with its error, and nothing is claimed at its turn |
| StaticPorts.EarlyClaims | src/mux_state.py:64-66 | whatever resolving a channel adds or moves is an automatic claim of one of its ports and states that port's own number |
| AutoPorts.RangelessIff | src/controller.py:364-397 | a pass has no ranges exactly if it cannot read the store or the annotation is missing, blank or invalid |
| AutoPorts.AutoRefused | src/mux_state.py:45-50 | then a channel that asks for an automatic port is skipped, for the limit or for the missing range, and nothing is claimed at its turn |
| AutoPorts.BlindRefusesAuto | src/controller.py:387-401 | in particular a pass that cannot read the store never gives out an automatic port |
| AutoPorts.AutoOutcome | src/mux_state.py:45-66 | an accepted automatic port has a number from a range that the annotation states, which no valid channel declares and which was recovered for nobody else |
| Reconcile.FindMuxPortConflicts | src/reconcile.py:456-477 | no conflict exactly when all ports are free for the channel and distinct; all or nothing on the owner map; every reported owner is a true other owner |
| Endpoints.CollectChannelEndpoints | src/reconcile.py:480-517 | the loops copy the non-empty subsets of the channel's cached Endpoints with hashed port names; RoutedIff says what that achieves |
| Endpoints.RenamingPreservesRoutes | src/reconcile.py:498-515 | following the hashed name leads to exactly the backends of the original name |
| Endpoints.RoutesIff | src/reconcile.py:486-515 | a backend is routed to exactly if some subset lists its address and a port of the name with its port and protocol |
| Controller.BuildMuxState | src/controller.py:363-413 | with an unreadable store there is neither state nor range (RangelessIff, BlindRefusesAuto), otherwise both, and the static claims and recovered owners are passed on |
| Controller.MuxPass | src/controller.py:457-550 | for every channel list Kubernetes admits, the daemon's loop body computes the specified pass |
| PassInvariant.AcceptedIff | src/controller.py:499-529 | a channel is accepted exactly when the limit leaves room, its ports resolve and none is somebody else's |
| PassInvariant.ExclusivePorts | src/controller.py:496-531 | after a pass no two mux ports share number and protocol, and each agrees with the initial owner map |
| PassInvariant.PortsExact | src/controller.py:522-531 | at every point the accepted ports are exactly the ports of the accepted channels |
| PassInvariant.CapacityBound | src/reconcile.py:262-269 | the number of accepted ports never exceeds the limit, at any point of the loop |
| Capacity.GkeIff | src/reconcile.py:223-230 | a mux is a GKE one exactly if its class has the prefix or one of the three annotations is there |
| Capacity.LimitIs | src/reconcile.py:202-239 | the limit read off the annotation: its number, at most 100 on GKE; without it 100 on GKE and none elsewhere; 0 if it is invalid |
| Capacity.SetLimit | src/controller.py:499-508 | with `max-ports` n no point of the loop has more than n accepted ports, nor more than 100 on GKE, and a channel is skipped exactly if its declared ports do not fit any more |
| Capacity.NoLimitSet | src/controller.py:499-508 | without the annotation only a GKE mux skips channels, exactly those that would exceed 100 ports |
| Capacity.InvalidLimit | src/controller.py:468-475 | an annotation that is neither empty nor a positive number keeps out every channel that declares a port |
| PassInvariant.PublishedPorts | src/reconcile.py:620-631 | every accepted port is published, `placeholder` on 101/TCP exactly when there is none; on GKE at most 100 |
| StaticPorts.PublishedAs | src/reconcile.py:329-330 | an accepted port is published under the hash of `namespace/service/port` with its number and protocol |
| StaticPorts.RecordedAs | src/mux_state.py:96-109 | and recorded, field by field, as what it is |
| StaticPorts.AnnotatedAs | src/annotations.py:80-85 | and annotated as `name:port->number`, in its place |
| PassFacts.AnnotationReadsBack | src/reconcile.py:428-447 | the annotation written for a channel is read back, port by port, as assigned |
| PassFacts.RecordExact | src/mux_state.py:68-85 | recording stores for every port exactly the number it was given, through the text, and moves nothing else |
| PassClaims.NobodyElseHolds | src/controller.py:522-532 | whoever holds the number about to be recorded for a port is that port, whether the number is static or automatic |
| PassClaims.ClaimsSane | src/controller.py:488-532 | throughout the loop no two keys hold one mux port, rejected channels' early allocations included |
| PassClaims.StepFrame | src/mux_state.py:64-85 | a channel's turn moves only its own claims, and the book is unchanged unless the flag says so |
| PassClaims.RecordedEqualsAccepted | src/controller.py:531-532 | for every accepted port the published number and the recorded claim are the number assigned; the label is right when no name is repeated |
| PassClaims.StoreFollows | src/controller.py:540-544 | whether or not the pass writes, the store afterwards states exactly its final claims |
| Stability.Retained | src/controller.py:496-532 | a channel that resolves to the numbers the store holds for it is accepted with them unless the limit binds |
| Stability.StaticStays | src/controller.py:496-532 | an all-static channel whose ports the store holds for it is accepted with them, whatever anybody else declares |
| Stability.StaticStability | src/mux_state.py:35-43 | an accepted all-static channel is accepted again with the same ports, even after the port list and annotations were overwritten |
| Stability.AcceptedOwnClaim | src/controller.py:496-497 | a pass never gives a port to anyone but the key the store holds it for |
| Stability.ForeignClaimBlocks | src/controller.py:522-529 | a channel asking for a port that the store holds for another declared port is not accepted, wherever it sorts |
| Stability.CrossedChannelsStayBlocked | src/controller.py:496-529 | a pass that reads a store crossed between two channels accepts neither and leaves it crossed |
| Blocking.StaticAcceptedIff | src/controller.py:498-529 | a static channel is accepted if and only if the limit leaves room, its own requests differ, the initial owner map gives none of its ports to another, and no channel accepted earlier in the pass took one |
| Blocking.OwnersExact | src/reconcile.py:474-475 | at every point, an owner is one of the initial map or a channel accepted before |
| Blocking.BlindOwners | src/controller.py:380-401 | a pass that cannot read the store starts from the recovered owners and no others |
| WaitsFor.StillOwner | src/reconcile.py:382-398 | when a pass changes nothing, every owned port belongs to a declared channel port, and an accepted owner has it |
| WaitsFor.AllAcceptedIff | src/controller.py:496-529 | when a pass changes nothing, over static channels with distinct requests and room for all, every valid channel is accepted if and only if none wait in a circle or for an invalid one |
| WaitsFor.RunAcceptsAllIff | src/controller.py:484-550 | the same of every pass of a run after the first n + 1 |
| Deadlock.DeadlockInPass | src/controller.py:496-529 | a pass that reads a deadlocked store accepts none of the gang and leaves the store deadlocked |
| Deadlock.DeadlockOverRuns | src/controller.py:457-550 | through any run in which the gang stays declared, the store stays deadlocked and no pass that reads it, complete or interrupted, accepts any of the gang |
| Deadlock.CrossedIsDeadlock | src/controller.py:496-497 | two channels with each other's number are the smallest deadlock |
| Swap.SwapCrosses | src/controller.py:496-544 | a concrete run, accepted, saved and then edited, that leaves the store crossed |
| Swap.SwappedNeverAccepted | src/controller.py:496-529 | in every continuation of that run, no pass that reads the store accepts either channel |
| Swap.BlindPassLetsSwap | src/controller.py:380-401 | with annotations and port list wiped, a pass that cannot read the store accepts both |
| Recovery.RecoveredFromPorts | src/reconcile.py:417-425 | a live mux port is recovered for the channel port whose hash it carries |
| Recovery.RecoveredFromAnnotation | src/reconcile.py:428-453 | after a reset to the placeholder, a channel's annotation keeps anybody else from being recovered for its port |
| Recovery.AnnotationRecovers | src/reconcile.py:392-396 | if no live port leads to an owner and exactly one channel port's annotation states a port, that channel port owns it |
| Handover.AnnotationProtects | src/reconcile.py:382-398 | so, after a reset to the placeholder and without a claim that says otherwise, the port goes to nobody else |
| Recovery.OrderIrrelevant | src/reconcile.py:417-425 | recovery does not depend on the order in which the live port set is iterated |
| Handover.NoDirectHandover | src/controller.py:488-529 | a port held after one pass by a port still declared is held by no other after the next, if the saved state survived, or the port list did and the store names nobody else |
| Handover.HandoverIff | src/mux_state.py:35-43 | if only the port list survived, the next holder is the old one if and only if the store gives the port to nobody else |
| StaleStore.StaleStoreHandsOver | src/controller.py:380-401 | a concrete run of two passes from a good cluster, the first without a readable store, in which a port changes hands directly although the port list survived |
| Handover.AutoKeptIff | src/mux_state.py:52-62 | an automatic port of a channel accepted twice keeps its number if and only if it is still in the ranges and nobody valid declares it statically |
| AutoMove.AutoPortMoves | src/reconcile.py:362-379 | a concrete run in which an accepted automatic port moves because another channel now declares its number |
| Handover.AutoChannelStays | src/mux_state.py:132-142 | under that condition an accepted channel is accepted again with all its ports unless the limit binds |
| Runs.EventGood | src/controller.py:488-550 | every kind of event keeps claims and live ports exclusive |
| Runs.ClaimsExclusiveOverRuns | src/controller.py:457-550 | no run of passes, edits, resets, interruptions and blind passes leads to a store that claims one mux port twice |
| Runs.TenureThroughPass | src/controller.py:499-532 | a tenured static channel is accepted or skipped for the limit, and keeps its claims either way |
| Runs.StaticTenureOverRuns | src/controller.py:457-550 | once the store holds a static channel's ports for it, it does so for as long as the channel stays declared |
| Runs.AcceptanceGivesTenure | src/controller.py:531-544 | a saved pass that accepts an all-static channel gives it that tenure |
| Convergence.PassDeterministic | src/controller.py:457-550 | what a pass makes of the cluster depends neither on set order nor on endpoints |
| Convergence.AgainOrSkipped | src/controller.py:498-532 | over unchanging specs, an accepted channel is accepted again with the same static and automatic ports, or skipped for the limit |
| Convergence.AcceptedAgain | src/controller.py:498-532 | with room for all, it is accepted again |
| Convergence.AcceptedSetGrows | src/controller.py:498-532 | so, with room for all, the accepted set never shrinks from pass to pass |
| Convergence.SamePublished | src/controller.py:643-667 | a pass that accepts nothing new changes no annotation and no mux port, automatic ports included |
| Convergence.SettledPass | src/controller.py:540-544 | over static specs, a pass that accepts nothing new changes no claim either |
| Convergence.SettledForGood | src/controller.py:457-550 | after a pass that changes nothing, no pass changes anything |
| Convergence.ConvergesWithinNPlusOnePasses | src/controller.py:484-550 | with room for all, n static channels settle within n + 1 passes |
| AutoConvergence.AllocateImproves | src/mux_state.py:52-66 | an allocation leaves the book alone, or gives one more port a claim it will keep; ports that had one keep it |
| AutoConvergence.PassImproves | src/controller.py:498-532 | the same of a whole pass that accepts nothing new, rejected channels included |
| AutoConvergence.SameConfig | src/controller.py:484-497 | after a pass that accepts nothing new, the next recovers the same owners and reserves the same ports |
| AutoConvergence.PotentialRises | src/controller.py:484-550 | every pass that changes anything accepts a channel more or makes a claim more permanent |
| AutoConvergence.EveryRunSettles | src/controller.py:484-550 | with room for all, n channels with m ports, static and automatic alike, settle within (n + 1) * (m + 1) + 1 passes, from any claims, annotations and live ports |
| LimitConvergence.SecureOutcome | src/controller.py:499-532 | a channel with secure ports resolves to them, and is accepted unless the limit skips it |
| LimitConvergence.SecureStays | src/controller.py:499-544 | a channel with secure ports, accepted or skipped for the limit, has the same secure ports in the next pass |
| LimitConvergence.AcceptedSecure | src/controller.py:531-544 | acceptance makes a channel's ports secure in the next pass, automatic ones included |
| LimitConvergence.SameSecureSameAccepted | src/reconcile.py:266-269 | once the set of secure channels stands still, consecutive passes accept the same channels |
| LimitConvergence.ProgressRises | src/controller.py:484-550 | every pass that changes anything makes a channel secure or a claim firm |
| LimitConvergence.EveryLimitedRunSettles | src/controller.py:484-550 | under any limit, n channels with m ports settle within (2n + 1) * (m + 1) + 1 passes |
| LimitConvergence.StaticLimitedRunSettles | src/controller.py:484-550 | under any limit, n static channels settle within 2n + 2 passes |
| Routing.RoutingPreserved | src/controller.py:531-538 | every accepted port is published, and its name leads to exactly the backends that the cache lists for that port under the channel's namespace and name, or to none if it lists nothing |
| Routing.RoutedIff | src/reconcile.py:483-515 | the same backend by backend, through the name `hash(namespace/service/port)` |
| Routing.NoEmptyPublished | src/reconcile.py:490-496 | no published subset is without an address |
| Routing.RejectedRoutesNowhere | src/controller.py:499-529 | no port of a rejected channel leads anywhere through the mux |
| PortAllocator.PortAllocator.constructor | src/port_allocations.py:91-108 | the legacy object starts with the last record of every active key, and a flag telling whether any was dropped |
| PortAllocator.PortAllocator.Allocate | src/port_allocations.py:110-136 | answer, allocations, active keys and flag are those of the specified legacy allocation |
| PortAllocator.PortAllocator.IsClaimed | src/port_allocations.py:166-172 | true exactly when another key holds the port or it is reserved |
| PortAllocator.AllocateAgrees | src/mux_state.py:45-66 | one call on agreeing states gives the same answer in both allocators and agreeing states again |
| PortAllocator.LegacyRefinement | src/port_allocations.py:90-178 | from the same records, both allocators answer any sequence of calls alike and hold the same map after each |
| PortAllocator.NothingToPrune | src/port_allocations.py:138-146 | saving the legacy allocator drops nothing |
| PortAllocator.SavingKeepsServed | src/port_allocations.py:103-108 | started without active keys, the legacy allocator drops nothing until it saves, and then keeps exactly the keys it served |
| PortAllocator.FlagTells | src/port_allocations.py:104-143 | the legacy flag is raised exactly when an allocation is changed or dropped |
| StateStore.ConfigMapAllocationStore.Load | src/port_allocations.py:194-203 | result and exists flag for an absent, foreign, undecodable or own object, as LoadsIff says it; the flag is set before the owner is checked |
| StateStore.LoadsIff | src/port_allocations.py:242-264 | an object loads as a state exactly if its owner annotation is missing, empty or the mux's own and its document states it for the mux or for none |
| StateStore.OwnerLoadsBack | src/port_allocations.py:194-216 | after a mux has saved, and until it saves again, its loads return exactly what it saved, under any interleaving |
| StateStore.OwnerSaves | src/port_allocations.py:205-216 | a mux that has loaded the object can save it, whatever the others did meanwhile |
| StateStore.FirstSaveCreates | src/port_allocations.py:213-216 | while there is no object, the save of a mux that looked for it creates it |
| StateStore.EitherNoteProtects | src/port_allocations.py:242-264 | either of the two notes of ownership suffices to refuse every other mux |
| StateStore.ConfigMapAllocationStore.Save | src/port_allocations.py:205-216 | patch needs the object, creation its absence; a failed save leaves the object alone |
| StateStore.RefTextInjective | src/port_allocations.py:190-192 | the owner annotation identifies the mux |
| StateStore.OneOwner | src/port_allocations.py:194-264 | under any interleaving, once the object exists its creator is the only writer and every other mux is refused |
| StateStore.LoadsOwnClaims | src/port_allocations.py:242-264 | no load ever returns claims another mux wrote |
| ExternalDns.AggregateExternalDnsAnnotations | src/reconcile.py:82-118 | the loops compute the specified annotations of the sorted channels |
| ExternalDns.HostNamesRoundTrip | src/utils.py:26-29 | parsing the joined form of host names gives the same names back |
| ExternalDns.AggregationForgetsOrder | src/reconcile.py:89-92 | permuting distinct channels does not change the result |
| ExternalDns.DedupOrder | src/reconcile.py:95-99 | no host name is kept twice, and first occurrences keep their order |
| ExternalDns.AggregatedHosts | src/reconcile.py:111-113 | the published list parses back to exactly the union of the channels' host names, and is absent when there is none |
| ExternalDns.PublishedHost | src/reconcile.py:95-113 | a host name is published exactly if some item of some channel's annotation is that name |
| ExternalDns.AggregatedFlag | src/reconcile.py:101-117 | the published flag is the conjunction of the valid values, and absent when there is none |
| ExternalDns.PublishedFlag | src/reconcile.py:103-117 | the published text is `false` if some channel says false, `true` if some says true and none false, and absent otherwise |
| ExternalDns.ApplyAggregatedExternalDnsAnnotations | src/reconcile.py:164-188 | the loop computes the specified annotations |
| ExternalDns.ApplyAt | src/reconcile.py:172-180 | key by key: the user's are untouched, the controller's are exactly the aggregate's |
| ExternalDns.OwnedReadBack | src/reconcile.py:63-73 | the ownership note reads back as exactly the keys that were written |
| ExternalDns.PathIndependent | src/reconcile.py:164-188 | applying one aggregate and then another equals applying the second alone |
| ExternalDns.HistoryForgotten | src/reconcile.py:164-188 | after any history, only the last aggregate shows |
| ExternalDns.WithdrawalRestores | src/reconcile.py:182-188 | without an ownership note, applying any aggregate and then none restores the original |
| ExternalDns.UserKeysNeverChange | src/reconcile.py:173-175 | no sequence of aggregates changes a key the user owns |
| DebugEvents.DebugStateStore.RecordEvent | src/debug_state.py:27-53 | the ring after a call: the known entry moved to the front and counted up, or a new one in front and the oldest out |
| DebugEvents.RingIsRecent | src/debug_state.py:16-53 | after any history the ring holds exactly the 100 most recently seen distinct events, newest first, each once |
| DebugEvents.RingHoldsHundred | src/debug_state.py:12-26 | in numbers: all distinct events while there are at most 100, then the 100 most recent |
| DebugEvents.SameEventIff | src/debug_state.py:28-36 | two events are counted together exactly if type and resource are the same and the messages are, or are equally long and agree on the first 2000 characters |
| DebugEvents.TruncationKeeps | src/debug_state.py:356-360 | messages up to 2000 characters are kept, of longer ones the first 2000 |
| DebugEvents.EntriesTell | src/debug_state.py:38-53 | count, first and last time of an entry are those of its event since it last entered the ring |
| DebugEvents.EnteredOnce | src/debug_state.py:38-53 | that entry point is unique, so the history determines the count |

## Left out

- Kopf handlers, indexes, daemon threads, queues, retries and sleeps (src/controller.py:85-360).
- The Kubernetes client: reads and patches are assignments to the run state; dry-run mode, events, alerts and logging have no effect on ports or claims.
- A pass interrupted between the save and the port patch is one event (`Runs.Interrupted` with `wrote`); a lost update of a single annotation patch is an `Edited` event.
- SHA-256: `hash` is an arbitrary function, with freedom from collisions as a precondition.
- JSON text: documents are modelled decoded, an undecodable one is a load error. JSON nulls, numbers written as text and unknown `source` labels inside a document are not modelled.
- Python's full `int()` and Unicode blanks: integers are decimal digits, blanks are ASCII.
- Topology and summary annotations, the web interface, authentication, `tools/`, `test-local/` and the chart.
- Channel and topology bookkeeping of `DebugStateStore` and `parse_mux_port_annotation` (src/debug_state.py:55-346): easy members.
- `external_dns_aggregation_conflicts`, `gke_max_ports_warning` and `collect_auto_allocation_keys`: messages and unused keys, no effect on the pass.
- Endpoints change detection (`get_old_endpoints_set`, `get_current_endpoints_set`) drops port names; routing is therefore stated of the desired subsets, not of the object last applied.
- Metadata of the generated Endpoints, channel status patches, ConfigMap naming and refs parsing.
- Reconcile.FindMuxPortConflicts: returns the updated owner map instead of changing its argument, so aliasing of that dictionary is not modelled; the wording of the messages is not modelled, only that each names a true other owner.
- StateStore.OneOwner: deletion of the ConfigMap by an outsider, and editing of its owner annotation, are outside the interleavings.
- PortAllocator.LegacyRefinement: stated for records with a port and a protocol and no diverging second number, which is all the legacy allocator writes and can read.
