# HQ: a verified model of the causal core

HQ is a local-first system in which everything is a signed event with causal parents. This
project models, in Dafny, the parts of HQ that decide what those events mean and how they get
where they are going, and proves what those parts promise:

- the causal graph: ancestor search, relation, maxima (`CausalGraph`);
- the event reducer: the shared usability walk, authorization, the classification stages that
  rewrite statuses while they iterate over maps, account devices, and the three display orders
  (`EventRecords`, `Usability`, `Authorization`, `Classification`, `AccessMeaning`,
  `LabelExample`, `Accounts`, `Sorting`, `Kahn`, `DisplayOrder`, `DisplayMeaning`);
- the incremental causal index and its offline oracle (`CausalIndex`, `IncrementalIndex`,
  `AffectedReduction`);
- the project state machine (`ProjectModel`, `ProjectInvariants`, `ProjectHistory`,
  `ProjectAudit`), what its snapshots say in terms of the events alone (`ProjectLegality`,
  `ProjectMeaning`, `ProjectResources`, `ProjectRows`, `ProjectReading`), and the reducer that
  runs it in place on a clone (`Slices`, `ProjectReducer`);
- delivery of messages to a harness session, with crashes, and what becomes of
  project messages (`Delivery`, `ProjectDelivery`, `ProjectRecovery`, `ProjectQueue`,
  `DeliveryProgress`, `Completability`);
- three small concurrent parts: the coalescing event buffer, the invalidation hub and the
  timeline clock (`EventWork`, `EventBuffer`, `SubscriptionHub`, `TimelineClock`).

`dafny verify dfyconfig.toml` checks the whole project.

## How the system is modelled

- Iteration over a Go map is a parameter: any sequence that lists every key once. Each loop has
  its own. A result that does not mention the sequence does not depend on it.
- Code that updates state in place is a class or a method with loops; what it computes is a
  function, and the theorems are about that function. A Go slice is a backing array with a length
  (`Slices`): appending writes into spare room or moves, and two slices over one array share writes.
- A critical section under a mutex is one step. The hub's enqueue is two steps, because the write
  loop receives without the lock. Delivery is a machine of single ledger, store and provider steps.
- What envelope validation guarantees (`internal/eventwire/validate.go:53-84`,
  `internal/eventwire/validate.go:125-128`) is the predicate `WellFormed`. Acyclicity is required
  only where a lemma says so; everything else holds with cycles and missing parents.
- Event identifiers are strings. Only the conversation order needs that they have one length
  (they are digests), because its tie-break string ends with the identifier.
- Project events have non-empty identifiers and a creation lists distinct resources
  (`ProperEvent`), and equal identifiers mean equal events (`Identified`); the state machine does
  not check this itself. An event may occur any number of times in a history.
- The provider keeps the contract of `internal/harness/contract.go:264-311`: rejected and
  not-found prove absence, accepted proves presence. When a call has returned, its effect has
  happened or never will; a call cut off by a crash may still take effect later, until a lookup
  proves it absent.

## What turned out to be conditional

- **The patched index is not always the rebuilt one.** `rebuildCausalIndexesTx` is called the
  oracle of tables that ingestion maintains the same way. For a resource that a loaded event
  touches, the patched rows equal the oracle's exactly when all members of the resource are loaded
  (`PatchAgreement`). That is always so when an impacted event touches it. It fails after an
  invitation: inviting a device writes a peer binding and a device grant, both of which concern the
  invited installation (`internal/store/human.go:139-142`). A later message to the account loads the
  grant, as a fact of the account, but not the binding (`PartlyLoadedResource`,
  `IngestUntilStale`).
- **The label of a rejected reply depends on map order.** Which events are projected or unresolved
  never does. The label differs between two orders exactly when the reply stands on its own, its
  question is refused, and the orders visit the two in opposite order (`OrderChangesOnlyLabels`).
  A question signed by a stranger and its answer show both labels (`LabelDependsOnOrder`).
- **At-most-once delivery needs one more promise from the provider.** A steering call that answers
  "uncertain" without an error, followed by a failed lookup, lets the dispatcher wait and submit
  again. At-most-once acceptance holds over all runs exactly when the provider is idempotent,
  cannot steer, or never answers so (`SafetyIsExact`).
- **A project message that is given back after it was marked may never be completed.** Within one
  claim it may be sent more than once: a rejected steering call, found absent, is waited out and
  submitted (`SteeredThenSubmitted`). But the store marks only a pending attempt. Once the message
  has been marked and given back, it is never sent again (`ProjectMessagesAreNotResent`). Some
  continuation then completes it exactly when its dispatch is recorded, or when sessions offer
  lookup and one has accepted the message or may still do so (`CompletableExactly`). Two runs end
  outside that condition: a rejected submission, even if lookup proves it absent
  (`RejectionGetsStuck`, `RetryIsRefused`), and, in sessions without lookup, an acceptance followed
  by a crash (`AcceptedAndLost`).
- **One such message blocks its project.** The store serves only the earliest message that is not
  complete, so no later message is ever claimed, sent, accepted or completed (`HeadOfLineBlocks`).
- **Within one session, an uncertain message may be out of reach.** From every idle state, some
  continuation in the same session completes a message exactly when its dispatch is recorded, or
  its attempt is spent and lookup can find it accepted there, or it may still be sent and the
  ledger does not hold it as uncertain or the provider offers lookup or idempotent submission
  (`CompletableHereExactly`). With restarts on other sessions, a message outside projects can
  always be completed (`CompletableFromIdle`).
- **The message order is sorted by time and identifier** exactly when every parent among the
  messages is earlier than its child in that sense (`MessagesSortedExactly`): a child created
  together with its parent waits for it, whatever their identifiers (`ChildWaitsForParent`).
- **Before and After mirror each other** exactly when no two different identifiers reach each other
  (`RelateMirrors`), so on every acyclic graph.
- **The coalescing key identifies its activity** exactly when installation, mailbox, provider,
  session and operation hold no separator and no part of the item but its last is itself a
  latest-value kind (`KeyIdentifiesExactly`). A plan and a diff of one session can share a key
  (`PlanAndDiffShareAKey`).
- **Issued timeline seconds increase strictly** exactly when the zero time is not the last one
  issued or the reading lies past it (`IssueAdvances`), because the zero time also means "none yet".

## Model

| member | source | states |
|---|---|---|
| `CausalGraph.Ancestor` | internal/reduction/causal.go:49-65 | the explicit-stack search ends on every finite graph and answers true exactly when a non-empty parent path exists |
| `CausalGraph.Relate` | internal/reduction/causal.go:18-29 | the result is the path-defined relation: equal, before, after or concurrent |
| `CausalGraph.RelateMirrors` | internal/reduction/causal.go:18-29 | before/after mirror for all pairs if and only if no two different identifiers reach each other; so on acyclic graphs |
| `CausalGraph.BeforeTransitive` | internal/reduction/causal.go:18-29 | before is transitive on acyclic graphs |
| `CausalGraph.Maxima` | internal/reduction/causal.go:31-47 | in any iteration order, the result is the set of members with no other member causally after them |
| `CausalGraph.MaximaCover` | internal/reduction/causal.go:31-47 | on acyclic graphs the maxima of a non-empty set are a non-empty antichain and every member lies at or below one |
| `CausalGraph.MaximaOfUnion` | internal/reduction/causal.go:31-47 | Maxima(A ∪ B) = Maxima(Maxima(A) ∪ Maxima(B)) |
| `EventRecords.TestAtOrBelow` | internal/eventstate/reducer.go:877-890 | the reducer's causal test over the records' parents: the relation is before or equal |
| `Usability.Walk.CausalEventUsable` | internal/eventstate/reducer.go:836-858 | the memoised walk, with a memo kept across queries, answers true exactly when the event and all its ancestors are present and projected and none is on a cycle |
| `Usability.Walk.AllParentsUsable` | internal/eventstate/reducer.go:827-834 | true exactly when every parent is usable; the memo stays sound |
| `Usability.UsableUnfolds` | internal/eventstate/reducer.go:836-858 | the path definition of usability agrees with the recursive one, cycles included |
| `Usability.UsableStable` | internal/eventstate/reducer.go:619-627 | demoting only unusable records leaves every event's usability unchanged |
| `Authorization.RevocationsFollow` | internal/eventstate/reducer.go:771-783 | the scan over all records, with its early exit, answers whether every projected revocation of the device lies causally after the item |
| `Authorization.TestAccountAuthority` | internal/eventstate/reducer.go:744-786 | true exactly when authorities are listed and every one of them admits the item |
| `Authorization.TestAuthorized` | internal/eventstate/reducer.go:666-696 | in any scan order, true exactly when the event may act: peer-addressed under a grant that opens the recipient's very mailbox to its installation and signer and that no revocation undercuts, account-addressed by the creator or an accepted device along a permitted route, private by the local root key, public never |
| `Authorization.AuthorizedExactly` | internal/eventstate/reducer.go:666-825 | the authorization rule and the plain statement of who may act agree for every scope, kind and record set |
| `Authorization.CoveringGrant` | internal/eventstate/reducer.go:676-713 | a peer-addressed event is authorized if and only if its one authority is a projected grant of the recipient's installation for exactly the recipient's mailbox and the event's installation and signer, with every listed revocation at or after the event |
| `Authorization.AdmittingAuthority` | internal/eventstate/reducer.go:744-786 | an authority admits an event if and only if it is the creation of the account by the event's signer, or the acceptance of the signing device with no revocation of it concurrent with or before the event |
| `Authorization.FairRoute` | internal/eventstate/reducer.go:788-825 | a route is allowed if and only if: only the human mailbox sends messages, answers and state changes, and it never asks or reports activity; an answer goes to the asker and a cancellation comes from the asker, in the question's account; a state change targets an event of the account; project traffic stays between human mailboxes |
| `Authorization.AuthorizedReads` | internal/eventstate/reducer.go:788-825 | authorization depends only on the statuses of non-domain events and, for a reply, on whether its thread root is projected |
| `Classification.State.ClassifyLocalControls` | internal/eventstate/reducer.go:468-492 | whatever the order of its loops, a projected control ends unauthorized exactly when the local root did not sign it, and unresolved exactly when it is signed and some parent is unusable or rests on an unsigned control; every other status stays |
| `Classification.ControlStatusExactly` | internal/eventstate/reducer.go:468-492 | the same, as a statement about every event and every status |
| `Classification.State.MarkUnready` | internal/eventstate/reducer.go:621-627 | marking while walking with one shared memo makes exactly the projected domain events unresolved that came in with an unusable parent, judged on the records as they came in; every other status stays |
| `Classification.MarkingUnreadyIsHarmless` | internal/eventstate/reducer.go:621-627 | half-done marking changes no event's usability |
| `Classification.State.MarkUnauthorized` | internal/eventstate/reducer.go:628-637 | the in-place authorization loop ends with the target statuses, which depend on the order only through which roots are visited first |
| `Classification.AuthorizedMidway` | internal/eventstate/reducer.go:788-807 | in the middle of the loop an event passes exactly when it is authorized on the initial statuses and, for a reply, its root is not already refused |
| `Classification.State.MarkUnrooted` | internal/eventstate/reducer.go:638-659 | the root-checking loop invalidates exactly the events whose target or surviving thread root is not an ancestor |
| `Classification.State.ClassifyDomainEvents` | internal/eventstate/reducer.go:619-660 | for every order, the three loops leave each event with the status that its meaning on the incoming records demands (`StatusMeans`) |
| `Classification.FinalStatusExactly` | internal/eventstate/reducer.go:619-660 | for every order and event: statuses other than projected, and other kinds, stay; a projected domain event ends unresolved if and only if a parent is unusable; unauthorized if and only if it is ready and refused, by itself or through a refused question visited first; invalid if and only if it is ready, not refused, and its target or its ready, authorized thread root is not an ancestor; projected otherwise |
| `Classification.OrderChangesOnlyLabels` | internal/eventstate/reducer.go:619-660 | for any two orders: the same projected events, the same unresolved events, and the exact condition under which a rejected reply's label differs |
| `LabelExample.OppositeLabels` | internal/eventstate/reducer.go:788-807 | every authorized reply to a refused question ends unauthorized when the question is visited first and invalid when it is visited after |
| `LabelExample.LabelDependsOnOrder` | internal/eventstate/reducer.go:628-659 | concrete well-formed records and two orders with the two labels |
| `Classification.OutcomeJustifiesItself` | internal/eventstate/reducer.go:619-660 | in every order, a domain event ends projected if and only if it came in projected on usable parents and the final statuses themselves authorize it, with its target and its finally projected root among its ancestors |
| `AccessMeaning.PeerEventsStandUnderGrants` | internal/eventstate/reducer.go:676-713 | in every order, a peer-addressed event ends projected if and only if it came in so on usable parents, its one authority is a finally projected grant that covers it, and its target and finally projected root are ancestors |
| `AccessMeaning.AccountEventsStandOnMembership` | internal/eventstate/reducer.go:744-825 | in every order, an account-addressed event ends projected if and only if it came in so on usable parents, every authority it names is a finally projected creation or undercut-free acceptance of its signer, it is routed as above on the final statuses, and its target and root are ancestors |
| `AccessMeaning.PrivateEventsStandOnTheRootKey` | internal/eventstate/reducer.go:666-675 | a private event ends projected only if the local root key signed it for this installation, and under the same conditions; a public one never does |
| `AccessMeaning.NobodyActsWithoutStanding` | internal/eventstate/reducer.go:619-660 | every projected peer-addressed event has a covering grant, and every projected account-addressed one is signed by the creator or an accepted, not undercut device |
| `Accounts.SortedMaxima` | internal/eventstate/reducer.go:860-875 | the maximal facts, each once, sorted by identifier |
| `Accounts.DeriveState` | internal/eventstate/reducer.go:363-412 | a device's state is read off the causal frontier of its facts |
| `Accounts.SortedRecordIds` | internal/eventstate/reducer.go:459-466 | every record identifier once, in lexical order, however the map lists them |
| `Accounts.ProjectAccounts` | internal/eventstate/reducer.go:326-413 | one account per identifier named by a projected creation; of several creations the one with the greatest event identifier wins; exactly the devices the projected facts give |
| `Accounts.ActiveMeansAccepted` | internal/eventstate/reducer.go:363-412 | on acyclic logs a device is active if and only if it has a fact and every grant and revocation lies strictly below some acceptance |
| `Accounts.ActiveDevices` | internal/eventstate/reducer.go:363-412 | the same, for every projected non-creator device |
| `Accounts.RevokedMeans` | internal/eventstate/reducer.go:376-412 | on acyclic logs a device is revoked if and only if some revocation of it has no fact of the device strictly after it |
| `Accounts.PendingMeans` | internal/eventstate/reducer.go:376-412 | on acyclic logs a device is pending if and only if no revocation comes last in that sense and it has no fact, or a grant or revocation that no acceptance follows |
| `Accounts.RevokedAndPendingDevices` | internal/eventstate/reducer.go:363-412 | the same, for every projected device with a fact |
| `Accounts.AccountActionParents` | internal/eventstate/reducer.go:1385-1417 | succeeds exactly for the creator and for active devices, and then returns the sorted frontier, all of it acceptances |
| `Kahn.ReleaseChildren` | internal/eventstate/reducer.go:1202-1207 | each child loses one count per listing and is queued exactly when it reaches zero |
| `Kahn.EmitReady` | internal/eventstate/reducer.go:1186-1210 | the loop emits the least ready record at every turn and stops only when none is ready |
| `Kahn.OrderByParents` | internal/eventstate/reducer.go:1323-1362 | indexing and emitting together give a least-ready order, whichever way the maps are iterated |
| `Kahn.LeastReadyOrderUnique` | internal/eventstate/reducer.go:1323-1362 | at most one sequence is a least-ready order |
| `Kahn.ParentsComeFirst` | internal/eventstate/reducer.go:1323-1362 | no record twice, selected parents before children |
| `Kahn.RanksNeverFall` | internal/eventstate/reducer.go:1186-1210 | along a least-ready order no rank that the comparison respects and no child has below its parent ever falls |
| `Kahn.EmitsAllUnlessCycle` | internal/store/conversation_entries.go:199-215 | every selected record is emitted if and only if no cycle runs through the selection |
| `Kahn.AcyclicOrderIsComplete` | internal/eventstate/reducer.go:1157-1211 | on acyclic parents the order holds every selected record exactly once, parents first |
| `DisplayOrder.OrderMessages` | internal/eventstate/reducer.go:1323-1362 | the message order is the least-ready order by time, then identifier: of the messages whose parents are all shown, the next one shown is the earliest created, and among those created together the one with the lexically smallest identifier |
| `DisplayOrder.OrderConversationEvents` | internal/eventstate/reducer.go:1157-1211 | the conversation order is the least-ready order of the events a conversation shows: of those whose parents are all shown, the next one is the first by creation second, then occurrence, then tie-break string |
| `DisplayOrder.TieKeysDiffer` | internal/eventstate/reducer.go:1213-1225 | different events have different tie-breaks, so that order is total |
| `DisplayMeaning.MessagesSortedExactly` | internal/eventstate/reducer.go:1323-1362 | on acyclic parents the order is sorted by creation time and identifier if and only if every parent among the messages is earlier than its child in that sense |
| `DisplayMeaning.MessageTimesNeverFall` | internal/eventstate/reducer.go:1323-1362 | if no message is created before its parents, creation times never fall along the order |
| `DisplayMeaning.ChildWaitsForParent` | internal/eventstate/reducer.go:1323-1362 | messages created together whose only order is not that of their identifiers |
| `DisplayMeaning.ConversationTimesNeverFall` | internal/eventstate/reducer.go:1157-1211 | if no event is created before its parents in the conversation, creation seconds never fall along it |
| `DisplayMeaning.ConversationMeans` | internal/eventstate/reducer.go:1158-1170 | a conversation shows projected and unresolved questions, answers and messages, and projected activities, and nothing else |
| `DisplayMeaning.OccurrenceMeans` | internal/eventstate/reducer.go:1213-1225 | a readable activity occurs at its own time, everything else at its creation second in milliseconds |
| `DisplayMeaning.MessagesTieById` | internal/eventstate/reducer.go:1213-1217 | events other than activities tie by identifier |
| `DisplayMeaning.ActivitiesTieFirst` | internal/eventstate/reducer.go:1213-1225 | at one moment activities come before messages |
| `DisplayMeaning.ActivitiesTieBySequence` | internal/eventstate/reducer.go:1222-1224 | at one moment activities of one runtime come by sequence number, over all 64-bit numbers, and with one number by identifier |
| `Sorting.StringLessMeans` | internal/eventstate/reducer.go:1345-1347 | the order of identifiers is lexicographic |
| `Sorting.PaddedOrders` | internal/eventstate/reducer.go:1222-1224 | zero-padded numbers that fit their width are ordered as text like the numbers |
| `DisplayOrder.OrderConversationCandidates` | internal/store/conversation_entries.go:153-216 | fails if and only if two candidates share an event identifier or the candidates contain a cycle; otherwise returns every candidate once, in the least-ready order, although edges are queried in blocks of 500: of the candidates whose parents are all listed, the earliest created comes next, and among those created together the smallest event identifier |
| `CausalIndex.HasResourceDescendant` | internal/store/causal_index.go:326-342 | the breadth-first search finds another member strictly below, cycles and missing parents allowed |
| `CausalIndex.ForwardMeetsBackward` | internal/store/causal_index.go:326-342 | searching forward over children and backward over parents agree |
| `CausalIndex.BuildChildren` | internal/store/causal_index.go:259-309 | the children index is the inverse of the parent graph |
| `CausalIndex.FrontierOf` | internal/store/causal_index.go:310-322 | the rebuilt frontier equals the maxima of the resource's members |
| `CausalIndex.Impacted` | internal/store/causal_index.go:380-409 | the loops end in the least set that holds the seeds and their waiters and is closed under children, authority dependants and shared non-support resources |
| `CausalIndex.Affected` | internal/store/causal_index.go:410-434 | the loops end in the least set above the impacted events closed under support providers and logged parents |
| `IncrementalIndex.ImpactClosedMeans` | internal/store/causal_index.go:388-409 | a set is closed under impact if and only if it holds the children of its members, the events that name a member as authority, and the events that share with a member a resource whose kind does not end in "-support" |
| `IncrementalIndex.SupportClosedMeans` | internal/store/causal_index.go:410-434 | a set is closed under support if and only if it holds the logged parents of its members and the events of the account or installation a member rests on |
| `IncrementalIndex.OracleRows` | internal/store/causal_index.go:300-322 | where rows agree with the oracle, support lists exactly the members of every resource but single events and dependencies, and the frontier exactly those members with no other member after them |
| `IncrementalIndex.Store.Rebuild` | internal/store/causal_index.go:259-324 | the oracle: all rows, and for every resource its frontier and support |
| `IncrementalIndex.Store.AppendOne` | internal/store/causal_index.go:344-371 | after indexing one event the edge, authority and resource rows are those of the longer log, every missing parent has a waiter, and a waiter is stale only if its parent came in the same batch |
| `IncrementalIndex.Store.WriteAggregates` | internal/store/causal_index.go:483-506 | replaces frontier and support of exactly the resources it has members of |
| `IncrementalIndex.Store.Patch` | internal/store/causal_index.go:454-508 | from the loaded events alone: waiters recomputed for them, aggregates patched, the rest kept |
| `IncrementalIndex.Store.Ingest` | internal/store/sqlite.go:1154-1212 | after any ingest the edge, authority, waiter and resource rows equal a rebuild's, and the aggregates are patched from exactly the least impacted and affected sets over the new events |
| `IncrementalIndex.LeastByNewEvents` | internal/store/causal_index.go:376-434 | waiters of a new event are its children, so the new events alone determine both sets |
| `IncrementalIndex.LeastImpactIsUnique` | internal/store/causal_index.go:376-434 | there is only one such pair of sets |
| `IncrementalIndex.KeptReaches` | internal/store/causal_index.go:410-434 | every ancestor test on an affected event gives the same answer over the affected part as over the whole log |
| `IncrementalIndex.ImpactedIsComplete` | internal/store/causal_index.go:388-409 | a frontier-bearing resource touched by an impacted event has only impacted members |
| `IncrementalIndex.PatchAgreement` | internal/store/causal_index.go:483-506 | resources touched by impacted events always agree with the oracle; touched by affected ones, if and only if all members are loaded; untouched, if and only if they agreed before |
| `IncrementalIndex.FullAgreementSurvives` | internal/store/causal_index.go:257-259 | agreement on all resources survives an ingest if and only if no frontier-bearing resource is loaded in part |
| `IncrementalIndex.PartlyLoadedResource` | internal/store/causal_index.go:454-508 | for a log of an installation, an account, a peer binding, a device grant and a message to the account, with the resources such events carry, the patch over the least sets leaves rows that differ from a rebuild's |
| `IncrementalIndex.IngestUntilStale` | internal/store/causal_index.go:257-259 | a store whose rows agree with its oracle on every resource, ingests that message over the least sets, and no longer agrees |
| `IncrementalIndex.WaitersRepaired` | internal/store/causal_index.go:454-482 | waiter rows made stale within a batch all belong to affected events, so the patch restores the oracle's waiters |
| `AffectedReduction.KeptUsable` | internal/eventstate/reducer.go:827-858 | usability of affected events is the same over the affected part as over the full log |
| `AffectedReduction.KeptAtOrBelow` | internal/eventstate/reducer.go:877-890 | so is every causal test |
| `AffectedReduction.LocalControlsAgree` | internal/eventstate/reducer.go:468-492 | reducing the local controls of the affected part gives its events the statuses of the full reduction |
| `Slices.CopyOf` | internal/projectstate/reducer.go:325-331 | the same items in an array of their own |
| `Slices.Append` | internal/projectstate/reducer.go:148-148 | one item more, in the same array when there is room and otherwise in a new one |
| `Slices.Drop` | internal/projectstate/reducer.go:201-201 | removing an item shifts the later ones down in the same array |
| `ProjectReducer.SnapshotRef.Clone` | internal/projectstate/reducer.go:323-347 | the copy has the same value, and none of the objects it is made of, seven backing arrays and the assignment, is one of the original's |
| `ProjectReducer.ReleaseRows` | internal/projectstate/reducer.go:358-372 | in place, releases exactly the held claims, all or those of one resource |
| `ProjectReducer.SnapshotRef.ApplyData` | internal/projectstate/reducer.go:140-321 | writing into its own arrays and assignment only, each operation accepts exactly when the value model does and then amounts to its next snapshot |
| `ProjectReducer.Apply` | internal/projectstate/reducer.go:81-138 | no object of the caller's snapshot is written, accepted or not, although the clone may be half-updated; an accepted event yields a snapshot of new objects only, with the value model's next value; from an empty or sound snapshot an event is accepted exactly when it is legal there |
| `ProjectReducer.LocateLiveRow` | internal/projectstate/reducer.go:349-356 | the first unremoved row of the resource, or none |
| `ProjectReducer.LocateResource` | internal/projectstate/reducer.go:385-392 | the first current resource with the identifier, or none |
| `ProjectInvariants.LookupNeverMisses` | internal/projectstate/reducer.go:196-241 | the projection look-up finds a row for every current resource, the matching one |
| `ProjectInvariants.ApplyKeepsSound` | internal/projectstate/reducer.go:81-321 | every accepted event keeps resources, claims, epochs and messages mutually consistent, and no event panics |
| `ProjectInvariants.DispatchesFit` | internal/projectstate/reducer.go:288-316 | dispatches inject into acceptances, so they never outnumber them |
| `ProjectHistory.HistoriesAreSound` | internal/projectstate/reducer.go:81-138 | after every history the snapshot is empty or sound, and the next event cannot panic |
| `ProjectHistory.EpochsNeverMoveBack` | internal/projectstate/reducer.go:242-287 | over every history, from any point on, epochs keep who they are for and only advance; ended ones are frozen |
| `ProjectHistory.AcceptedIsLinked` | internal/projectstate/reducer.go:81-138 | an accepted history is one creation followed by events each naming the one before |
| `ProjectHistory.RejectionsLeaveNoTrace` | internal/projectstate/reducer.go:81-138 | leaving out the rejected events of any history gives an accepted history with the same end |
| `ProjectHistory.NoAcceptedSiblings` | internal/projectstate/reducer.go:124-132 | in any history, two events naming the same previous head are never both accepted at their turns |
| `ProjectHistory.NeverAcceptedTwice` | internal/projectstate/reducer.go:124-138 | an event accepted at its turn in any history is rejected ever after |
| `ProjectHistory.OneAcceptedOrder` | internal/projectstate/reducer.go:81-138 | any set of events has at most one order in which all are accepted |
| `ProjectAudit.RowsAreNeverTakenBack` | internal/projectstate/reducer.go:140-321 | over every history claims, resources, threads, acceptances and dispatches only grow; released claims and removed resources are frozen |
| `ProjectAudit.RowsCarryAcceptedStamps` | internal/projectstate/reducer.go:140-321 | over every history each acquired, released, added, removed, started, ended, accepted and dispatched stamp is the identifier and time of an accepted event |
| `ProjectLegality.AcceptsExactly` | internal/projectstate/reducer.go:81-321 | an empty or sound snapshot accepts an event if and only if the event is legal there, stated operation by operation on the snapshot and the event |
| `ProjectReading.AcceptedWhenLegal` | internal/projectstate/reducer.go:81-321 | the same after every history |
| `ProjectReading.RecordFollowsEvents` | internal/projectstate/reducer.go:91-321 | after every history, from its accepted events alone: archived if and only if the last archiving or unarchiving event archived; lifecycle, name and brief of the last event about each; identity of the first event, head and update time of the last; a current assignment if and only if a configuration follows every end, with its state and thread those of the last event about either; the agent of the last ended epoch suggested unless a configuration followed; every acceptance, dispatch and thread as its event states it |
| `ProjectReading.HoldingsFollowEvents` | internal/projectstate/reducer.go:148-241 | after every history, from its accepted events alone: a resource is current if and only if the last event that introduced or retired it introduced it; its kind and paths are those of its last introduction, its health that of its last introduction or check; the order and the primary resource are those the events leave; live rows and held claims carry the stamps of the events they come from |
| `ProjectReading.EveryEpochIsTold` | internal/projectstate/reducer.go:242-287 | after every history each epoch row is the assignment that was current at some point, started by the configuration that was last then, and either still current or ended by the next accepted end, with its time and force |
| `ProjectMeaning.LastMeans` | internal/projectstate/reducer.go:81-138 | the last event about a topic is the one that no later event about it follows |
| `Delivery.DeliveryIsSafe` | internal/harnessbridge/dispatcher.go:224-331 | in every run with crashes and restarts, and with a safe provider, each message is accepted at most once per session, HQ completes it only after an acceptance, and the ledger says accepted only of a submission accepted exactly once; that accepted messages do get completed is `AcceptedAnswerCompletes` |
| `Delivery.SafetyIsExact` | internal/harnessbridge/dispatcher.go:267-296 | at-most-once acceptance holds over all runs if and only if the provider is idempotent, cannot steer, or never answers an uncertain steering without an error |
| `Delivery.SilentSteeringDuplicates` | internal/harnessbridge/dispatcher.go:278-291 | the run in which a message is accepted twice otherwise |
| `Delivery.LedgerMovesForward` | internal/harnessbridge/dispatcher.go:224-265 | in every run, with any provider, a ledger entry stays or moves one step along unknown, pending, uncertain, accepted |
| `ProjectDelivery.CompletionMeansAcceptance` | internal/harnessbridge/dispatcher.go:156-179 | in every run, with any provider, HQ completes a message only after some session accepted it |
| `ProjectDelivery.ProjectMessagesAreNotResent` | internal/store/project_delivery.go:224-234 | a project message whose attempt was marked and given back is never sent again, in any continuation |
| `ProjectDelivery.StuckForever` | internal/store/project_delivery.go:224-234 | if moreover no session has accepted it, then in no continuation is it accepted or completed |
| `ProjectRecovery.CompletableExactly` | internal/harnessbridge/dispatcher.go:224-265 | with any provider, a message that was marked and given back is completed by some continuation if and only if its dispatch is recorded, or sessions offer lookup and one accepted it or still may |
| `ProjectRecovery.AcceptedAndLost` | internal/harnessbridge/dispatcher.go:311-318 | without lookup, a run after which an accepted message is completed by no continuation |
| `DeliveryProgress.AcceptedAnswerCompletes` | internal/harnessbridge/dispatcher.go:256-296 | in every run that awaits the answer to a submission or a steering call the provider has accepted: the accepting answer is possible, and three more steps, without another call or lookup, end idle with the message completed, accepted in the ledger and, for a project, recorded; a submission's operation becomes the active one |
| `DeliveryProgress.FoundCompletes` | internal/harnessbridge/dispatcher.go:233-244 | in every run that looks up an accepted submission, on recovery or after steering: finding it is possible, and the same three steps complete the message, with the found operation active |
| `DeliveryProgress.KnownAcceptanceCompletes` | internal/harnessbridge/dispatcher.go:230-232 | a claimed message that the store has recorded or the ledger holds as accepted is completed without any call |
| `DeliveryProgress.CallsFollowTheBooks` | internal/harnessbridge/dispatcher.go:245-277 | in every run a call starts only in the dispatch loop, with the ledger already uncertain and a project attempt already marked; as a submission if no operation is active, and into the active operation only if the provider steers |
| `DeliveryProgress.AnswersSettle` | internal/harnessbridge/dispatcher.go:267-309 | an answer ends its call and writes neither ledger nor store; a submission not accepted is given back, a steering call not accepted without an error is looked up |
| `DeliveryProgress.LookupsSettle` | internal/harnessbridge/dispatcher.go:284-331 | a lookup writes nothing; what it finds was accepted and is recorded next; what is absent is sent on recovery and waited with after steering; a failed lookup gives the message back, except after a steering call that had not failed |
| `DeliveryProgress.WaitsForChange` | internal/harnessbridge/dispatcher.go:75-89 | a waiting message goes on only when the operation it waits for is no longer active |
| `DeliveryProgress.RejectedSteeringIsSubmitted` | internal/harnessbridge/dispatcher.go:278-296 | in every run, a rejected steering call is followed, once no operation is active, by a submission in the same claim |
| `DeliveryProgress.CompletedIsFinal` | internal/harnessbridge/dispatcher.go:156-179 | a completed message is never claimed or sent again, in any continuation |
| `DeliveryProgress.RecordedMeansAccepted` | internal/store/project_delivery.go:236-282 | in every run, a project dispatch is recorded if and only if its attempt row says accepted |
| `DeliveryProgress.GivenBackIsForgotten` | internal/store/project_delivery.go:284-300 | whenever a message is given back, no pending attempt row of it is left |
| `Completability.CompletableHereExactly` | internal/harnessbridge/dispatcher.go:224-296 | with any provider and configuration, from every idle state of every run, some continuation in the same session that claims only this message completes it if and only if its dispatch is recorded, or its attempt is spent and lookup can find it accepted here, or it is not spent and the ledger is not uncertain or the provider offers lookup or idempotence |
| `Completability.CompletableFromIdle` | internal/harnessbridge/dispatcher.go:224-296 | with any provider and configuration, from every idle state of every run, some continuation completes the message if and only if its attempt is not spent, or its dispatch is recorded, or sessions offer lookup and one accepted it or still may; outside projects, always |
| `ProjectQueue.LaterIsUntouched` | internal/store/project_delivery.go:159-165 | while a message is not complete, nothing is ever done about a later one |
| `ProjectQueue.HeadOfLineBlocks` | internal/store/project_delivery.go:159-165 | once a message meets neither half of the condition, no later message of the project is ever claimed, sent, accepted or completed |
| `ProjectQueue.CompletableInOrder` | internal/store/project_delivery.go:144-222 | the message that is served next is completed by some ordered continuation under exactly the same condition |
| `ProjectDelivery.RejectionGetsStuck` | internal/harnessbridge/dispatcher.go:267-276 | a run that gets there by one rejected submission |
| `ProjectDelivery.RetryIsRefused` | internal/harnessbridge/dispatcher.go:233-258 | in the next claim lookup proves absence and the mark is refused |
| `ProjectDelivery.SteeredThenSubmitted` | internal/harnessbridge/dispatcher.go:269-295 | a run with one claim, not given back and not restarted, in which the message is sent by steering and again by submission |
| `EventWork.KeyIdentifiesExactly` | internal/harnessbridge/events.go:41-57 | a key identifies its activity among all replaceable works if and only if the five owner fields hold no separator and no part of the item but its last is a latest-value kind; no other work has a key |
| `EventWork.PlanAndDiffShareAKey` | internal/harnessbridge/events.go:41-57 | two activities that differ in operation, kind and item only and share a key |
| `EventWork.OnlyLatestValuesHaveKeys` | internal/harnessbridge/events.go:41-57 | a work has a key if and only if it carries no output and is a plan, diff, progress or running operation |
| `EventBuffer.EventBuffer.constructor` | internal/harnessbridge/event_buffer.go:21-26 | an empty open buffer of capacity at least one |
| `EventBuffer.EventBuffer.Enqueue` | internal/harnessbridge/event_buffer.go:28-63 | keeps the contents equal to the live works in order of acceptance, within capacity; the exact conditions for refusal and for waiting |
| `EventBuffer.EventBuffer.Replace` | internal/harnessbridge/event_buffer.go:37-48 | shifting the array in place and overwriting its last item leaves exactly the live works |
| `EventBuffer.EventBuffer.Dequeue` | internal/harnessbridge/event_buffer.go:65-84 | hands out the oldest live work and shifts the array in place; a closed buffer is drained before it ends |
| `EventBuffer.EventBuffer.Close` | internal/harnessbridge/event_buffer.go:86-93 | closing loses nothing |
| `EventBuffer.ContentsAreDetermined` | internal/harnessbridge/event_buffer.go:28-84 | the history of acceptances and dequeues determines the contents |
| `EventBuffer.ReplaceKeeps` | internal/harnessbridge/event_buffer.go:37-48 | replacing a held key leaves exactly the works not taken and not superseded, in order |
| `EventBuffer.DequeueKeeps` | internal/harnessbridge/event_buffer.go:65-75 | dequeues have strictly increasing order of acceptance |
| `EventBuffer.UnkeyedIsNeverLost` | internal/harnessbridge/event_buffer.go:28-84 | a work without a key is taken or still held |
| `EventBuffer.LatestValueIsNeverLost` | internal/harnessbridge/event_buffer.go:37-48 | for every accepted work, it or a later value of its key is taken or held |
| `EventBuffer.FinalWorkIsNeverLost` | internal/harnessbridge/event_buffer.go:28-84 | outputs, ended operations and every activity of another kind are each taken or still held |
| `SubscriptionHub.MergeInvalidations` | internal/domainrpc/subscriptions.go:132-144 | the greater revision, the union of topics without repetition, and the full-snapshot flag of either |
| `SubscriptionHub.Subscriber.Filter` | internal/domainrpc/subscriptions.go:107-118 | keeps exactly the wanted topics; only a subscriber without topics keeps the full-snapshot flag |
| `SubscriptionHub.Subscriber.Enqueue` | internal/domainrpc/subscriptions.go:120-130 | both halves together: one take followed by one put of the merged notice |
| `SubscriptionHub.NoReceiveBetweenHalves` | internal/domainrpc/subscriptions.go:120-130 | in every run, nothing can be received between the two halves, so running them together loses no interleaving |
| `SubscriptionHub.Subscriber.Activate` | internal/domainrpc/subscriptions.go:73-85 | only once; the pending notice is queued exactly when it is newer than the acknowledged revision |
| `SubscriptionHub.Registry.Publish` | internal/domainrpc/subscriptions.go:55-71 | every subscriber, in any order, is shown the change; revision zero is ignored |
| `SubscriptionHub.NothingIsLost` | internal/domainrpc/subscriptions.go:55-130 | in every interleaving, a wanted topic published since registration is pending, in hand, queued or drained since, in a notice at least as new, unless the acknowledged snapshot covers it |
| `SubscriptionHub.EveryoneIsShown` | internal/domainrpc/subscriptions.go:55-71 | when the publisher lets go of the lock every subscriber has been shown every change |
| `SubscriptionHub.SendNeverDrops` | internal/domainrpc/subscriptions.go:120-130 | a send always finds the one slot empty |
| `SubscriptionHub.NothingIsInvented` | internal/domainrpc/subscriptions.go:55-144 | a drained notice names only topics published to the subscriber since it registered and wanted by it, and carries the revision of a change published since then |
| `SubscriptionHub.ActivationSendsNews` | internal/domainrpc/subscriptions.go:73-85 | in every interleaving, an activation sends a notice if and only if some wanted change shown since registration is newer than the acknowledged revision |
| `TimelineClock.EventRelay.NextCreatedAt` | internal/harnessbridge/events.go:374-383 | the first whole second that is not before the reading's own and is after the last instant; it becomes the last instant |
| `TimelineClock.EventRelay.AdvanceCreatedAt` | internal/harnessbridge/events.go:385-391 | the clock holds the later of the two instants |
| `TimelineClock.EventRelay.AssignWorkTime` | internal/harnessbridge/events.go:393-418 | the work gets the first admissible second: its output exactly then, its activity within it and at least a millisecond after the output, nothing else changed; work with nothing in it changes nothing |
| `TimelineClock.IssueAdvances` | internal/harnessbridge/events.go:377-382 | a whole second, not before the reading's, and later than the last one if and only if there is a last one or the reading lies past the zero time |
| `TimelineClock.IssueIsNext` | internal/harnessbridge/events.go:377-382 | of all whole seconds not before the reading's and after the last instant, the first |
| `TimelineClock.StampedStaysInside` | internal/harnessbridge/events.go:402-417 | times stay inside the issued second and keep the reading's fraction; an activity follows the output it comes with by at least a millisecond |
| `TimelineClock.TimesFollowIssueOrder` | internal/harnessbridge/events.go:374-418 | in every run, every time given out with one issue is before every time given out with a later one |
| `TimelineClock.IssuedAfterSeen` | internal/harnessbridge/events.go:385-391 | in every run, a time is issued only after every time the clock was advanced to |

## Left out

- Signing, hashing, encryption and key formats: event identifiers are given, and `Inspect` is a given status per event.
- JSON and SQL encodings, files, sockets, relays, processes, git: tables are sets of rows, ledger and store writes are atomic.
- `resourcesForEvent`: the resources of an event are a given set; only its own "event" resource is required to be its alone.
- The `event_reduction` rows, reasons and generations that rebuild and patch also write: they copy the reduction's result.
- The stages for peers and mailbox access: they refuse mailbox facts with the wrong signer, missing parents or no matching grant, and list the revocations of each grant; here that list is the given map `Revocations`.
- The stages for account selections and named agents: they refuse selections without active membership and agent facts without a matching claim or binding, and fold claims into agents by comparing timestamps pairwise.
- Messages, threads and activities as projections: they copy the payloads of projected events, group them by thread, and mark archived, restored and rejected messages in the modelled order.
- Device labels, relays and acceptance identifiers inside account projections; only the device states are modelled.
- Full equality of incremental and full reduction: impact deliberately stops at support resources; what does carry over is `AffectedReduction`.
- The test inside ingestion that new events were projected: failing it only rolls the whole ingest back.
- `Delivery`: the dispatcher's loops are a step machine on values rather than methods; a run may claim messages in any order, and `ProjectQueue` adds the order of a project; there is one dispatcher with one assignment, so leases and claim tokens are not modelled, nor are structured replies, timers, or the operation tracker's callbacks.
- DisplayOrder.OrderConversationEvents: the multiplication of seconds into milliseconds is not bounded to 64 bits, because times are far from that bound.
- ProjectReducer.SnapshotRef.Clone: health details, check times and end times are values; the source copies those references too, but replaces what they refer to and never writes through them.
- Waiting and waking in the event buffer: a caller told to wait simply tries again; fairness and cancellation of a waiting caller are not modelled.
- SubscriptionHub.NothingIsLost: says nothing about the full-snapshot flag over whole runs, which the topic filter drops; merging and filtering say what becomes of it.
- Client-side subscriptions, pagination cursors, the supervisor's sagas, the legacy bridge, command line, terminal interface and configuration.
