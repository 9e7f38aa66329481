# Verification of a Kubernetes governance platform's core

A Dafny model of the parts of the platform whose results people act on: the scheduler simulation shown to an approver,
the hash-chained audit trail, the leases of preview environments, the protocol by which quota requests are decided and
applied, the event hub behind the live stream, invoices and their digests, the paginated workload table, and the image
reference parser. `dafny verify dfyconfig.toml` checks everything.

Code that changes state step by step is modelled as classes and methods with loops; each method is proved equal to a
function of the old state, and the laws are lemmas about that function, mostly over every run of a state machine whose
steps include crashes, refused writes and stale reads. Hash functions are arbitrary: instead of assuming that SHA-256
is injective, the lemmas conclude "the same, or here are two texts with one hash".

| files | subject |
|---|---|
| `Text`, `StableSort` | strings as Go sees them (cut, split, decimal numbers), `sort.SliceStable` and filtering |
| `Packing`, `PackingLaws`, `SchedulableNodes`, `Simulator` | best-fit packing of pods on nodes and the schedulability verdict |
| `AuditEvents`, `AuditArchive`, `AuditChain`, `AuditLaws`, `AuditTampering`, `ArchiveLaws`, `ArchiveFormat`, `AuditService` | the chain, its table and the text of its archive, and its verification |
| `TTL`, `Lease`, `Attribution`, `Environments`, `PreviewLaws`, `EnvironmentLaws`, `EnvironmentExamples`, `EnvironmentTimer` | preview environments and their leases |
| `Requests`, `RequestLaws`, `DecisionLaws`, `RequestRetries`, `RevocationLaws`, `Preflight` | quota requests, decisions, crashes and retries, revocations, and the check before a decision |
| `Hub`, `HubLaws`, `HubDelivery` | the event hub, and the sends of several publishers at once |
| `Money`, `Invoice`, `InvoiceLaws`, `ReadingOrder`, `Biller`, `BillerLaws`, `BillContents` | exact amounts, invoices, the invoice table and billing |
| `Catalog`, `CatalogLaws`, `CatalogFilters` | the workload table and its pages |
| `Reference` | image references |

## What the proofs brought to light

Properties one would expect of the code that do not hold, each with the exact condition under which it does and with an
input that shows the failure:

- Greedy packing of different pods can leave one out although all would fit (`GreedyCanMissAPlacement`); on the
  identical pods the simulation packs it is optimal (`GreedyIsOptimal`).
- The number of simulated pods is what the headroom holds only if one pod fits on both resources; with the cpu raised by
  less than a pod it is what the memory alone holds, up to 500 (`FillWhenOneResourceIsShort`).
- The audit rows verify after every run of any writers, whatever ids come back (`RowsVerifyAfterEveryRun`): the trigger on
  insert sees to it. It also makes the table refuse a batch that holds a stored event anywhere but last
  (`AcceptedIffOnlyTheLastIsKnown`). So a batch that was stored but answered with an error, because the archive or the
  commit seemed to fail, can never be retried when it has two or more events, and what of it is missing from the archive
  stays missing (`RetryOfManyIsRefusedForGood`). A single event is accepted again (`RetryOfOneIsAccepted`): its archived
  hash is then no longer the row's, and comparing with the archive fails on that row for good (`StaleRowFailsForGood`);
  the cached tip is wrong until the next append, which is refused, has been lost (`ARefusalHealsTheTip`).
- A renewal shortens a lease if and only if the sum of the extensions leaves 64 bits
  (`RenewalNeverShortensUnlessItOverflows`); a preview granted the longest TTL and renewed by as much ends at once
  (`RenewingTheLongestLeaseEndsIt`).
- A preview that has begun to end stays ended, and a namespace is deleted only if it is the preview's own and its lease
  has passed, over every run in which nothing lands between a read and the write that rests on it: no renewal read before
  is patched in after the preview began to end or while a reconcile that judged it so is under way, and no foreign
  namespace takes the place of the one about to be deleted (`EveryRunIsFinal`); step by step that condition is exact for
  the property together with the ground it rests on, the renewals an end was judged by and the owner that was seen
  (`StepStaysFinalIff`): a late renewal too short to change anything counts as well. A renewal that lands after the end makes an Expired preview Ready again
  (`ALateRenewalBringsThePreviewBack`, on a run that `AnEndWithALateRenewalIsReached` exhibits); one that lands inside the
  reconcile loses the namespace of a preview whose stored lease runs on (`ARenewalInsideAReconcileComesTooLate`); and the
  delete, which goes by name, takes whatever stands there by then (`ASwappedNamespaceIsDeleted`).
- A subscription receives everything behind its cursor if and only if its channel never overflowed and nothing it allows
  was published between the two locks of `Subscribe` (`DeliveryIsGaplessIffNothingWasLostOrCameBetween`); an event that
  comes there is missed (`AnEventBetweenTheLocksIsMissed`). A cursor from before a restart is answered as complete
  (`ReplayOfAForeignCursor`).
- A subscriber's events can come out of the order of their cursors, without another one being published, if and only if an
  event it allows is still to be sent to it that comes before one it has taken, or two such events are still to be sent
  (`OrderCanBeLostIff`): two publishers whose later event is sent first do it (`TwoPublishersOvertake`), publishers that
  take turns never do (`PublishersInTurnDeliverInOrder`). A send on a channel that its subscription has closed by then,
  which ends the program, can come if and only if a publisher that listed the subscriber before has yet to send it an
  event it allows (`AClosedChannelIsSentToIff`, `ACancelledReceiverBringsThePublisherDown`).
- The audit archive gives the hashes of exactly the lines that were written, whatever failed, unless a write stopped inside
  a line, or lost only its newline and was followed by another write of the same day, or wrote a line of 16 MiB or more:
  then, and only then, reading it fails, and every comparison with it (`TheArchiveReadsBackIff`,
  `ComparisonFailsIffRuined`). A lost newline does no harm until the next append, which succeeds and ruins the file
  (`ALostNewlineSpoilsTheNextLine`).
- A grant is applied whatever has become of its request, be it withdrawn or rejected by another decision
  (`AGrantOutlivesItsRequest`, `AWithdrawnRequestIsApplied`); recording a decision does not close the request to another
  one (`ASecondDecisionIsAccepted`).
- A quota patch sets the target if and only if no field the division already had right was edited since it was read
  (`PatchSetsTheTargetIff`, `AnEditInBetweenSurvives`).
- A revoked grant can still be applied if and only if it was approved and not applied yet and either the clock stands at
  the very moment of the revocation or a reconcile is under way that read the grant before (`APatchCanFollowIff`). Over
  every run after a revocation no patch of it comes from anywhere else, and no more than one from the reconcile that was
  under way (`AfterARevocation`); that one may come any time later and sets the target under a grant that is stored as
  revoked (`ARevocationInsideAReconcileComesTooLate`).
- A grant that lapses between the patch and the crash's retry leaves the quota changed with the decision marked expired and
  never applied (`LapseAfterTheCrashHidesThePatch`); the timed callbacks of a grant, if each comes exactly on time, stop at
  its last instant, before it has lapsed (`CallbacksStopAtTheEndOfTheGrant`).
- A month that was billed is billed again with the same workloads if and only if the list of invoices could not be read or
  the digest came out different (`RebillingWritesIff`), and the digest text is another one if and only if workloads that
  share a namespace and a name were read in an order that changes what they request, one after the other
  (`DigestStaysIffReadAlike`): workloads of different kinds may share both, and the query leaves their order open. A
  Deployment and a StatefulSet of one name do (`TwoKindsOfOneNameTie`, `ATieBillsTheMonthAgain`); workloads with
  names of their own never do (`DistinctNamesReadAlike`). The limit of sixty invoices on the list is never in the way of a
  sweep (`NoNewerInvoice`).
- Printing and reading an image reference gives it back exactly when a pinned one has no colon in the last component of
  its repository and an unpinned one no tag that ends in white space (`ReadingBackWhatWasPrinted`, `BothExceptionsOccur`).

## Model

| member | source | states |
|---|---|---|
| Text.LessWhereTheyPart | internal/cost/invoice.go:92-97 | the order of texts everything is sorted by: a beginning comes first, else the lower character where they part |
| Packing.BestFit | internal/simulate/packing.go:85-101 | the index returned is the first of the fitting nodes with the least cpu slack, or -1 when the pod fits on none |
| Packing.Place | internal/simulate/packing.go:36-83 | the in-place loop computes the specified packing of the schedulable nodes, largest pods first, with the exhausted names sorted |
| PackingLaws.PackKeepsTheLedger | internal/simulate/packing.go:54-75 | every node ends up charged with exactly the pods recorded as sent to it; the rest come back in order and are counted |
| PackingLaws.PackConserves | internal/simulate/packing.go:54-75 | added allocation plus the sizes of unplaced pods is the sum of all pods asked for |
| PackingLaws.PackNeverOverfills | internal/simulate/packing.go:54-101 | no allocation shrinks, and none grows past the node's capacity |
| PackingLaws.UnplacedFitsNowhere | internal/simulate/packing.go:54-101 | every unplaced pod fits on no node even at the end |
| PackingLaws.GreedyFillsAllRoom | internal/simulate/packing.go:36-101 | identical pods: as many are placed as there is room for, summed over the nodes |
| PackingLaws.GreedyIsOptimal | internal/simulate/packing.go:36-101 | identical pods: no assignment that respects the capacities places more |
| PackingLaws.NothingLeftIffPlaceable | internal/simulate/packing.go:36-101 | identical pods: nothing is left over if and only if a full placement exists |
| PackingLaws.ExhaustedMeansFilledUp | internal/simulate/packing.go:62-83 | a node is reported exhausted if and only if it took a pod and has no cpu or no memory left |
| PackingLaws.GreedyCanMissAPlacement | internal/simulate/packing.go:36-101 | concrete different pods that all fit on two nodes, of which the loop leaves one out |
| SchedulableNodes.TheTightestNodeTakesIt | internal/simulate/packing.go:85-101 | in allocatable and allocated figures: a pod goes to the first of the nodes with the least cpu left of those with enough of both, and nowhere if and only if there is none |
| SchedulableNodes.PackedOnTheList | internal/simulate/packing.go:36-83 | a place in the list of nodes for every pod: only schedulable nodes get any, each is charged with exactly what was sent to it, and the rest are unplaced |
| SchedulableNodes.PlaceReports | internal/simulate/packing.go:36-83 | what Place answers: each schedulable node under its name with what it had and was sent, no other node, and the unplaced pods |
| SchedulableNodes.ExhaustedOnTheList | internal/simulate/packing.go:62-83 | a schedulable node is among the exhausted if and only if it got a pod and has no cpu or no memory left of what is allocatable |
| SchedulableNodes.ExhaustedInOrder | internal/simulate/packing.go:74-81 | in the order of their names |
| SchedulableNodes.PlaceableOnTheList | internal/simulate/packing.go:36-43 | the nodes that are packed can take the pods if and only if the list can by its schedulable nodes |
| SchedulableNodes.RoomIsOnTheList | internal/simulate/packing.go:36-43 | their room is the sum over the schedulable nodes of the list |
| SchedulableNodes.DecreasingIs | internal/simulate/packing.go:45-52 | the same pods, by cpu and then memory, largest first |
| SchedulableNodes.EqualPodsKeepTheirOrder | internal/simulate/packing.go:45-52 | pods of one size in the order they came in |
| Simulator.TypicalPod | internal/simulate/simulator.go:166-198 | the median by cpu, floored at one millicore and one byte, or the fallback pod |
| Simulator.Fill | internal/simulate/simulator.go:234-270 | identical pods of the typical size, named from one on; how many is the subject of the next two rows |
| Simulator.FillIsTheLargestThatFits | internal/simulate/simulator.go:234-270 | when one pod fits the headroom on both resources: the largest number up to the cap that does |
| Simulator.FillWhenOneResourceIsShort | internal/simulate/simulator.go:234-270 | otherwise: what the memory alone holds, up to the cap, if it holds a pod, and else one |
| Simulator.VerdictIsExact | internal/simulate/simulator.go:76-100 | nothing is left unplaced if and only if the list of nodes could take all the pods, by nodes that are schedulable and no others, in some arrangement |
| Simulator.SimulateImpact | internal/simulate/simulator.go:55-104 | the impact: the typical pod, the pods placed (the room on the schedulable nodes, if that is less) and unplaced, the exact verdict, the exhausted nodes as Place names them, and the commitment after |
| Simulator.CordonedNodesChangeNothing | internal/simulate/packing.go:38-41 | a node that is not schedulable, put anywhere into the list, changes no figure of the impact |
| Simulator.TheCapIsFiveHundred | internal/simulate/simulator.go:234-270 | no more than 500 pods are ever simulated, and exactly that many when there is headroom for more |
| AuditEvents.Verify | internal/audit/chain.go:96-124 | intact if and only if every event follows, with its link, its digest and each of the twelve signed columns; otherwise the first failing index and its reason |
| AuditEvents.IntactInParts | internal/audit/chain.go:96-124 | a concatenation is intact if and only if both parts are, the second from the first's last hash |
| AuditEvents.FirstBreakInParts | internal/audit/chain.go:96-132 | the break of the whole is the break of the first broken part |
| AuditEvents.TamperingNeedsACollision | internal/audit/event.go:49-75 | two intact trails with the same start, length and last hash are equal at every position, in links, hashes, signed texts and each of the twelve columns, or exhibit a collision |
| AuditTampering.IntactColumnsWereSigned | internal/audit/event.go:58-80 | in an intact trail each of the twelve columns, one by one, is that of the event whose text was signed, the time to the microsecond |
| AuditTampering.IntactIsLinked | internal/audit/chain.go:96-124 | in an intact trail each event carries the hash before it and the digest of that and its own text |
| AuditTampering.ARewrittenColumnShows | internal/audit/event.go:58-80 | after every run of any writers: one stored row with any of the twelve columns overwritten breaks the trail at that row, for columns that disagree |
| AuditTampering.AnAlteredRowShows | internal/audit/chain.go:96-124 | the same for its signed text or its hash, as an alteration, or the new text has the old digest |
| AuditTampering.ARelinkedRowShows | internal/audit/chain.go:96-124 | the same for its link, as one that does not follow |
| AuditTampering.ARemovedRowShows | internal/audit/chain.go:96-124 | a row taken out shows at the one behind it, save for a fixed point of the digest |
| AuditTampering.WhatARowKeeps | internal/audit/store.go:63-83 | a row keeps all of an event but its annotations and what is below the microsecond |
| AuditTampering.WhatAnInsertDoes | internal/db/migrations/0005_audit.sql:1-68 | an insert goes through if and only if it is linked to the last row and its id is known or its hash new; it adds the row under the next number, or nothing for a known id |
| AuditTampering.WhatATransactionDoes | internal/audit/store.go:56-86 | all inserts of a batch in turn, or none |
| AuditTampering.WhatTheTableKeeps | internal/audit/store.go:56-86 | the whole batch, also when only the answer to the commit was lost, or what was there; numbers are used up to the refused insert |
| AuditTampering.HashesStayApart | internal/db/migrations/0005_audit.sql:1-25 | over every run no two rows have one hash |
| AuditChain.Store.Append | internal/audit/store.go:56-86 | the transaction, insert by insert: all events but known ids, or nothing when it fails or the trigger or a constraint refuses one, whatever the commit reports |
| AuditArchive.Archive.Write | internal/audit/archive.go:42-84 | the text of the batch, or the part of it that was written before a failure, at the end of the day's file; and which lines are whole in it |
| AuditArchive.Archive.ReadHashes | internal/audit/archive.go:117-156 | file by file and line by line as the scanner cuts them: the last hash of each id, or an error when a line does not decode or does not fit the buffer |
| ArchiveLaws.ALineBelow16MiBIsRead | internal/audit/archive.go:117-156 | a line is decoded if and only if it is shorter than 16 MiB |
| ArchiveLaws.BatchOnEnd | internal/audit/archive.go:54-76 | behind a newline a write adds exactly its whole lines, and a spoilt one if and only if it stops inside a line |
| ArchiveLaws.BatchOnRest | internal/audit/archive.go:54-76 | behind a line without its newline any write spoils that line |
| ArchiveLaws.TheArchiveReadsBackIff | internal/audit/archive.go:54-156 | after every run of any writers: reading fails if and only if a write stopped inside a line, lost only its newline and was followed by another to the same file, or wrote too long a line; and otherwise gives the hashes of exactly the lines written |
| ArchiveLaws.ALostNewlineSpoilsTheNextLine | internal/audit/archive.go:50-76 | from an empty archive: a write that loses its newline, readable; a successful append the same day, unreadable; the same append after midnight, readable |
| ArchiveFormat.ALineFormatExists | internal/audit/archive.go:57-68 | what is asked of the text of a line (no newline, it reads back, and a beginning of one or several run together do not) can be had |
| AuditService.ComparisonFailsIffRuined | internal/audit/service.go:144-148 | what the comparison meets after every run: an error if and only if the files were ruined, and otherwise the hashes of the lines written |
| AuditChain.Chain.Append | internal/audit/chain.go:34-84 | tip, read flag, table and archive after an append, for every combination of failures |
| AuditTampering.SucceedsIff | internal/audit/chain.go:34-84 | an append succeeds if and only if the table takes the batch and says so and the archive is written whole; then the last digest is cached, and otherwise nothing |
| ArchiveLaws.ASuccessIsArchived | internal/audit/chain.go:34-84 | behind whole lines a success leaves the batch in the table and one line to each event in the archive, in order, with its id and hash |
| AuditTampering.FailsBeforeTheTable | internal/audit/chain.go:34-60 | it fails with table and archive untouched if the tip is needed and cannot be read or an event cannot be marshalled |
| AuditLaws.RowsVerifyAfterEveryRun | internal/db/migrations/0005_audit.sql:47-68 | over every run, of any writers with anything cached and with ids that come back, the rows verify, ids are unique, and rows and lines only grow |
| AuditLaws.AcceptedBatchesKeepTheTrail | internal/db/migrations/0005_audit.sql:47-68 | a signed batch the table takes leaves it verifiable, whatever it was linked to |
| AuditLaws.AcceptedIffOnlyTheLastIsKnown | internal/audit/store.go:63-83 | a batch linked to the tip, its digests new, is taken if and only if none of its events but the last has a known id |
| AuditLaws.KnownBeforeTheLastIsRefused | internal/audit/store.go:63-83 | a batch with a stored event before its last is refused whatever it was linked to, save for a fixed point of the digest |
| AuditLaws.AppendKeepsSound | internal/audit/chain.go:34-84 | if what the table confirms is fresh: the cached tip stays true and the archive within the rows, whatever fails |
| AuditLaws.EveryRunStaysSound | internal/audit/chain.go:34-84 | the same over every run of one writer with restarts, and every batch answered with success is in the archive |
| AuditLaws.ArchivedHashIsTheRows | internal/audit/archive.go:117-156 | the archived hash of a row, when there is one, is the row's own |
| AuditLaws.SuccessKeepsTheTipIffFresh | internal/audit/chain.go:61-83 | a success leaves the cached tip true if and only if the batch was fresh |
| AuditLaws.StoredBatchIsRefusedForGood | internal/audit/chain.go:61-64 | once an event before its last is stored, a batch comes to nothing after every run and under any faults |
| AuditLaws.RetryOfManyIsRefusedForGood | internal/audit/chain.go:61-74 | a fresh batch of two or more events that was stored but answered with an error is refused at every retry |
| AuditLaws.RetryOfOneIsAccepted | internal/audit/chain.go:61-81 | a stored event is accepted again: no new row, a cached tip that is its new digest, and a line with it |
| AuditLaws.ARefusalHealsTheTip | internal/audit/chain.go:61-64 | with a tip no row has, the next append comes to nothing and the tip is read again |
| AuditLaws.FreshIsAccepted | internal/audit/chain.go:34-84 | on a true tip a fresh batch with new digests is accepted when nothing fails |
| AuditLaws.StaleLineStays | internal/audit/archive.go:117-156 | after an accepted retry the archive answers with a hash that is not the row's, over every run without that id |
| AuditService.StaleRowFailsForGood | internal/audit/service.go:144-172 | comparing any window that holds the row with the archive then fails, over every such run |
| AuditService.Range | internal/audit/store.go:122-155 | the rows of a window and the hash of the row before it |
| AuditService.WhatRangeAnswers | internal/audit/store.go:122-155 | in numbers: exactly the rows from the first to the last number asked for, or to the end, and the hash of the row right before them, if any |
| AuditService.CompareArchive | internal/audit/service.go:144-172 | the first row the archive lacks or has differently |
| AuditService.WindowIsLinkedIffIntact | internal/audit/service.go:91-142 | a window verifies on its own if and only if its rows are linked in the whole trail |
| AuditService.VerifyChain | internal/audit/service.go:91-142 | the rows of the window by their numbers; what is reported about them is true of the whole trail, by the number of the first row that fails; an error if and only if the archive is to be compared and cannot be read |
| AuditService.SoundTrailsVerify | internal/audit/service.go:91-142 | a sound trail verifies, and against an archive that can be read if and only if it lists every row |
| TTL.FormatTTLReadsBack | internal/environments/lease.go:72-106 | a formatted TTL parses as its whole minutes |
| TTL.FormatTTLIsNearest | internal/environments/lease.go:72-89 | those are one minute below half a minute, and else the nearest whole minutes, halves rounded up, never leaving 64 bits; formatting again changes nothing |
| TTL.FormatTTLMatchesThePattern | internal/environments/lease.go:72-89 | the text matches the pattern of the CRD and is not empty |
| TTL.HoursAndMinutesAreWritten | internal/environments/lease.go:72-89 | the text of so many hours and minutes: both, or the one that is not zero |
| TTL.OnlyZeroGoesWithoutAUnit | internal/environments/lease.go:91-106 | of the texts without a unit only 0 is a duration |
| TTL.ACountIsRead | internal/environments/lease.go:91-106 | a count of any unit, with or without a sign, reads as that many nanoseconds, or as nothing beyond 64 bits |
| Lease.LeaseOf | internal/environments/lease.go:36-70 | the loop over renewals computes the sum of TTL and extensions, clamped, or fails on an unreadable one |
| Lease.ParseDurationReads | internal/environments/lease.go:91-106 | the modelled time.ParseDuration reads every formatted TTL back as its whole minutes, within int64 |
| Lease.CeilingHolds | internal/environments/lease.go:52-69 | no lease ends later than creation plus seven days |
| PreviewLaws.ALeaseRunsWhatWasGranted | internal/environments/lease.go:36-70 | a TTL and extensions in whole minutes: the lease ends their sum after creation, or seven days after if that is less, and is marked as clamped if and only if it is |
| PreviewLaws.WithoutATTLItRunsTwoDays | internal/environments/lease.go:37-42 | no TTL is 48 hours |
| PreviewLaws.ReadyBeforeItsEnd | internal/environments/reconciler.go:45-131 | before that instant a reconcile leaves the preview Ready, in its own namespace, with that end stored and a callback in ten minutes or at the end |
| PreviewLaws.ReclaimedFromItsEndOn | internal/environments/reconciler.go:133-183 | from that instant on the preview's own namespace is deleted, another's is left, and without one the preview has expired |
| PreviewLaws.PendingWhen | internal/environments/reconciler.go:60-110 | an unreadable lease, or a live one whose division is gone, leaves the preview Pending and its namespace as it is |
| Lease.RenewalNeverShortensUnlessItOverflows | internal/environments/lease.go:44-55 | one more renewal keeps or raises the grant if and only if the sum stays within 64 bits |
| Lease.RenewingTheLongestExpiresAtOnce | internal/environments/lease.go:44-69 | the longest whole-hour TTL, extended by as much, is a lease that ended before it began |
| Attribution.StampRenewals | internal/admission/attribution.go:134-157 | in place: old entries must be unchanged, new ones are stamped with the user and the time |
| Attribution.Handle | internal/admission/attribution.go:89-132 | who is denied, and what an admitted object becomes |
| Attribution.HistoryIsAppendOnly | internal/admission/attribution.go:89-157 | over every sequence of updates the owner is constant, renewals only grow, and each names the user who added it |
| Attribution.WhoCreatesOwns | internal/admission/attribution.go:89-110 | an admitted create is owned by its user, whatever it said; renewals it came with are taken as they are |
| Attribution.UpdatesLeaveWhatWasGranted | internal/admission/attribution.go:111-157 | an update of a stamped kind is admitted if and only if owner and renewals so far are unchanged |
| Attribution.AddedRenewalsNameTheUser | internal/admission/attribution.go:134-157 | each renewal it adds names its user, keeps its reason and extension, and has the time it gives or that of the update |
| Attribution.TheCreatorStaysTheOwner | internal/admission/attribution.go:89-132 | whoever created an object is its owner after every sequence of updates |
| Attribution.OtherUpdatesKeepTheOwner | internal/admission/attribution.go:111-132 | of kinds without renewals an update is admitted as it is, if and only if it leaves the owner |
| Environments.Reconciler.Reconcile | internal/environments/reconciler.go:45-131 | the object, namespace and callback after a reconcile, for every fault |
| Environments.Reconciler.Reclaim | internal/environments/reconciler.go:133-183 | the same for taking a preview down |
| PreviewLaws.WhatAFailureLeavesBeforeItsEnd | internal/environments/reconciler.go:60-131 | for each call that can fail of a reconcile of a live preview: all before it is done, nothing behind it, and it comes again |
| PreviewLaws.WhatAFailureLeavesFromItsEndOn | internal/environments/reconciler.go:133-183 | the same for one that is over |
| Environments.Reconciler.Renew | internal/environments/service.go:160-214 | a renewal read and patched at once: every refusal, a failed patch, and the list with the normalised extension |
| Environments.Reconciler.Request | internal/environments/service.go:81-158 | every refusal, a failed create, the existing preview, or a new one with its TTL normalised |
| PreviewLaws.RenewedIff | internal/environments/service.go:160-214 | a renewal is granted if and only if its reason, its extension, the preview and the number of renewals allow it, and is then the last, in the caller's name and in whole minutes |
| PreviewLaws.RequestedIff | internal/environments/service.go:81-158 | a preview is granted if and only if the call is complete, its TTL can be read and its division is there |
| PreviewLaws.ProvisionedUnlessTaken | internal/environments/reconciler.go:185-210 | a namespace is refused if and only if another object controls it; otherwise the preview is among its owners, in place of a namesake if there is one, and the others stay |
| EnvironmentLaws.StepIsSafe | internal/environments/reconciler.go:45-183 | one step of the service, of a reconcile in its parts or of the outside keeps the world sound and what the next row says |
| EnvironmentLaws.EveryRunIsSafe | internal/environments/reconciler.go:45-183 | at every step of every run, with the reads and writes of renewals and reconciles apart: identity is constant, ReclaimedAt is set once, renewals only grow, no expiry beyond creation plus seven days, and the reconciler sets out to delete a namespace only when it has just seen the preview's owner reference on it |
| EnvironmentLaws.EveryRunIsFinal | internal/environments/reconciler.go:60-183 | over every run in which no renewal lands late, also not inside a reconcile, and no foreign namespace takes the place of the one about to be deleted: ending phases are never left, nothing is renewed any more, and a namespace is deleted only if owned and at or after the expiry |
| EnvironmentLaws.StepStaysFinalIff | internal/environments/reconciler.go:60-183 | one step keeps that, and the ground it rests on, if and only if it is neither a late renewal nor such a swap |
| EnvironmentLaws.AReconcileIsARun | internal/environments/reconciler.go:45-183 | the method's reconcile, whatever call of it fails, is its read and its parts in a row |
| EnvironmentExamples.ALateRenewalBringsThePreviewBack | internal/environments/service.go:186-206 | the run from Ready by Expired back to Ready, the renewal read before and patched after |
| EnvironmentExamples.ARenewalInsideAReconcileComesTooLate | internal/environments/reconciler.go:167-171 | a renewal patched in after a reconcile read the preview: its namespace is deleted although the stored preview is not ending and its lease runs on |
| EnvironmentExamples.ASwappedNamespaceIsDeleted | internal/environments/reconciler.go:158-171 | a foreign namespace put there between the check of the owner and the delete is deleted |
| EnvironmentExamples.AnEndWithALateRenewalIsReached | internal/environments/service.go:81-158 | a run from nothing to where that begins |
| EnvironmentExamples.RenewingTheLongestLeaseEndsIt | internal/environments/service.go:177-206 | the service renews a live preview into one whose lease has passed |
| EnvironmentLaws.RenewIsARun | internal/environments/service.go:160-214 | the method's renewal is a read followed by a patch |
| EnvironmentLaws.EndingIsLeftIff | internal/environments/reconciler.go:60-88 | for any state: the exact condition under which a reconcile takes a preview out of its ending |
| EnvironmentTimer.TimerReclaimsOnTime | internal/environments/reconciler.go:89-93 | following only the requested callbacks reaches reclaim at exactly the expiry, after the rounded-up number of ten-minute sweeps, and not before |
| Requests.Platform.Decide | internal/requests/decisions.go:147-238 | every refusal in its order, and the decision that is recorded |
| DecisionLaws.AcceptedIff | internal/requests/decisions.go:147-238 | a decision is recorded if and only if the request is neither withdrawn nor Approved, Rejected, Applied or Expired, its digest is the one seen, and the call is complete |
| DecisionLaws.RefusedBecause | internal/requests/decisions.go:147-211 | the reason of each refusal, in order |
| DecisionLaws.RecordedIs | internal/requests/decisions.go:196-220 | every field of the decision; a grant ends exactly the asked duration after the decision, or ninety days after it |
| DecisionLaws.ClosedRequestsAreNotDecided | internal/requests/decisions.go:176-179 | in every state of the protocol: a decide step on a withdrawn or decided request leaves all decisions as they are |
| DecisionLaws.AWithdrawnRequestIsNeverDecided | internal/requests/decisions.go:176-179 | over every run: withdrawn stays withdrawn, and no decision on the request is recorded any more |
| DecisionLaws.DecidingStoresTheDecision | internal/requests/decisions.go:196-238 | the decision is stored under its name and nothing else changes |
| DecisionLaws.AWithdrawalIsStored | internal/requests/service.go:231-268 | a withdrawal sets its flag, once, and leaves the rest of the request |
| DecisionLaws.ARequestIsStored | internal/requests/service.go:104-171 | a submitted request is stored as asked, undecided and without evidence, if its division is there |
| DecisionLaws.ARevocationIsStored | internal/requests/decisions.go:288-322 | a revocation needs a reason, ends the grant at once and keeps what was decided |
| Requests.Platform.ReconcileRequest | internal/requests/controller.go:39-91 | the status written, or nothing when closed, unreadable or unchanged |
| DecisionLaws.AnUndecidedRequestAwaitsItsDecision | internal/requests/controller.go:61-91 | an open request whose documents were gathered awaits its decision under their digest, with the conditions found |
| DecisionLaws.NothingNewIsNotWritten | internal/requests/controller.go:252-267 | when nothing that is compared is new, nothing is written |
| DecisionLaws.AWithdrawnRequestIsMarked | internal/requests/controller.go:48-60 | a withdrawn request is marked so and keeps all else |
| DecisionLaws.WithoutItsDivisionItIsPending | internal/requests/controller.go:61-78 | without its division a request is Pending for that reason |
| DecisionLaws.ADecidedRequestIsLeft | internal/requests/controller.go:57-59 | a request that is decided is left as it is |
| DecisionLaws.AStaleReadWritesNothing | internal/requests/controller.go:252-267 | a request that changed since it was read is not written |
| Requests.Platform.WriteRequestStatus | internal/requests/controller.go:252-267 | no write when the compared fields agree, a refusal when the object changed since it was read |
| Requests.Platform.ApplyQuota | internal/requests/controller.go:345-359 | read and patched at once: the division gets the request's target, unless it is gone or the write stops |
| Requests.Platform.SetRequestPhase | internal/requests/controller.go:361-381 | the request is marked under the optimistic lock, or left alone when marked already |
| Requests.Platform.ReconcileDecision | internal/requests/controller.go:281-343 | patch, mark and status write in order, stopping wherever a write fails, and the callback asked for |
| DecisionLaws.AMarkSaysWhatWasDecided | internal/requests/controller.go:361-381 | the mark on a request: phase, decision and a condition naming both, with the other conditions and the evidence as they were |
| DecisionLaws.AGrantIsApplied | internal/requests/controller.go:301-343 | a standing grant sets the quota to the target, marks request and decision with the time, and is looked at again in an hour or at its end |
| DecisionLaws.ARejectionIsMarked | internal/requests/controller.go:281-343 | a rejection or a call for changes marks the request and touches no quota |
| DecisionLaws.ALapsedGrantIsMarked | internal/requests/controller.go:311-321 | a grant past its end is marked Expired and touches no quota |
| DecisionLaws.AGrantWithoutItsDivisionWaits | internal/requests/controller.go:345-359 | without its division nothing is written |
| RequestLaws.EveryRunHolds | internal/requests/controller.go:39-401 | over every interleaving of service calls, edits, split reconciles and crashes the protocol's invariant holds and nothing recorded is lost |
| RequestLaws.DigestsAreTrue | internal/requests/controller.go:79-90 | a stored digest is always the digest of the documents stored beside it, on requests and on decisions |
| RequestLaws.DecidedOnWhatWasSeen | internal/requests/decisions.go:176-220 | a decision's evidence hashes to the digest the approver presented, and stays so over every later run |
| RequestLaws.EveryPatchWasGranted | internal/requests/controller.go:301-327 | every quota patch goes to the target of the request named by an approved, unapplied grant read before its end |
| RequestLaws.PatchesOfOneDecisionAgree | internal/requests/controller.go:314-327 | patches repeated after crashes have the same target on the same division |
| RequestLaws.AppliedIsForGood | internal/requests/controller.go:314-327 | once applied, a decision stays applied and never patches again, over every later run |
| RequestLaws.PhasesTellTheTruth | internal/requests/controller.go:361-381 | a decided phase names a decision on that request with that outcome; Applied means a patch went through; Expired means the grant's end is reached |
| RequestLaws.QuotasAreTheLogReplayed | internal/requests/controller.go:345-359 | no quota changes but by an operator's edit or a merge patch of the fields that differed from the copy read, in the order of the log |
| RequestLaws.PatchSetsTheTargetIff | internal/requests/controller.go:345-359 | a patch sets the target if and only if the fields that were right when read still are; other divisions are untouched |
| RequestLaws.AnEditInBetweenSurvives | internal/requests/controller.go:345-359 | an edit of any field between read and patch survives wherever the division had the target's value when read, so the target is met if and only if the edit left those fields alone; the decision counts as patched all the same |
| RequestLaws.ClosedRequestsAreLeftAlone | internal/requests/controller.go:39-91 | only a decision reconcile changes the status of a closed request; a stale request reconcile is refused |
| RequestLaws.ASecondDecisionIsAccepted | internal/requests/decisions.go:176-238 | after a decision is recorded, another on the same evidence is accepted |
| RequestRetries.AGrantOutlivesItsRequest | internal/requests/controller.go:301-327 | the patch is made if and only if the grant stands and the division is there, also when the request was withdrawn or rejected; it is then marked Applied |
| RequestRetries.AWithdrawnRequestIsApplied | internal/requests/controller.go:301-327 | an approval, a withdrawal and a reconcile end with the withdrawn request applied |
| RequestRetries.AReconcileIsARun | internal/requests/controller.go:281-343 | the method's reconcile, wherever it stops, is its read and at most four parts in a row, in cluster and log |
| RequestRetries.RetryAfterACrashIsTheWholeReconcile | internal/requests/controller.go:281-343 | a reconcile stopped before its last write and then repeated leaves exactly what one reconcile leaves, the grant not lapsing in between |
| RequestRetries.LapseAfterTheCrashHidesThePatch | internal/requests/controller.go:301-330 | after a crash behind the patch, the retry records it if and only if the grant has not lapsed |
| RevocationLaws.RevokingStopsThePatch | internal/requests/decisions.go:288-322 | a reconcile begun after a revocation patches if and only if it reads the very same moment, and the grant was approved and unapplied |
| RevocationLaws.APatchCanFollowIff | internal/requests/decisions.go:288-322 | at or past the end of a grant some run without a further revocation patches it if and only if it is approved and unapplied and its end is this moment or a reconcile that is to patch is under way |
| RevocationLaws.AfterARevocation | internal/requests/decisions.go:288-322 | over every run after a revocation: each patch of the decision is by the reconcile then under way, at most one of them, or was read at the very moment of a revocation |
| RevocationLaws.ARevocationInsideAReconcileComesTooLate | internal/requests/controller.go:281-327 | the run read, revoke, wait, patch: the revocation is stored and the division is at the target |
| RequestRetries.CallbacksStopAtTheEndOfTheGrant | internal/requests/controller.go:403-417 | callbacks that come exactly on time come hourly and last at the grant's end, where it has not lapsed |
| Preflight.Committed | internal/requests/preflight.go:110-129 | the total of all quotas and the quota of the named division, or nothing |
| Preflight.Allocatable | internal/requests/preflight.go:86-108 | the sum over schedulable nodes of what they report |
| Preflight.Evaluate | internal/requests/preflight.go:21-84 | admitted if and only if the predicted commitment is within what the nodes give; each finding if and only if its condition |
| Preflight.TotalIsTheSum | internal/requests/preflight.go:110-129 | the total is the sum of the cpu and of the memory quotas |
| Preflight.CordonedNodesGiveNothing | internal/requests/preflight.go:86-108 | a node that is not schedulable, anywhere in the list, changes nothing |
| Preflight.VerdictInFigures | internal/requests/preflight.go:21-84 | the verdict on the figures: admitted if and only if commitment less the old quota plus the target is within the sum over schedulable nodes, cpu and memory |
| Preflight.PredictionIsTheTotalAfterApplying | internal/requests/preflight.go:27-35 | the prediction, from the total and the stored quota, is the total recomputed after the quota is applied, in any listing order |
| Preflight.SimulateRequest | internal/requests/controller.go:155-211 | the commitment the simulation shows is that prediction, from the total of all quotas |
| Preflight.CommittedByAll | internal/requests/controller.go:197-211 | the total of all quotas |
| Preflight.ListingsAgree | internal/requests/controller.go:197-211 | the total does not depend on the order divisions are listed in |
| Preflight.PredictionForAMissingDivision | internal/requests/preflight.go:110-129 | for a division that is not stored the whole target is added |
| Hub.EventHub.Publish | internal/api/hub.go:38-66 | the next cursor, the ring's last events, and an offer to every subscriber |
| Hub.EventHub.Subscribe | internal/api/hub.go:70-99 | the backlog that is allowed, the channel's size and the registration |
| HubLaws.ReplayIsTheLog | internal/api/hub.go:101-137 | for an issued cursor: complete if and only if nothing behind it was evicted, and then exactly the log behind it |
| HubLaws.ReplayOfAForeignCursor | internal/api/hub.go:101-137 | for a cursor never issued: nothing is replayed, and complete if and only if something was published and it is not the greatest there is |
| HubLaws.ReplayWithoutACursor | internal/api/hub.go:101-137 | without a cursor nothing is replayed or missing; with one that is no number nothing is replayed and that is said |
| HubLaws.EveryRunHolds | internal/api/hub.go:38-99 | over every run the ring is the end of the log and every subscriber's history is as below |
| HubLaws.DeliveryIsInOrder | internal/api/hub.go:54-99 | with publishes of one step each, a subscriber receives allowed events of the log only, in strictly increasing cursor order, whatever is lost |
| HubLaws.TheRingIsTheLastOfTheLog | internal/api/hub.go:38-52 | over every run the ring is the last of what was published, as many as the buffer is set to hold |
| HubLaws.AChannelHoldsItsBacklogAnd64More | internal/api/hub.go:70-99 | a new channel holds its backlog and 64 events more |
| HubLaws.OfferedOnce | internal/api/hub.go:54-66 | an offer is the last event in the channel if it is allowed and there is room, and nothing otherwise |
| HubDelivery.AloneItIsAPublish | internal/api/hub.go:38-66 | a publisher nobody comes between, in whatever order it sends, does what the publish of one step does |
| HubDelivery.EveryRunHolds | internal/api/hub.go:38-99 | with publishers sending at once, over every run: identifiers are never given twice, every channel has room for 64 events and more, and no publisher has still to send what a channel took from it |
| HubDelivery.WhatASendDoes | internal/api/hub.go:54-66 | a send puts its event into the channel if it is allowed and there is room, touches no other channel, and ends the program if the channel is closed and the event allowed |
| HubDelivery.OrderCanBeLostIff | internal/api/hub.go:54-66 | an open channel that is in order: some run without a new cursor brings it out of order if and only if an allowed event is outstanding that comes before one taken, or two are outstanding |
| HubDelivery.TwoPublishersOvertake | internal/api/hub.go:38-66 | two cursors given and the later event sent first: out of order, from any state with a subscriber that allows both and has room |
| HubDelivery.PublishersInTurnDeliverInOrder | internal/api/hub.go:54-66 | in every run of a new hub in which a cursor is given only when all earlier sends are done, delivery is in order |
| HubDelivery.AClosedChannelIsSentToIff | internal/api/hub.go:54-99 | once a channel is closed, a run with a send to it that ends the program exists if and only if a publisher that listed the subscriber has yet to send it an event it allows |
| HubDelivery.ACancelledReceiverBringsThePublisherDown | internal/api/hub.go:54-99 | cursor given, subscription cancelled, channel closed, event sent: from any state with a subscriber that allows the event |
| HubLaws.DeliveryIsGaplessIffNothingWasLostOrCameBetween | internal/api/hub.go:70-99 | everything allowed behind the cursor arrives if and only if the channel never overflowed and nothing allowed was published between the two locks |
| HubLaws.AnEventBetweenTheLocksIsMissed | internal/api/hub.go:70-99 | from any state: what is published there does not arrive |
| Money.RatStringIsInjective | internal/cost/invoice.go:145-150 | the exact form tells any two rational quantities apart |
| Money.FloatStringTellsCentsApart | internal/cost/money.go:75-77 | the two-decimal form is the same if and only if sign and rounded hundredths are |
| Invoices.GenerateInvoice | internal/cost/invoice.go:77-134 | the errors, and the invoice computed by sorting and accumulating |
| Invoices.ChargesFor | internal/cost/invoice.go:165-199 | the charges of every workload, in order |
| InvoiceLaws.LinesAreTheChargesInOrder | internal/cost/invoice.go:92-117 | the lines are the charges, each once, numbered from one, by label and then resource |
| InvoiceLaws.DigestTextIsExact | internal/cost/invoice.go:136-155 | two digest texts are equal if and only if the invoices print the same, quantities exactly and amounts to two decimals |
| InvoiceLaws.ReproducesMeansTheSamePrint | internal/cost/invoice.go:157-163 | an invoice reproduces another if and only if both print the same, or a hash collision is exhibited |
| InvoiceLaws.SubtotalIsTheRatesTimesTheTotals | internal/cost/invoice.go:101-127 | the subtotal is exactly the closed form over total cores and gibibytes, and the total adds the share |
| BillContents.WhatAWorkloadIsCharged | internal/cost/invoice.go:165-199 | cores times hours and gibibytes times hours at a 730th of the monthly price, one charge for each resource that is requested |
| BillContents.WhatAnInvoiceSays | internal/cost/invoice.go:118-134 | division, period, prices, currency and time of an invoice, and that its digest is of its text |
| BillContents.WhatALineSays | internal/cost/invoice.go:101-117 | a line says what was charged, under its number, the amount being quantity times rate |
| BillContents.WithoutADigestNothingIsReproduced | internal/cost/invoice.go:157-163 | invoices are taken for the same if and only if they have one digest and it is not empty |
| BillContents.WhatAnAmountPrints | internal/cost/money.go:75-77 | sign, whole units, point and two digits, within half a hundredth of the amount |
| Money.AmountsAreInTheFirstCurrency | internal/cost/money.go:14-61 | rupiah without a currency; products and sums in the currency of the first amount |
| StableSort.SortIsStable | internal/cost/invoice.go:92-97 | whatever ties keeps the order it came in, so the sort is the stable one of the standard library |
| StableSort.SortedAlikeIff | internal/cost/invoice.go:92-97 | two arrangements of the same elements are sorted alike, place by place, if and only if whatever ties came in alike |
| ReadingOrder.ReadingOrderDoesNotMatter | internal/cost/invoice.go:92-134 | workloads whose charges do not tie give the same invoice in any reading order |
| ReadingOrder.DigestStaysIffTiesPrintAlike | internal/cost/invoice.go:92-155 | the same charges in another order: the digest text is the same if and only if the charges of each label and resource come in an order that prints the same |
| ReadingOrder.DigestStaysIffReadAlike | internal/catalog/store.go:348-373 | the same workloads in another order: the digest text is the same if and only if those sharing a namespace and a name request the same amounts in the same order, or the period is empty |
| ReadingOrder.DistinctNamesReadAlike | internal/catalog/store.go:348-373 | workloads of which no two share namespace and name meet that condition in every order |
| ReadingOrder.TwoKindsOfOneNameTie | internal/db/migrations/0002_catalog.sql:22-48 | two workloads of different kind and size but one name, in the two orders the query allows, have different digest texts |
| InvoiceLaws.StoredLinesAreNearTheStoredSubtotal | internal/cost/invoice_store.go:45-90 | stored lines differ from the stored subtotal by at most (lines + 1) / 200 |
| BillContents.WhatAStoredInvoiceKeeps | internal/cost/invoice_store.go:26-93 | a stored invoice keeps every field, its amounts to two decimals, under the identifier of its row, line by line |
| BillContents.WhatAStoredLineKeeps | internal/cost/invoice_store.go:74-90 | a stored line keeps every field, its quantity to six decimals and its amounts to two |
| BillContents.WhatIsListed | internal/cost/invoice_store.go:118-137 | the invoices of the division, newest first, as many as asked for from one to sixty and else twenty-four |
| Biller.InvoiceStore.SaveInvoice | internal/cost/invoice_store.go:26-93 | one row per division and period: inserted, or replaced under its old identifier with its lines |
| Biller.InvoiceStore.Existing | internal/cost/biller.go:118-131 | the invoice of the period among the sixty newest of the division |
| Biller.InvoiceStore.Generate | internal/cost/biller.go:76-116 | table and answer of a billing, for every failure of its reads and its write |
| BillContents.NothingIsBilledWithout | internal/cost/biller.go:76-100 | before the period is over, without prices or without workloads nothing is billed and the table stays |
| BillContents.NothingIsStoredWithout | internal/cost/biller.go:102-116 | for an unknown division, or when the write fails, the table stays |
| BillContents.BilledOnceItIsOver | internal/cost/biller.go:76-116 | from the last instant of the period on it is billed, with all that is needed, unless it is on the books |
| BillContents.WhatIsBilled | internal/cost/biller.go:76-116 | what is billed is the division's invoice of that period at those prices, its subtotal the closed form, with nothing unallocated |
| BillerLaws.BillingKeepsTheRest | internal/cost/invoice_store.go:45-72 | every billing keeps keys unique and all other rows as they are |
| BillerLaws.FoundIffAmongTheNewest | internal/cost/invoice_store.go:118-137 | a stored invoice is found if and only if fewer than sixty of its division are for later periods |
| BillerLaws.EveryRunKeepsTheLedger | internal/cost/biller.go:45-72 | over every run of sweeps there is one row to a division and month, and none for a month to come |
| BillerLaws.NoNewerInvoice | internal/cost/biller.go:118-131 | the month a sweep bills is the newest of its division, so its invoice is within the list |
| BillerLaws.SweepWritesUnlessOnTheBooks | internal/cost/biller.go:102-114 | after every run: already billed, without a write, if and only if the list was readable and the month is on the books with that digest |
| BillerLaws.RebillingWritesIff | internal/cost/biller.go:102-114 | a billed month with the same workloads in any order, after any sweeps of other divisions, is written again if and only if the list failed or the digest differs, and then its row is written over; the digest text is the same if and only if the workloads were read alike |
| BillerLaws.ATieBillsTheMonthAgain | internal/cost/biller.go:102-114 | a Deployment and a StatefulSet of one name read in the other order: billed again with a readable list, or a hash collision is exhibited |
| Catalog.Store.UpsertWorkload | internal/catalog/store.go:69-127 | predecessors of the name evicted, the row inserted or replaced but for its creation time, its containers written anew |
| CatalogLaws.DeleteByIdentifier | internal/catalog/store.go:129-134 | after a delete the identifier is not found, and every other one is found as before |
| Catalog.Store.ListWorkloads | internal/catalog/store.go:153-217 | the page and its token, or a malformed token; which rows are on it is the subject of the rows below |
| CatalogLaws.EveryRunKeepsUnique | internal/catalog/store.go:69-134 | over every run of writes identifiers and names stay unique |
| CatalogLaws.UpsertByIdentifier | internal/catalog/store.go:76-112 | identifier by identifier: own row replaced, namesake evicted, the rest untouched |
| CatalogLaws.TokensRoundTrip | internal/catalog/store.go:322-338 | a token is never empty and reads back as its key if and only if the key holds no NUL |
| CatalogLaws.FollowingTokensVisitsEachRowOnce | internal/catalog/store.go:153-217 | following tokens visits every matching row exactly once in key order, and the token is empty on the last page only |
| CatalogFilters.RowsOnAPageMeetTheQuery | internal/catalog/store.go:153-203 | every row of every page is in the table and meets each restriction given: division, namespace, the caller's namespaces, health and search |
| CatalogFilters.WithoutNamespacesThereIsNothing | internal/catalog/store.go:153-175 | a caller who may see no namespace gets one empty page |
| CatalogFilters.ARowThatMeetsItIsShownOnce | internal/catalog/store.go:153-203 | a row that meets each restriction is on exactly one page, in one place |
| CatalogFilters.RowsComeByNamespaceKindAndName | internal/catalog/store.go:191-198 | by namespace, within it by kind, within that by name |
| CatalogFilters.EveryPageButTheLastIsFull | internal/catalog/store.go:154-157 | full pages of the size asked for from one to 500, and else of a hundred |
| CatalogFilters.OneDivision | internal/catalog/store.go:167-180 | narrowing by a division shows exactly the rows of that division, in the same order |
| CatalogFilters.OneNamespace | internal/catalog/store.go:167-180 | the same for a namespace |
| CatalogFilters.OnlyTheseNamespaces | internal/catalog/store.go:173-175 | the same for the namespaces a caller may see |
| CatalogFilters.OneHealth | internal/catalog/store.go:167-180 | the same for a health |
| CatalogFilters.OneSearch | internal/catalog/store.go:167-180 | the same for a search text |
| CatalogLaws.PageCountRoundsUp | internal/catalog/store.go:205-216 | the number of pages is the number of rows over the page size, rounded up, and at least one |
| Reference.ParseReference | internal/supplychain/reference.go:35-71 | the method computes the specified parse, with both error cases |
| Reference.ParsedIsWellFormed | internal/supplychain/reference.go:35-97 | what every accepted image's parts can and cannot hold |
| Reference.ReadingBackWhatWasPrinted | internal/supplychain/reference.go:25-97 | for all accepted images: reading what was printed gives the reference, tag cleared when pinned, if and only if the stated condition on it holds |
| Reference.BothExceptionsOccur | internal/supplychain/reference.go:25-97 | an image for each of the two ways the round trip fails |
| Reference.ImagesComeFromWhereTheySay | internal/supplychain/reference.go:35-97 | an image put together from its parts parses into these: registry or docker.io, library in front of a single name, tag or latest unless pinned |
| Reference.RegistryOf | internal/supplychain/reference.go:73-84 | the first component is the registry if and only if it holds a point or a colon or is localhost |
| Reference.BlankImagesAreRefused | internal/supplychain/reference.go:36-39 | an image of nothing but white space is refused |
| Reference.NoPathNoImage | internal/supplychain/reference.go:35-71 | an image without a repository is refused |

## Left out

- The Kubernetes API, PostgreSQL, HTTP, the registry, Prometheus and the identity provider: their state is a map, a sequence or a parameter, and every call can fail.
- JSON, SHA-256, base64 and hexadecimal: arbitrary functions, with the round trips a lemma needs as a hypothesis.
- Floating point: `percentOf` is the exact rounding of the quotient, a period's hours are an exact fraction, and `ratio`, `withHeadroom` and metric values are left out.
- 64-bit integers where sums stay far inside them: millicores, bytes, prices and cents are unbounded; `PackNeverOverfills` bounds the only sums the packing loop forms. Lease sums and hub cursors do wrap.
- Text order in the database is the order of character codes; the collation of a deployment may differ. Text search is a parameter.
- Fractions in `time.ParseDuration` such as `1.5h`: read as unreadable by the model of the parser, which the lease laws take as a parameter.
- The clock is a parameter of each call; `metav1.Time` keeps whole seconds when stored, the model keeps what it is given.
- Reads from informer caches: a reconcile reads the stored objects. Its status updates are refused when the object has changed since. Merge patches are not: the quota patch and the renewal patch are split from their reads and land on whatever is stored by then; `Revoke` and `Withdraw` read and patch in one step, which only matters to a caller that repeats what is set already.
- Requests.Platform.ApplyQuota: its read and its patch are one step, as are those of Environments.Reconciler.Renew; the split steps are in the state machines of RequestLaws and EnvironmentLaws.
- Environments.Reconciler.Reconcile: an uninterrupted reconcile; its parts are split in EnvironmentLaws, where making or adopting the namespace (a read and a write under the version lock), its quota and its policy are one part.
- The identifier of a namespace: one that takes the place of another is told apart by its owner reference only.
- `Decide` and `Submit` read and create in one step; labels, idempotency keys and reasons of requests are not modelled.
- More than one reconcile of a kind at a time: each controller works on one object at a time, as it is configured.
- Rewritten or deleted decisions and requests other than by the service's own calls.
- HubLaws.DeliveryIsInOrder: a publish is one step there, its sends included; HubDelivery splits the sends off and says when the order can be lost. The goroutine that drains a subscription is the reader of its channel, a sequence of what is unread in it.
- AuditArchive.Archive.Write: the files are in the order of their days, and a clock that goes back to an earlier day's file is not modelled; the text is in bytes, and that a part of a JSON line, or several run together, do not decode is a hypothesis (`LineFormat`). The `chain-head` file is not modelled.
- More than 2^64 - 2 events in one life of the hub: `HubLaws.EveryRunHolds` is for runs of fewer steps.
- The snapshot of nodes and pods, `pendingNow`, the reading of workload requests, and pricing policies: parameters.
- Human-readable messages, conditions' transition times, verdict sentences, the protobuf conversions, the web interface and the command line.
- Diagnostics, policy reports, drift, scaffolding, the topology graph, sessions, the division reconciler and rightsizing: simple functions beside the cores above.
- The policy lookup of `Generate` is a parameter, and so is the calendar of `MonthBefore`: that the month shown by the clock does not go back and that months begin one after the other is all that is used.
- Several transactions on the audit table at one time: they are taken one after the other, as the single writer issues them.
- The digests of an audit batch: where a lemma needs them to be new it says so (`NewHashes`), or names the digest that equals the one before it (`FixedPoint`).
