# Verified model of the portal kit's stateful cores

Dafny 4.11 models of the parts of the repository whose correctness is not visible in
one function body, and proofs of what they promise. `dafny verify dfyconfig.toml`
checks everything.

## What is modelled

**Collections** (`PropertyVisibility`, `CollectionPredicate`, `CollectionLaws`,
`PortalPublic`). The compiler builds a query tree; the tree has a meaning over a property
and its related rows (SQL's treatment of null included). `Admits` says without any tree
which properties must be selected; the compiler is proved to mean it, and the laws relate
it to the reference evaluator, to overrides and to the landing page.

**Outbox** (`Outbox`, `OutboxLaws`, `OutboxProgress`, `InquiryDelivery`). A machine whose steps are single
database statements, sender calls, time and crashes, for any number of dispatchers. The
15-minute hypothesis is the predicate `Timely`, on the steps that write a row.
`InquiryDelivery` is the loop itself, run against a table that others change between any two
of its statements; every statement is proved to be a step of the machine. `OutboxProgress`
says who is found by a dispatcher, and that every row can still be delivered.

**AI actions and inquiries** (`ActionLease`, `ActionLaws`, `ActionService`, `Inquiry`). The
same construction for one action row with its execute, review, dismiss and snooze requests,
and for one inquiry with all writers of its responded state. The action's machine sees of its
inquiry only that it was answered, which `Inquiry.RespondedIsPermanent` shows is never taken
back.

**Search index** (`SearchIndex`, `ListingService`). Index and database are fields; calls may
fail, may have taken effect although they failed, and the process may die between two
statements. A document is kept as the two rows it was built from, so that agreement and
fail-closure are about rows.

**Classification** (`Polygon`, `Triangle`, `CanonicalJson`, `ClassificationRun`). Parity in
exact reals, and the same by cross products; the canonical form for any total order of keys;
and the batched run with failures at any statement.

**Leads, portal and slugs** (`Csv`, `Cursor`, `CursorWalk`, `EnsurePortal`, `Slugs`).

In all of them a call that reports an error may have taken effect. Where no code catches the
error, that is the statement followed by the death of its request, or the death alone. Where a
class has a constant `calm`, its methods also promise their outcome when nothing of this happens.

## Where the code does not do what it seems to say

- An `exclude` rule without bounds compiles to an empty filter, which selects nulls that the
  evaluator rejects. `CompilerAgreesWithEvaluatorIff` gives the exact predicates concerned.
- The landing page shows the newest eligible listing of a property, which need not be the
  one whose price matched (`ShownPriceMayMissTheRule`). The price shown is safe exactly when
  all eligible listings have one price (`ShownPriceObeysRuleIff`).
- Outcome writes of the outbox are keyed by id alone, and a delivery write inside the try
  block may take effect and report an error. A dispatcher as slow as its lock can undo
  another's delivery (`LateWriterOverwritesDelivered`), and a misreported one is undone by its
  own catch branch, however fast (`MisreportedDeliveryUndone`). These are the only ways
  (`TerminalSafeIff`, `TerminalRowChangesIff`).
- The comment on a failed CRM transaction says the send is not retried. The row becomes
  FAILED, which is executable and unlocked, and a new run sends again: one email more than
  there were failures can go out, and no more (`EmailBoundIff`); `CanSendAgainIff` says from
  which states. A transaction that commits and reports an error leaves FAILED as well, and can
  commit again (`CommitBoundIff`).
- The lease's expiry time never decides anything, and a dead executor's action can never be
  executed again, though it may be reviewed, dismissed or snoozed (`LeaseClockNeverDecides`,
  `CrashedIsNeverExecutable`). A snoozed action is listed again when its snooze has passed but
  can no longer be executed, and a dismissal sticks, both exactly unless an executor that has
  not committed holds the action at the write (`SetAsideForGoodIff`,
  `DismissedWhileExecutingComesBack`).
- The portal inbox is said never to move an inquiry out of its responded state. An archived
  one it does reopen (`RespondedInquiryReopened`); the date of the response survives, and with
  it the guard against a second email.
- A run of `ensurePortal` that loses the race can answer with a slug mismatch that names its
  own slug (`LateRunReportsMismatch`), exactly if no portal existed when it began
  (`MismatchPossibleIff`).
- With the index not configured an update or a deletion is still written to the database. That
  leaves a document no present row backs exactly if one was built from the listing
  (`WriteKeepsFailClosedIff`, `DeleteKeepsFailClosedIff`, `DatabaseFirstIsNotFailClosed`).
- A property that fails while an APPLY classifies it may already be counted in `changed`. It is
  counted again by the run that resumes exactly when it is still stale by then (`ResumedCount`,
  `CountedTwice`).

## Model

| member | source | states |
|---|---|---|
| `PropertyVisibility.BuildPublicListingWhere` | packages/search/propertyVisibility.ts:13-24 | a caller filter can only narrow the public gate: whatever keys it carries, ACTIVE, displayable and source-permitted still hold |
| `CollectionPredicate.ScalarNumber` | packages/search/collectionPredicate.ts:9-15 | for every value, null included, the compiled rule selects what the evaluator accepts, except that an `exclude` rule without a bound selects everything |
| `CollectionPredicate.CompileGroups` | packages/search/collectionPredicate.ts:19-24 | the area, tag and type conditions mean what the evaluator asks of the account's POSITIVE areas and tags; an empty group asks nothing |
| `CollectionPredicate.CompileNonPrice` | packages/search/collectionPredicate.ts:19-29 | the conjunction of all conditions but price means the evaluator on the row without its price |
| `CollectionLaws.QueryMeans` | packages/search/collectionPredicate.ts:17-53 | a compiled query selects a property exactly if one listing passes the public, portal and price conditions and every group holds of the property's POSITIVE rows, all written in the columns of the rows |
| `CollectionPredicate.BaseListing` | packages/search/collectionPredicate.ts:36-45 | board, source and visibility gates hold whatever is added, and the addition is only about the price |
| `CollectionPredicate.CompileEligibility` | packages/search/collectionPredicate.ts:31-51 | some eligible listing has an admitted price, null prices exactly as the rule says |
| `CollectionPredicate.CompileCollectionPredicate` | packages/search/collectionPredicate.ts:17-59 | for every predicate, scope and relational state the query tree selects exactly the properties `Admits` names, with its three shapes and the empty-predicate shortcut |
| `CollectionPredicate.EvaluateSplits` | packages/search/collectionPredicate.ts:68-77 | the evaluator is the price rule on the row's price and the other groups on the rest |
| `CollectionPredicate.AdmitsUnscoped` | packages/search/collectionPredicate.ts:46-53 | without a collection, eligibility and the predicate may be decided apart, because one listing decides both gate and price |
| `CollectionLaws.CompilerAgreesWithEvaluatorIff` | packages/search/collectionPredicate.ts:17-77 | without a collection, a compiled query and the evaluator agree on every relational state if and only if every `exclude` rule has a bound or the tag groups exclude everything |
| `CollectionLaws.WitnessSeparates` | packages/search/collectionPredicate.ts:9-15 | for every other predicate, a property on which they differ |
| `CollectionLaws.UnboundedExcludeSelectsNullPrice` | packages/search/collectionPredicate.ts:34-34 | the concrete difference: an unbounded `exclude` on price selects a listing without a price |
| `CollectionLaws.OverrideLaw` | packages/search/collectionPredicate.ts:54-58 | of compiled queries: EXCLUDE vetoes, INCLUDE leaves eligibility and the price rule alone, no override changes nothing; stated through queries compiled without a collection |
| `CollectionLaws.GateSafety` | packages/search/collectionPredicate.ts:36-58 | whatever predicate and overrides, a property a compiled query selects has an eligible listing at an admitted price |
| `PortalPublic.LandingConjunctIsImplied` | apps/api/src/routes/portalPublic.ts:221-226 | the extra listing conjunct of the landing page removes nothing |
| `PortalPublic.LandingListingWhere` | apps/api/src/routes/portalPublic.ts:221-224 | a listing passes the page's own filter exactly if it is ACTIVE, displayable, permitted, on one of the portal's boards when it has any, and not MLS when the portal is not approved |
| `PortalPublic.PublicLanding` | apps/api/src/routes/portalPublic.ts:218-228 | the cards are the first 24 selected properties in order, each with the first of its listings that is ACTIVE, displayable, on one of the portal's boards when it has any, and not MLS when the portal is not approved for IDX |
| `PortalPublic.PageSelects` | apps/api/src/routes/portalPublic.ts:218-225 | a page selects exactly the properties with a listing it may show at an accepted price, and not excluded by hand from the collection, that are included by hand or meet every group and range of the predicate |
| `PortalPublic.AreaPageSelects` | apps/api/src/routes/portalPublic.ts:218-228 | an area page selects exactly the properties with a listing that passes those gates and a POSITIVE membership of the area |
| `PortalPublic.ShownPriceObeysRuleIff` | apps/api/src/routes/portalPublic.ts:226-228 | for every portal, collection and property with an eligible listing: the price shown obeys the price rule of every predicate that admits the property if and only if all its eligible listings have one price, or the collection excludes it |
| `PortalPublic.ShownPriceObeysRule` | apps/api/src/routes/portalPublic.ts:227-228 | one half of it: with one price among the eligible listings the price shown obeys the rule |
| `PortalPublic.ShownPriceMayMissTheRule` | apps/api/src/routes/portalPublic.ts:227-228 | the concrete failure: a cap of 100 shows a property at 500 |
| `Outbox.WriterHolds` | apps/api/src/services/inquiryDeliveryService.ts:55-82 | an outcome write comes from the dispatcher whose lock the row carries, and the row is as that one read it, or as its own delivery left it when that took effect and reported an error |
| `Outbox.HeldRowNotClaimable` | apps/api/src/services/inquiryDeliveryService.ts:35-44 | the stale-lock test never lets anyone claim a row under an in-time dispatcher |
| `Outbox.HeldRowUntouched` | apps/api/src/services/inquiryDeliveryService.ts:33-82 | no step of anyone writes a row while an in-time dispatcher goes on holding it, except its own delivery that takes effect and reports an error |
| `Outbox.BackoffKept` | apps/api/src/services/inquiryDeliveryService.ts:67-82 | recorded attempts and the next possible one stay spaced by the retry delays |
| `Outbox.InvKept` | apps/api/src/services/inquiryDeliveryService.ts:33-86 | every step taken in time keeps the lock, exclusivity, counting and spacing invariants |
| `OutboxLaws.OutboxExclusivity` | apps/api/src/services/inquiryDeliveryService.ts:18-48 | over every interleaving in which rows are written within 15 minutes of the writer's start, at most one in-time dispatcher is between claim and last write of a row, and the row carries its lock or its own delivery |
| `OutboxLaws.TerminalForever` | apps/api/src/services/inquiryDeliveryService.ts:55-82 | DELIVERED and DEAD_LETTER rows are never written again, under the same hypothesis, if no delivery write takes effect and reports an error |
| `OutboxLaws.DeadLetterForever` | apps/api/src/services/inquiryDeliveryService.ts:67-82 | DEAD_LETTER rows are never written again, whatever the calls report |
| `OutboxLaws.TerminalRowChangesIff` | apps/api/src/services/inquiryDeliveryService.ts:51-82 | in time, a step writes over a terminal row if and only if it is the catch branch of the dispatcher's own delivery that took effect and reported an error; the row was DELIVERED |
| `OutboxLaws.SenderCallsConserved` | apps/api/src/services/inquiryDeliveryService.ts:50-82 | sender calls of a row equal its attempts, plus the calls lost in crashes, plus those without an outcome yet |
| `OutboxLaws.AcceptedOnce` | apps/api/src/services/inquiryDeliveryService.ts:50-82 | messages the sender accepted equal one if the row is DELIVERED, plus acceptances that are not on record (a crash, an error, or a failure written over a delivery), plus those still to be recorded: no duplicate unless an acceptance is not on record |
| `OutboxLaws.AttemptsBounded` | apps/api/src/services/inquiryDeliveryService.ts:68-74 | a claimable row has attempts left; attempts never exceed the maximum; a dead letter has used them all |
| `OutboxLaws.CountersAddUp` | apps/api/src/services/inquiryDeliveryService.ts:33-88 | a dispatcher through its candidates has counted each exactly once |
| `OutboxLaws.BackoffSchedule` | apps/api/src/services/inquiryDeliveryService.ts:10-10 | the n-th recorded attempt starts at least 1, 6, 36, 156, 276, ... minutes after the first |
| `OutboxLaws.TerminalSafeIff` | apps/api/src/services/inquiryDeliveryService.ts:16-82 | terminal rows are never overwritten in any run whose row writes come less than `d` after their writer's start, if and only if `d` is at most the 15 minutes of the lock and no delivery write takes effect and reports an error (or nothing can be written at all) |
| `OutboxLaws.LateWriterOverwritesDelivered` | apps/api/src/services/inquiryDeliveryService.ts:55-82 | a run with every write in time and truly reported, after which a write exactly 15 minutes after its writer's start turns DELIVERED back into RETRY |
| `OutboxLaws.MisreportedDeliveryUndone` | apps/api/src/services/inquiryDeliveryService.ts:55-82 | within any bound: a delivery write that takes effect and reports an error is turned back into RETRY by its own catch branch |
| `InquiryDelivery.DeliveryTable.ClaimRowIfDue` | apps/api/src/services/inquiryDeliveryService.ts:35-48 | the guarded update claims exactly a row that is PENDING or RETRY and due, or PROCESSING under a lock of at least 15 minutes; it becomes PROCESSING, locked at the dispatcher's start |
| `InquiryDelivery.DeliveryTable.MarkDelivered` | apps/api/src/services/inquiryDeliveryService.ts:55-66 | the success write is the machine's delivery |
| `InquiryDelivery.DeliveryTable.MarkFailed` | apps/api/src/services/inquiryDeliveryService.ts:67-84 | the catch branch: dead exactly on the last attempt, otherwise due again 1, 5, 30 or 120 minutes after the dispatcher's start |
| `InquiryDelivery.DeliveryTable.DispatchInquiryDeliveries` | apps/api/src/services/inquiryDeliveryService.ts:12-89 | under any interference the loop keeps every invariant, and its counters sum to the number of candidates found; when nothing goes wrong the oldest due rows, up to the limit, have had one attempt each, and every other row is as before |
| `OutboxProgress.FoundIff` | apps/api/src/services/inquiryDeliveryService.ts:21-33 | a dispatcher finds a row exactly if it is due, in PENDING, RETRY or under a stale lock, and fewer due rows than its limit are older; oldest first |
| `OutboxProgress.CanBeDeliveredIff` | apps/api/src/services/inquiryDeliveryService.ts:12-89 | from every state that keeps the invariant, some continuation in time delivers the row if and only if it is not a dead letter |
| `OutboxProgress.NoRowForgotten` | apps/api/src/services/inquiryDeliveryService.ts:12-89 | the same in every state of every run in time |
| `ActionLease.InvKept` | apps/api/src/services/aiDraftService.ts:50-228 | every step of every request keeps one holder, one commit and the bound on emails |
| `ActionLease.HolderBefore` | apps/api/src/services/aiDraftService.ts:75-97 | the lease statement is the only way to become a holder |
| `ActionLaws.ExecutedAtMostOnce` | apps/api/src/services/aiDraftService.ts:75-228 | over every interleaving and crash: one holder; at most one commit more than transactions that committed and reported an error; at most one email more than errors reported about an email or the transaction after it |
| `ActionLaws.CommittedForever` | apps/api/src/services/aiDraftService.ts:133-228 | after a transaction that reported success, the action is never executable again and nothing more is sent or committed |
| `ActionLaws.CanBecomeExecutableIff` | apps/api/src/services/aiDraftService.ts:56-97 | from any state whatever, some continuation makes the action executable if and only if it is executable, or a request holds it that has not committed its CRM transaction |
| `ActionLaws.SetAsideForGoodIff` | apps/api/src/services/actionQueueService.ts:94-141 | a dismissal sticks, and a snoozed action stays unexecutable, if and only if no such request holds the action at the write |
| `ActionLaws.FinishedChangesIff` | apps/api/src/services/actionQueueService.ts:94-141 | an action in SENT, EXECUTED, DISMISSED or EXPIRED keeps its status in every continuation, if and only if no request that read the row before is still to write another |
| `ActionLaws.CrashedIsNeverExecutable` | apps/api/src/services/aiDraftService.ts:86-97 | in every run, the action of an executor that died under its lease can never be executed again |
| `ActionLaws.StuckForever` | apps/api/src/services/aiDraftService.ts:56-97 | a row that is not executable and that nobody holds stays so, and nothing is sent or committed for it again |
| `ActionLaws.CrashSticks` | apps/api/src/services/aiDraftService.ts:86-97 | the death of a holder leaves a row that is not executable and that nobody holds |
| `ActionLaws.LeaseClockNeverDecides` | apps/api/src/services/aiDraftService.ts:61-85 | in every reachable state the lease is granted by status alone, whatever the clock |
| `ActionLaws.MailAfterResponse` | apps/api/src/services/aiDraftService.ts:65-73 | once the inquiry is answered, emails and the runs past the check that are still to send, together, never grow: each of those runs sends at most once, and no other does |
| `ActionLaws.EmailedCommitAnswers` | apps/api/src/services/aiDraftService.ts:136-144 | a commit of an emailed lead marks its inquiry answered for good, also when it reports an error |
| `ActionLaws.CanSendAgainIff` | apps/api/src/services/aiDraftService.ts:56-208 | from every state that keeps the invariant, some continuation sends another email if and only if a run is about to, or the row is executable or held without a commit and the inquiry is open or a run is already past its check |
| `ActionLaws.EmailBoundIff` | apps/api/src/services/aiDraftService.ts:75-208 | for all f and m: every reachable state with at most f failures has at most m emails, if and only if m exceeds f |
| `ActionLaws.CommitBoundIff` | apps/api/src/services/aiDraftService.ts:133-208 | for all l and m: every reachable state with at most l commits that reported an error has at most m commits, if and only if m exceeds l |
| `ActionLaws.EmailedOncePerFailure` | apps/api/src/services/aiDraftService.ts:197-208 | the runs that meet the bound: n failed CRM transactions, n emails, and the action free to be executed again |
| `ActionLaws.DismissedWhileExecutingComesBack` | apps/api/src/services/actionQueueService.ts:94-108 | a dismissal during execution is overwritten, and the action is executable again |
| `ActionService.ActionRow.AcquireLease` | apps/api/src/services/aiDraftService.ts:76-97 | the guarded update is the machine's lease, and its count tells whether it was granted |
| `ActionService.ActionRow.CommitCrmChanges` | apps/api/src/services/aiDraftService.ts:133-194 | the transaction is the machine's commit step, with an error reported whenever it was rolled back and possibly when it committed |
| `ActionService.ActionRow.MailLead` | apps/api/src/services/aiDraftService.ts:107-131 | no recipient and a failed send are told apart and leave FAILED and unlocked; a crash leaves a row nobody can execute; with a recipient and no failure one email goes out |
| `ActionService.ActionRow.ApplyAndFinish` | apps/api/src/services/aiDraftService.ts:133-228 | commit and final status belong together; a failed transaction leaves FAILED |
| `ActionService.ActionRow.ExecuteLeadResponse` | apps/api/src/services/aiDraftService.ts:44-239 | what each answer says about the row and the inquiry under any interference: refused exactly when not executable at the read; "being processed" only when another request took the row since; a death under the lease leaves the row out of execution; when nothing goes wrong the answer is decided by status, inquiry and recipient as read, with one email and one commit |
| `ActionService.ActionRow.Review` | apps/api/src/services/actionQueueService.ts:75-92 | a review date that was seen stays |
| `ActionService.ActionRow.Dismiss` | apps/api/src/services/actionQueueService.ts:94-117 | refused, and the row left alone, exactly when EXECUTED, SENT, DISMISSED or EXPIRED at the read; otherwise the row ends DISMISSED |
| `ActionService.ActionRow.Snooze` | apps/api/src/services/actionQueueService.ts:119-141 | refused, and the row left alone, in the same four statuses; otherwise the row ends SNOOZED until the given time |
| `Inquiry.InvKept` | apps/api/src/routes/ownerLeads.ts:135-151 | RESPONDED always has its date, and no writer clears the date |
| `Inquiry.RespondedIsPermanent` | apps/api/src/services/aiDraftService.ts:243-265 | across all writers, once the responded check is true it stays true and recovery never selects the inquiry |
| `Inquiry.LeavesRespondedIff` | apps/api/src/routes/ownerLeads.ts:140-151 | exactly the two steps that make a responded inquiry look open again |
| `Inquiry.DateChangesIff` | apps/api/src/routes/ownerLeads.ts:143-151 | the date changes exactly by a response, or by an owner's RESPONDED decided on a read without one; reading, archiving and reopening leave it alone |
| `Inquiry.RespondedInquiryReopened` | apps/api/src/routes/agentPortals.ts:682-690 | without any overlap: respond, archive, reopen from the portal inbox |
| `Inquiry.InquiryRow.PatchByOwner` | apps/api/src/routes/ownerLeads.ts:128-157 | conflict exactly on a responded inquiry asked to be new or read; otherwise the status is written and no date is lost, under interference; without it the date is set exactly by a first RESPONDED and is otherwise as before |
| `Inquiry.InquiryRow.PatchByPortal` | apps/api/src/routes/agentPortals.ts:687-691 | a row that is not RESPONDED takes the status, one that is stays; the date is not touched |
| `Inquiry.InquiryRow.Answer` | apps/api/src/routes/agentInquiries.ts:70-73 | status and date together |
| `SearchIndex.AgreesIff` | packages/search/reconcilePropertyDocument.ts:13-31 | agreement, column by column: a document exactly for a property with an ACTIVE, displayable, permitted listing, built from its rows and from one that none is newer than, undated ones first |
| `SearchIndex.SearchSystem.FindNewest` | packages/search/reconcilePropertyDocument.ts:13-24 | no listing exactly when none is eligible; otherwise one that none is newer than |
| `SearchIndex.SearchSystem.ReconcilePropertyDocument` | packages/search/reconcilePropertyDocument.ts:9-32 | when it answers, the document agrees with the database, and no other document changed; when it fails, whatever it wrote agrees |
| `SearchIndex.SearchSystem.ImportDocuments` | packages/search/syncService.ts:105-122 | all rows succeeded means every document is in; nothing is ever removed |
| `SearchIndex.SearchSystem.ReadExport` | packages/search/syncService.ts:72-94 | refused exactly when a line is no JSON or has no or an empty id; otherwise the set of exported ids |
| `SearchIndex.SearchSystem.FetchDocuments` | apps/api/src/routes/search.ts:425-436 | exactly the properties with an eligible listing, each from its newest one |
| `SearchIndex.SearchSystem.ReconcileAll` | packages/search/syncService.ts:129-131 | every id reconciled agrees at the end, no other agreement is disturbed |
| `SearchIndex.ExactAfterDelete` | packages/search/syncService.ts:124-127 | importing the eligible documents and deleting every other exported id leaves exactly the eligible ones |
| `SearchIndex.SearchSystem.ReindexAll` | packages/search/syncService.ts:64-142 | agreement on every exported or fetched id after a quiet reconcile pass; exactness without concurrent change; no deletion unless every import row succeeded; the counts; and no error but a malformed export or document unless a statement fails |
| `ListingService.AgreementIsFailClosed` | apps/api/src/services/listingService.ts:5-19 | an index in agreement everywhere is fail-closed |
| `ListingService.RefreshPropertyDoc` | apps/api/src/services/listingService.ts:12-19 | errors are swallowed and never break fail-closure; success means agreement |
| `ListingService.WithdrawDocument` | apps/api/src/services/listingService.ts:48-49 | the document is gone before the row changes, or the call stops |
| `ListingService.CreateListing` | apps/api/src/services/listingService.ts:30-34 | fail-closed at every crash point and error, with the index configured or not; agreement when the refresh went through |
| `ListingService.UpdateListing` | apps/api/src/services/listingService.ts:44-56 | with the index configured, the same for the old and the new property; without, fail-closed afterwards if and only if nothing was written or no document was built from the listing |
| `ListingService.DeleteListing` | apps/api/src/services/listingService.ts:66-74 | the same for a deletion |
| `ListingService.WriteKeepsFailClosedIff` | apps/api/src/services/listingService.ts:49-50 | writing a listing row with the index left alone keeps it fail-closed if and only if the row stays the same or no document was built from it |
| `ListingService.DeleteKeepsFailClosedIff` | apps/api/src/services/listingService.ts:70-71 | deleting one does if and only if no document was built from it |
| `ListingService.DatabaseFirstIsNotFailClosed` | apps/api/src/services/listingService.ts:49-50 | the concrete case: a listing is sold and its document stays |
| `Polygon.InPolygon` | packages/portal-config/src/classification.ts:60-67 | the loop computes the parity of the edges that cross to the east of the point; `Triangle` says where an edge crosses |
| `Polygon.RotationInvariant` | packages/portal-config/src/classification.ts:62-65 | the first vertex does not matter |
| `Polygon.ReversalInvariant` | packages/portal-config/src/classification.ts:62-65 | nor does the direction |
| `Polygon.ChordCut` | packages/portal-config/src/classification.ts:62-65 | a polygon is the exclusive-or of the two pieces a chord makes |
| `Polygon.FanOfTriangles` | packages/portal-config/src/classification.ts:62-65 | a polygon is the exclusive-or of the triangles fanning out of its first vertex |
| `Polygon.StraddleTelescopes` | packages/portal-config/src/classification.ts:64-64 | straddling edges of a chain are odd exactly when its ends lie on different sides |
| `Polygon.OutsideBoxIsOutside` | packages/portal-config/src/classification.ts:60-67 | nothing outside the box of the vertices is inside, the east and north sides included |
| `Polygon.RectangleExact` | packages/portal-config/src/classification.ts:60-67 | inside a rectangle is exactly its half-open box |
| `Triangle.CrossesAt` | packages/portal-config/src/classification.ts:64-64 | an edge crosses exactly if the point lies west of where the edge meets its latitude, at whatever fraction of the edge that is |
| `Triangle.CrossesBySide` | packages/portal-config/src/classification.ts:64-64 | the same by the side of the edge on which the point lies, without a division |
| `Triangle.TriangleExact` | packages/portal-config/src/classification.ts:60-67 | inside a triangle is exactly what the signs of its three cross products say, sides included as the half-open rule has it |
| `Triangle.PolygonBySides` | packages/portal-config/src/classification.ts:60-67 | any polygon by cross products alone: inside an odd number of the triangles of its fan |
| `CanonicalJson.CanonicalDecides` | packages/portal-config/src/classification.ts:39-43 | equal canonical forms exactly when two values differ only in key order, at any depth |
| `CanonicalJson.CanonicalIdempotent` | packages/portal-config/src/classification.ts:39-43 | a canonical form is its own canonical form |
| `CanonicalJson.SortedKeysDetermined` | packages/portal-config/src/classification.ts:41-41 | sorted distinct keys are determined by their set |
| `ClassificationRun.ClassificationStore.ClassifyAreas` | packages/db/classification.ts:15-24 | every area of the account gets the verdict of its definition, with source, confidence, version and hash; manual rows and other properties untouched, also when it fails midway |
| `ClassificationRun.ClassificationStore.ClassifyForAccount` | packages/db/classification.ts:12-31 | the same for the tags: every definition, the last with its slug, gets the verdict of its classifier, and its confidence or 1 |
| `ClassificationRun.PutTagsCurrent` | packages/db/classification.ts:25-31 | after classification every definition has a manual row or one of this configuration |
| `ClassificationRun.PutTagsAt` | packages/db/classification.ts:25-31 | key by key: a manual row stays, otherwise the last definition with the tag decides, every other row is untouched |
| `ClassificationRun.TagDecided` | packages/db/classification.ts:25-31 | POSITIVE exactly if the classifier of the last definition with the slug matches the property, unless decided by hand before |
| `ClassificationRun.AppliedDecides` | packages/db/classification.ts:53-58 | the same for every property of an applied list, written out field by field |
| `ClassificationRun.MembersOfMeans` | packages/db/classification.ts:15-24 | and for every area of the account and every property an APPLY has completed |
| `ClassificationRun.PutAreasAt` | packages/db/classification.ts:15-17 | a configured area takes the definition of its last entry |
| `ClassificationRun.ReconfiguredIsStaleIff` | packages/db/classification.ts:53-56 | under another hash or version a classified property is stale exactly if one of its tags was not decided by hand |
| `ClassificationRun.PutTagsIdempotent` | packages/db/classification.ts:25-31 | for any rows and definitions, classifying again with the same verdicts changes nothing |
| `Cursor.PastAt` | apps/api/src/routes/ownerLeads.ts:97-104 | past a row's own id come exactly the rows after it; leads and properties are paginated by the same rule |
| `ClassificationRun.ResumeExact` | packages/db/classification.ts:51-58 | the stored cursor selects exactly the properties not completed |
| `ClassificationRun.ClassificationStore.RunClassification` | packages/db/classification.ts:45-66 | coverage once each in order, independent of the batch size; the same count in every mode; CHECK and DIFF write nothing; a failed run's cursor stands right after its completed prefix, and its count is the stale ones of that prefix, plus one if it failed classifying a stale property; manual rows kept; tags and memberships of a completed APPLY decided; it completes unless a statement fails |
| `ClassificationRun.ClassificationStore.RunPage` | packages/db/classification.ts:51-60 | each page makes progress or ends the run |
| `ClassificationRun.ApplyConverges` | packages/db/classification.ts:53-58 | after a completed APPLY nothing is stale |
| `ClassificationRun.ResumedApplyConverges` | packages/db/classification.ts:63-65 | nor after one that failed anywhere and was resumed |
| `ClassificationRun.ResumedCount` | packages/db/classification.ts:55-64 | the counts of a failed run and of the run that resumes it add up to the stale properties, plus one exactly when the failing property was counted and is still stale at the resumption |
| `ClassificationRun.CountedTwice` | packages/db/classification.ts:56-58 | the concrete case: one unclassified property whose first upsert fails is counted by both runs |
| `ClassificationRun.ClassificationStore.ApplyResumed` | packages/db/classification.ts:45-66 | APPLY past any cursor, resumed if it fails: nothing is stale when it completes, and the two counts add up as `ResumedCount` says |
| `ClassificationRun.ClassificationStore.ApplyThenCheck` | packages/db/classification.ts:45-66 | APPLY, resumed once if need be, then CHECK: every property processed, none changed |
| `Csv.Guard` | apps/api/src/routes/ownerLeads.ts:161-161 | no guarded text is a formula; `Csv.CellTextMeans` says what is guarded |
| `Csv.IsFormulaIff` | apps/api/src/routes/ownerLeads.ts:161-161 | the formula test: nothing but white space before one of `=`, `+`, `-`, `@` |
| `Csv.CellTextMeans` | apps/api/src/routes/ownerLeads.ts:159-163 | null prints as nothing, a text that is no formula as itself, a formula behind a single quote |
| `Csv.FieldRoundTrip` | apps/api/src/routes/ownerLeads.ts:159-163 | a quoted text reads back as itself, whatever it contains |
| `Csv.RecordRoundTrip` | apps/api/src/routes/ownerLeads.ts:178-185 | a record reads back cell by cell |
| `Csv.TableRoundTrip` | apps/api/src/routes/ownerLeads.ts:178-185 | a reader after section 2 of RFC 4180 gets every guarded cell back |
| `Csv.ExportRoundTrip` | apps/api/src/routes/ownerLeads.ts:165-185 | the export reads back as the header and the first thousand leads, column by column, each text guarded and missing ones empty; no cell is a formula |
| `Csv.GuardCollidesIff` | apps/api/src/routes/ownerLeads.ts:161-161 | exactly which two texts the guard confuses |
| `CursorWalk.FilteredIff` | apps/api/src/routes/ownerLeads.ts:44-46 | a lead is listed exactly if it has the status and the source asked for, where they are |
| `CursorWalk.PageIsPrefix` | apps/api/src/routes/ownerLeads.ts:113-119 | a page is a full prefix of what is past its cursor and says truly whether anything is left |
| `CursorWalk.PastSeen` | apps/api/src/routes/ownerLeads.ts:97-104 | newer leads do not change what is past a cursor |
| `CursorWalk.NextPage` | apps/api/src/routes/agentPortals.ts:632-653 | the next page continues exactly where the last one ended |
| `CursorWalk.FollowCursor` | apps/api/src/routes/ownerLeads.ts:97-121 | following the cursor terminates and gives exactly the matching leads of the first fetch, newest first and by descending id, each once, for all page sizes and arrivals |
| `EnsurePortal.PrimaryDomain` | packages/db/scripts/ensurePortal.ts:55-57 | the first domain that is not local, none exactly when all are |
| `EnsurePortal.IsLocalIff` | packages/db/scripts/ensurePortal.ts:56-56 | local is `localhost` or anything that ends in `.localhost` |
| `EnsurePortal.InvKept` | packages/db/scripts/ensurePortal.ts:64-99 | every step of every run keeps one portal, its account and one winner |
| `EnsurePortal.RunsOnlyAppend` | packages/db/scripts/ensurePortal.ts:64-99 | no run changes or removes a row |
| `EnsurePortal.CreateOnce` | packages/db/scripts/ensurePortal.ts:64-99 | when all runs answered: one portal, one new account, one `created`; the others `exists` or a mismatch naming the same slug |
| `EnsurePortal.CreatedAsConfigured` | packages/db/scripts/ensurePortal.ts:73-88 | until the owner edits it, the portal is the configured one in every column: active, of the new account, with the first public domain |
| `EnsurePortal.NeverTwice` | packages/db/scripts/ensurePortal.ts:73-97 | with crashes and errors, still never two |
| `EnsurePortal.MismatchPossibleIff` | packages/db/scripts/ensurePortal.ts:64-71 | from every reachable state, a new run can still be told a mismatch naming its own slug if and only if no portal exists when it begins |
| `EnsurePortal.LateRunReportsMismatch` | packages/db/scripts/ensurePortal.ts:68-71 | a reachable state in which two runs have ended so |
| `EnsurePortal.PortalDb.CreateBoth` | packages/db/scripts/ensurePortal.ts:73-97 | account and portal together, in every column, or neither; a conflict exactly when the slug is taken |
| `EnsurePortal.PortalDb.Ensure` | packages/db/scripts/ensurePortal.ts:64-99 | under any interference, any answer but an error means the portal is there; when nothing goes wrong a first call creates exactly the configured rows and a later one changes nothing |
| `Slugs.SuffixedInjective` | packages/db/index.ts:88-91 | different counters give different slugs |
| `Slugs.DecimalReads` | packages/db/index.ts:89-89 | a suffix is made of digits, has the counter's value and no leading zero |
| `Slugs.FirstFreeForm` | packages/db/index.ts:83-94 | the slug found is the base whenever that is free, and otherwise the base, a dash and a counter |
| `Slugs.TriedAtMost` | packages/db/index.ts:88-91 | slugs tried and taken are no more than the distinct existing ones |
| `Slugs.GenerateUniquePropertySlug` | packages/db/index.ts:83-94 | terminates within one test more than there are distinct slugs, with the least free suffix |
| `Slugs.PropertyTable.FreeSlug` | packages/db/prisma/backfill-slugs.ts:60-68 | the same against a set |
| `Slugs.PropertyTable.BackfillSlugs` | packages/db/prisma/backfill-slugs.ts:32-89 | slugs stay pairwise distinct, given ones unchanged, new ones derived from their base; updates and errors account for every row, and the rows left without a slug are the errors whose write did not happen; without errors every row has the first free slug, given the rows before it |

## Left out

- Parsing and validation of predicates and classifier expressions: the theorems hold for every typed value, so for every parsed one.
- `evaluateClassifier`'s field, place, radius and composite cases and `normalizeProviderAttributes`: easy members; a run takes the verdict as a parameter. `distanceMiles` and SHA-256 are not modelled.
- IEEE rounding: prices, counts and coordinates are exact reals.
- `InquiryDelivery.DeliveryTable.DispatchInquiryDeliveries`: recipient, payload, error texts and provider ids are not modelled.
- `ActionLease`: the audit rows, the texts of the email and the single CRM writes of the transaction are not modelled.
- `Inquiry`: the response text is not modelled.
- `SearchIndex`: of two listings with equal dates the database may return either, so agreement means with one of the newest. A collection other than `properties` is covered by the same method without `exact` and `reconcile`, its documents abstracted to property documents.
- `SearchIndex.SearchSystem.ReindexAll`: the text of the export is taken line by line as already parsed; retries and logging are not modelled.
- `ListingService`: calls are serial, as the documentation assumes; two concurrent updates of one property are not covered.
- `ClassificationRun.ClassificationStore.RunClassification`: the property list is fixed during a run; names and descriptions of areas and the evidence of a verdict are not modelled; a batch size below one is not covered.
- `CanonicalJson`: the engine's own placement of integer-like keys, the same for both values compared.
- `CursorWalk.FollowCursor`: leads that disappear or change status between fetches, and the free-text search filter, which is one more condition on a lead; the status counts of the first page.
- `Csv`: date formatting of the first column.
- `EnsurePortal`: the owner renaming a slug while runs race; the log lines.
- `Slugs`: the character replacements that make a base slug.
- Routing, authorization, rate limits, user interface, email transport and the MLS worker.
