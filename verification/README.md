# Identity, projection and authorization: a verified model

Aegis keeps an append-only identity ledger. Revisions and decisions say when two mentions were ruled to
name one entity, and revision-keyed membership rows say which entity held which mention. A canonical map is
replayed from that ledger, and an edge projection is built from claims through it. Two producers propose
pairs for a human to rule on, two graph queries read the projection, an outbox carries access changes from
the database to the authorization store, and an audit chain makes tampering visible. This project models
those mechanisms and proves what they promise, mostly over whole runs.

Tables are values (`Store.Tables`, `Outbox.Access`): sets, sequences and maps of rows. Each operation is
first a function on those values, about which the laws are proved, and then a method of a class whose fields
are the tables (`Ledger.IdentityLedger`, `OutboxService.AccessService`, `Expansion.Budget`,
`AuditChain.AuditLog`, `Emission.RuleRun`) or a method with the loop the program has; its `ensures` ties it
to the function. What an operation means to its caller is also said without these functions, of rows, fields
and plain numbers. Check everything with `dafny verify dfyconfig.toml`.

| files | what they hold |
|---|---|
| Common, Lists | options and results, text order, ordered listings of sets, lists as multisets |
| Lineage | the chain walk, forests, linking and cutting |
| Store | the identity tables and every write to them, as functions |
| LedgerInvariant, LedgerSteps, LedgerOpens, LedgerRuns | the invariant, each step that keeps it, whole runs |
| LedgerRows, LedgerCycles | what holds without a side condition: sound rows, a fixed past, no cycle in any run |
| LedgerReversal, LedgerInterleaved, LedgerNested, LedgerHistory, LedgerSplit, LedgerBatch, LedgerBatchOrder, LedgerConstraints | the laws of the ledger |
| LedgerRecords, LedgerClaims, LedgerRefusals | the same in terms of the rows: what each decision writes down, what becomes of a claim, why a write is refused |
| LedgerExamples | reachable ledgers the laws apply to, and those at which a promise fails |
| Ledger | the tables updated in place, row by row |
| Segments, ClaimDates, Projection, ProjectionRows, Support | the cut-point sweep, stored dates, the edge table and what it lists, support summaries |
| Multigraph, Expansion, ExpansionOrder, ShortestPaths, Routes, RouteOrder | visible rows as a multigraph, bounded expansion, all shortest routes, and what a limit leaves out of either |
| Outbox, OutboxRuns, OutboxGrants, OutboxService | access tables and queue, delivery over every run, who may do what after each action, the service |
| Matcher, MatcherOrder, MatcherRule, Observations, Emission, EmissionRows | the deterministic rules, when their input order matters, whom they pair, which claims they hear, and the two candidate producers with what they store |
| AuditChain, Ulid | the hash chain; base-32 ids and their order |

## Where the code does not do what its documentation says

- **An open on a merge revision forgets the merge.** `open_membership` stamps the head revision, and replay
  ignores a merge revision at which more than one entity gained a mention. `LedgerSplit.OpenErasesMerge`
  gives the failing family and `LedgerExamples.OpenCanForgetMerge` a run, of the kind that accepting a claim
  about a new mention makes; `LedgerOpens.OpenCoherentIff` gives the exact condition under which a
  default-revision open is harmless: the entity is not absorbed and, if the head is a merge, is its winner.
  Well-formed runs (`LedgerRuns.WellFormed`) are the runs in which every accepted open meets that condition.
  The other runs keep less, and that is proved too: the rows stay sound and the past readable
  (`LedgerHistory.HistoryOverRuns`), the staleness check keeps its meaning (`LedgerHistory.StalenessOverRuns`),
  the lineage has no cycle (`LedgerCycles.NoCycleInAnyRun`), and a confirm can then be refused as a cycle
  exactly when its survivor's chain leads to the entity it would absorb (`LedgerCycles.RefusalsInAnyRun`).
- **A split onto an entity absorbed elsewhere re-attributes other claims unreported.** The exact condition
  under which a split changes only resolutions to the split entity can be looked up before the call: the
  target resolves to itself or to the split entity (`LedgerSplit.SplitStaysInsideIff`). When it fails,
  `LedgerSplit.UnreportedIff` says exactly which live claims change without being surfaced, and
  `LedgerExamples.SplitCanGoUnreported` is a run at which one does.
- **A split onto an existing entity queues nothing.** The claims a split cannot attribute are said to be queued
  for a human. They are, one draft each, when the split makes a new entity, and none is when it names one
  (`LedgerSplit.SplitQueues`, `LedgerExamples.SplitCanQueueNothing`).
- **The date sentinels double as real dates.** A claim is shown on exactly the days it is valid if and only
  if it neither ends on the day before the last representable date nor begins on that last date without an
  end (`ClaimDates.DayExactIff`). A claim that ends on the last date makes the rebuild overflow. The window
  filter of the queries never drops a segment that a claim supports on a day of the window; it keeps one that
  no claim supports in two cases, a window of the last date over claims that ended the day before and a window
  that ends before it begins, which no request schema refuses (`ClaimDates.WindowKeepsIff`,
  `ClaimDates.SentinelInstances`).
- **A clamped request is not always told.** An expansion for more than three hops gets three, and the flag says
  only whether those are whole. It is right about the hops asked for if and only if the rows of the clamped walk
  overrun the element cap or no row lies beyond the third hop (`Expansion.ToldIff`); both can be judged before the
  call. `Expansion.LineUnflagged` is a family of requests at which the promise fails: any line of more than three
  rows, any hop limit above three, any cap of seven or more. The path query is silent in the same way
  (`Routes.FewerHopsIff`): along any line of more rows than it searches it answers nothing, unflagged, though a
  route within the hops asked for exists (`Routes.LineUnanswered`). Its flag is raised for nothing when exactly as
  many shortest routes exist as the count limit allows (`Routes.Paths`), as for one route from an entity to itself
  (`Routes.FlagForNothing`).
- **The identifier rule can depend on the order of its observations**, because the last one of a mention wins
  and the claims are read without an order. For a pair and a key the order is immaterial if and only if all
  their observations give one verdict (`MatcherOrder.OrderFreeIff`), and for a pair's candidate, over all keys
  at once, if and only if some key always pairs it or none ever does (`MatcherOrder.PairOrderFreeIff`);
  `MatcherOrder.OrderMatters` gives three records at which it fails. The idempotence of the rule run holds for
  claims read again in the same order, and in any order when no candidate depends on it
  (`Emission.SecondRunIsIdle`); `Emission.IdleInAnyOrderIff` is the exact condition, and over those three records
  the second run does emit (`Emission.SecondRunCanEmit`).
- **A merge silences identifier claims.** An identifier claim without an anchor is said to apply to the whole
  entity, but the rule takes the mentions of the subject as stored, and an absorbed entity holds none. The rule
  hears such a claim if and only if its subject still resolves to itself (`Observations.HeardIff`);
  `Observations.MergeSilences` shows it for every accepted merge.

## Model

| member | source | states |
|---|---|---|
| LedgerReversal.Reversal | aegis/er/adjudication.py:296-345 | an accepted confirm followed by a split of exactly its moved mentions back onto the absorbed entity is always accepted, moves the same mentions, and restores active memberships, lineage, every map and argument resolution; the confirm itself did change them |
| LedgerInterleaved.ReversalAfterRun | aegis/er/adjudication.py:296-475 | the same after any well-formed run that leaves the moved mentions where they are, also when the survivor gains mentions or splits off its own: at every parent revision the scope check passes the split is accepted, and every identity answer is the one that run gives when the pair was left unresolved instead of confirmed |
| LedgerInterleaved.ReversalLeftAlone | aegis/er/adjudication.py:296-475 | if the run stays away from the survivor, every parent revision from the merge's on will do |
| LedgerInterleaved.TwinRun | aegis/er/adjudication.py:193-227 | over such a run the merge stays the only difference between the two ledgers: each write is accepted on both or on neither |
| LedgerInterleaved.MovesCommute | aegis/er/adjudication.py:193-227 | moves of different mentions give the same rows in either order |
| LedgerNested.NestedReversal | aegis/er/adjudication.py:296-475 | however deeply merges are nested, also when a survivor is merged away in turn: a run in which every accepted confirm is undone by a later split, the last one first, with refused confirms, rejections, unresolved marks and drafts anywhere between, accepts every such split and ends with every identity answer as at its start |
| Projection.ReversalRestoresProjection | aegis/projections/edges.py:335-376 | after that round trip the edge projection is the same table, row for row |
| LedgerReversal.SplitAcceptedIff | aegis/er/adjudication.py:404-451 | a split is accepted if and only if its scope is current, it names some but not all of the entity's mentions, and its target exists (or the minted id is new) |
| LedgerExamples.MergesHappen | aegis/er/adjudication.py:312-345 | for any two mentions and entities there is a well-formed run after which their confirm is accepted, so the reversal laws are about reachable ledgers |
| LedgerExamples.NestedMergesHappen | aegis/er/adjudication.py:312-345 | a reachable ledger at which one confirm merges y into x and the next x into z, both are undone, and every identity answer is back |
| LedgerReversal.MergeOnlyAgreement | aegis/er/canonical.py:68-105 | in every well-formed run without a split, each membership ever opened resolves to where its mention is now, and anchors and the map resolve every recorded claim argument alike |
| Projection.MergeOnlyEndpoints | aegis/projections/edges.py:335-340 | in such runs a claim's projected endpoints are the same with and without its anchors |
| Projection.EndpointsPartIff | aegis/projections/edges.py:335-340 | in a valid ledger anchors and the map project a claim to different edges if and only if some anchor is held by another entity than the stored id resolves to, and a symmetric claim's ends have not just traded places |
| Projection.EndpointsOverRuns | aegis/projections/edges.py:335-340 | the same after every well-formed run, splits included |
| LedgerExamples.AnchorCanLeave | aegis/projections/edges.py:335-340 | a well-formed run with one split after which a claim is projected from the new entity while the map still gives the old one |
| LedgerRuns.ForestOverRuns | aegis/er/canonical.py:53-105 | after every well-formed run the lineage has no cycle, the walk never refuses, holders resolve to themselves, whatever ever held a mention resolves to an entity that holds one, and the stored map says the same |
| LedgerRuns.RunValid | aegis/er/adjudication.py:193-227 | the ledger invariant holds after every well-formed run of confirms, rejects, splits, unresolved marks, opens, claims and retractions, accepted or refused |
| LedgerRuns.ResolvesToHolders | aegis/er/canonical.py:92-105 | in a valid ledger every entity that ever held a mention resolves to an entity that holds one |
| Lineage.RefusesExactlyCycles | aegis/er/canonical.py:92-105 | the walk refuses an entity if and only if its chain never ends, and otherwise returns an end of the lineage |
| Lineage.ForestIffResolves | aegis/er/canonical.py:92-105 | the lineage has a strictly falling rank (no cycle) if and only if the walk resolves every entity |
| Lineage.ResolveChain | aegis/er/canonical.py:92-105 | the loop over the visited list ends and computes the chain walk |
| Lineage.LinkRoot | aegis/er/canonical.py:77-83 | linking one root under another redirects exactly the entities that resolved to it |
| LedgerSteps.ConfirmValid | aegis/er/adjudication.py:296-345 | exactly when a confirm is accepted, what it moves and reports, that it adds one link between two roots, and that the rebuild never refuses |
| LedgerSteps.SplitValid | aegis/er/adjudication.py:404-475 | an accepted split keeps the invariant, moves exactly the named mentions and cuts exactly the target's link; the rebuild never refuses |
| LedgerSteps.QuietDecision | aegis/er/adjudication.py:348-401 | a decision that moves nothing changes no lineage and keeps the invariant |
| LedgerSteps.RebuildAnswers | aegis/er/canonical.py:108-154 | on a forest the rebuild succeeds and its map answers every lookup, stored or defaulted, with the root |
| LedgerOpens.OpenValid | aegis/er/ledger.py:79-111 | an open that meets the stated condition keeps the invariant and the lineage |
| LedgerOpens.OpenCoherentIff | aegis/er/ledger.py:104-106 | a default-revision open leaves map, lineage and holders coherent if and only if the entity is not absorbed and, on a merge revision, is the winner |
| LedgerSplit.OpenErasesMerge | aegis/er/canonical.py:76-83 | an open for any entity but the winner on a confirm's revision makes replay forget that merge altogether |
| LedgerExamples.OpenCanForgetMerge | aegis/actions/service.py:488-498 | a run in which it happens: merge, create an entity, open a new mention on it; replay then has no merge, the stored map still does |
| LedgerCycles.NoCycleInAnyRun | aegis/er/canonical.py:92-105 | over every run, well-formed or not, whose explicit opens name the baseline: the lineage has no cycle, the walk refuses nothing, and rows and decisions stay sound |
| LedgerCycles.RefusalsInAnyRun | aegis/er/canonical.py:108-154 | in any such run the rebuild never refuses a split, and refuses a confirm if and only if its guards pass and its survivor's chain leads to the entity it would absorb |
| LedgerCycles.LinkClosesCycleIff | aegis/er/canonical.py:77-83 | linking an entity under another closes a cycle if and only if the other's chain already reaches it |
| LedgerExamples.ConfirmCanBeRefused | aegis/er/adjudication.py:312-345 | a run with such a confirm: a mention opened on an absorbed entity is confirmed with one of the winner's |
| LedgerRows.RowsOverRuns | aegis/er/adjudication.py:205-227 | over every run, well-formed or not, rows of one mention never overlap, each closed row is continued on another entity at its closing revision, and all revisions lie within the head |
| LedgerOpens.EitherWayRound | aegis/actions/service.py:341-349 | a symmetric claim is stored alike whichever way round it is given, smaller id first, each anchor beside its own argument |
| LedgerHistory.OneEntityAtEveryRevision | aegis/er/adjudication.py:205-227 | on sound rows: at every revision from its first open on a mention belongs to exactly one entity |
| LedgerHistory.HistoryIsStable | aegis/er/adjudication.py:193-227 | whatever the tables, what was reconstructible up to a past revision is unchanged by any later run, well-formed or not, whose explicit opens name later revisions |
| LedgerHistory.HistoryOverRuns | aegis/er/adjudication.py:193-227 | both for the ledger any run from the baseline leads to, and any run after it |
| LedgerHistory.OpenKeepsHistoryIff | aegis/er/ledger.py:104-106 | an open leaves a revision as it was if and only if the revision it is stamped with comes later |
| LedgerHistory.LineageIsStable | aegis/er/canonical.py:53-89 | the lineage as of a past revision is replayed alike after every such run |
| LedgerHistory.LineageIsReconstructible | aegis/er/canonical.py:53-89 | after every later well-formed run, replaying the decisions made up to the head of today gives the lineage of today |
| LedgerHistory.HeadIsActive | aegis/er/ledger.py:45-55 | reconstruction at or after the head gives the active memberships |
| LedgerHistory.ScopeCurrentIff | aegis/er/adjudication.py:118-156 | on sound rows the scoped check passes if and only if no entity in scope held anything else at any revision since the parent |
| LedgerHistory.StalenessOverRuns | aegis/er/adjudication.py:118-156 | the same for the ledger any run leads to |
| LedgerHistory.NeverStaleFromElsewhere | aegis/er/adjudication.py:118-156 | over every run, well-formed or not, that takes from no entity in scope and gives to none, the check answers as it did: changes elsewhere never refuse |
| LedgerHistory.ScopeHoldsTheSame | aegis/er/adjudication.py:118-156 | on sound rows, for a parent at or before the head, a passed check means the scope holds now exactly what it held at the parent |
| LedgerSplit.SplitSurfaces | aegis/er/adjudication.py:243-293 | a split surfaces exactly the live claims with an unanchored argument that resolved to the split entity |
| LedgerSplit.AnchorsFollow | aegis/er/adjudication.py:452-475 | every other argument on the split entity is anchored and follows its own mention after the rebuild |
| LedgerSplit.SplitRestoresChain | aegis/er/canonical.py:84-88 | after a split, onto a named or a new entity, exactly the ids whose chain passed through the target resolve to it, and every other id as before |
| LedgerSplit.SplitStaysInsideIff | aegis/er/adjudication.py:464-467 | a split changes only resolutions to the split entity if and only if its target resolved to itself or to the split entity |
| LedgerSplit.UnreportedIff | aegis/er/adjudication.py:243-293 | exactly which live claims have an unanchored argument re-attributed without being surfaced: the target resolved elsewhere, and the claim hangs from a chain through it and by no argument from the split entity |
| LedgerExamples.SplitCanGoUnreported | aegis/er/adjudication.py:464-467 | a well-formed run at which that happens: merge B into A, then split C onto B |
| LedgerSplit.SplitQueues | aegis/actions/service.py:669-731 | a split onto a new entity queues one draft for each surfaced claim, in order, that repoints exactly one unanchored argument, one that resolved to the split entity; a split onto an existing entity queues none |
| LedgerExamples.SplitCanQueueNothing | aegis/actions/service.py:646-649 | a well-formed run after which a split surfaces a claim and queues nothing |
| LedgerBatch.AcceptableIff | aegis/api/routes/identity.py:284-318 | an item is accepted if and only if it is an open pre-verified candidate between two different entities unchanged since the parent revision; then it merges exactly that pair |
| LedgerBatch.AcceptableAfter | aegis/api/routes/identity.py:310-317 | after one merge another item is acceptable if and only if it was before and shares no entity with it |
| LedgerBatch.BatchOutcome | aegis/api/routes/identity.py:283-322 | for a parent at or before the head the accepted merges touch pairwise disjoint pairs, each unchanged since the parent, and memberships and lineage are exactly those merges applied |
| LedgerBatchOrder.RefusedLeaveNoTrace | aegis/api/routes/identity.py:310-318 | a batch ends in the same tables as the batch of its accepted items alone |
| LedgerBatchOrder.AllAcceptedIff | aegis/api/routes/identity.py:283-322 | a whole list is accepted if and only if its items are acceptable and pairwise apart in the starting tables |
| LedgerBatchOrder.BatchOrderIrrelevant | aegis/api/routes/identity.py:283-322 | the accepted items in any order are all accepted again and leave memberships, lineage and every resolution the same |
| LedgerBatchOrder.BatchReversal | aegis/er/adjudication.py:404-475 | splitting any one merge of a batch back out leaves every identity answer as the batch without that item would have |
| LedgerConstraints.RejectionIsPermanent | aegis/er/adjudication.py:364-397 | over every run, well-formed or not, constraint versions stay 1, 2, .. per pair, each superseded by the next, and a constrained pair stays constrained |
| LedgerConstraints.ExactlyOneInForce | aegis/er/adjudication.py:364-397 | a pair has at most one constraint in force, and has one if and only if it was ever rejected |
| LedgerConstraints.ConstrainVersioned | aegis/er/adjudication.py:371-396 | a rejection adds the next version and constrains exactly its pair |
| LedgerRecords.DecisionIsRecorded | aegis/er/adjudication.py:163-190 | an adjudication leaves no trace or adds exactly one decision, with its kind, parent revision, candidate and mentions, at a new head; no other write adds one |
| LedgerRecords.SettlesOneRow | aegis/er/adjudication.py:521-535 | an accepted adjudication that names a candidate found it open and makes its row read confirmed, rejected or unresolved, as decided, and by which decision; no other row changes |
| LedgerRecords.CandidatesTellOverRuns | aegis/er/adjudication.py:521-535 | over every run, well-formed or not: a settled candidate names a decision of its kind that names it, and every decision that names a candidate settled it |
| LedgerRecords.SettledIff | aegis/er/adjudication.py:521-535 | from the migrated store on, a candidate reads confirmed, rejected or unresolved if and only if a decision of that kind names it |
| LedgerRecords.SettledForGood | aegis/er/adjudication.py:529-532 | a settled or retired candidate row never changes again, over any run |
| LedgerRecords.RejectWrites | aegis/er/adjudication.py:371-401 | a rejection adds the constraint it reports, of its two mentions, smaller id first, naming its decision and in force, and rewrites no earlier one but for what superseded it |
| LedgerRecords.ConstraintsTellOverRuns | aegis/er/adjudication.py:364-401 | over every run the constraint table is the list of the rejections in the log: one for each, in order, with its mentions |
| LedgerClaims.RecordedIff | aegis/actions/service.py:319-422 | a claim is recorded if and only if it is new, its arguments are known and apart, exactly one of object and literal is given, its dates are in order, each anchor belongs to its argument or nowhere and the two are not one, and required anchors are there; then it is stored as given, a symmetric one turned round, and each anchor belongs to its argument |
| LedgerClaims.RetractedIff | aegis/actions/service.py:733-749 | a retraction is accepted if and only if it has a reason and the claim is live, and marks that claim and nothing else |
| LedgerClaims.ClaimsOverRuns | aegis/actions/service.py:733-749 | over every run no claim is lost, rewritten or brought back to life, and every stored one has its arguments and dates in order |
| LedgerRefusals.RefusalsAreWarranted | aegis/er/adjudication.py:296-535 | whatever reason any write is refused for holds of the tables and the request |
| LedgerRefusals.SkipsAreWarranted | aegis/api/routes/identity.py:284-318 | so does the reason a batch skips a candidate for |
| Ledger.IdentityLedger.ActiveEntity | aegis/er/ledger.py:45-55 | the lookup gives the entity of the mention's one active row |
| Ledger.IdentityLedger.CheckScopeIsCurrent | aegis/er/adjudication.py:118-156 | the two queries decide the scoped staleness predicate, and a stale caller is shown exactly the decisions of later revisions, a last stretch of the log |
| Ledger.IdentityLedger.MoveMentions | aegis/er/adjudication.py:193-227 | the row loop closes and reopens exactly the rows of the value-level move and reports the moved mentions in order |
| Ledger.IdentityLedger.LineageFromLedger | aegis/er/canonical.py:53-89 | the replay loop over indexed revisions computes the lineage |
| Ledger.IdentityLedger.RebuildCanonicalMap | aegis/er/canonical.py:108-154 | the rebuild refuses when an entity does not resolve, and otherwise refills the map, sets exactly the orphans' tombstones and counts entities, merged ones and tombstones |
| Ledger.IdentityLedger.ConfirmHandler | aegis/er/adjudication.py:296-345 | on any tables the database constraints allow, the handler's writes and report, or its refusal, are those of the confirm on values |
| Ledger.ApplyStorable | aegis/er/adjudication.py:193-227 | every write keeps those constraints on any tables they allow: one active membership per mention, foreign keys into the entity table |
| Ledger.IdentityLedger.RejectHandler | aegis/er/adjudication.py:348-401 | the same for a rejection |
| Ledger.IdentityLedger.UnresolvedHandler | aegis/er/adjudication.py:478-503 | the same for an unresolved mark |
| Ledger.IdentityLedger.SplitHandler | aegis/er/adjudication.py:404-475 | the same for a split, including the surfaced claims |
| Ledger.IdentityLedger.Decide | aegis/actions/service.py:623-645 | on any tables the database constraints allow, one adjudication in one transaction: committed whole, or refused with every table as before |
| Ledger.IdentityLedger.Adjudicate | aegis/actions/service.py:584-667 | a blank note is refused and changes nothing; otherwise the decision is taken and the drafts for its surfaced claims are queued |
| Ledger.IdentityLedger.QueueReattribution | aegis/actions/service.py:669-731 | the draft of one claim: subject repointed if it is unanchored and names the split entity, else the object likewise, and none without a created entity |
| Ledger.IdentityLedger.PerformAll | aegis/actions/service.py:584-667 | driving the service through a list of writes, accepted or refused, takes the tables through the run about which the laws are proved |
| Ledger.IdentityLedger.OpenMembershipRow | aegis/er/ledger.py:79-111 | the open inserts one row at the given or head revision, or refuses |
| Ledger.IdentityLedger.CheckAnchorOf | aegis/actions/service.py:528-563 | an anchor of an unresolved mention opens its membership; one that belongs elsewhere is refused |
| Ledger.IdentityLedger.RecordClaimRow | aegis/actions/service.py:320-422 | a claim and the memberships its anchors open are stored together or not at all |
| Ledger.IdentityLedger.RetractRow | aegis/actions/service.py:733-756 | a retraction marks one live claim and nothing else; a blank reason, a missing and an already retracted claim are refused |
| Ledger.IdentityLedger.BatchConfirm | aegis/api/routes/identity.py:283-322 | the loop reaches the tables of the batch on values, lists the confirmed candidates, and lists each skipped one with the refusal it met in its turn; a blank note skips them all |
| Segments.SegmentIntervals | aegis/projections/edges.py:163-188 | the sweep returns the exact segmentation: ordered, disjoint, each segment carrying the sorted ids covering its every instant, complete, and maximal |
| Segments.SegmentationExact | aegis/projections/edges.py:163-188 | every list of intervals has an exact segmentation, and the sweep's function gives it |
| Segments.ExactUnique | aegis/projections/edges.py:163-188 | there is only one exact segmentation of any intervals |
| Segments.SegmentationOrderFree | aegis/projections/edges.py:163-188 | the segments do not depend on the order of the intervals |
| ClaimDates.DayExactIff | aegis/projections/edges.py:147-160 | a stored row lists a claim on exactly the days it is valid if and only if the claim keeps clear of the two sentinel cases |
| ClaimDates.ListedOnMax | aegis/projections/edges.py:191-195 | on the last representable day a row lists exactly the claims covering the day before it |
| ClaimDates.WindowKeepsIff | aegis/queries/graph.py:145-166 | for any window: a segment that some claim supports on a day of the window is kept, and one that none supports is kept if and only if the window is inverted and the segment holds both of its ends, or it opens on the last date and all claims of a segment reaching it ended the day before |
| ClaimDates.SentinelInstances | aegis/projections/edges.py:191-195 | one claim that ends the day before the last date: it is shown on the last date, and its segment is kept by a window of the last date alone and by an inverted one |
| Projection.ProjectionIsPointwise | aegis/projections/edges.py:302-424 | the table shows a claim on exactly one edge, on exactly the days it is valid, if and only if the claim keeps clear of the sentinels |
| Projection.RowsAreOriented | aegis/projections/edges.py:356-369 | no row is a self-loop, and rows of a symmetric predicate have the smaller end first |
| Projection.EdgeIdsDistinct | aegis/projections/edges.py:121-144 | two rows of one edge never share a start, so ids derived from key and bounds are distinct |
| Projection.SameProjection | aegis/projections/edges.py:302-424 | tables that answer identity questions alike have the same projection |
| Projection.GroupClaims | aegis/projections/edges.py:345-370 | the grouping loop puts each live relational claim under its resolved edge and drops collapsed ones |
| Projection.RebuildEdgeProjection | aegis/projections/edges.py:302-424 | the builder returns exactly the projection's edges, spans and claims, and fails if and only if some grouped claim ends on the last date |
| ProjectionRows.ListedIsLive | aegis/projections/edges.py:351-370 | whatever a row lists is a stored claim that is not retracted, has an object, and relates the ends of the row's edge under its predicate, each end being what the argument's anchor belongs to, else what the map says, else the id itself |
| ProjectionRows.LiveIsListed | aegis/projections/edges.py:351-395 | every such claim is listed on its edge on exactly its valid days, unless it ends on the last day but one or begins on the last without an end |
| ProjectionRows.OneEdge | aegis/projections/edges.py:356-370 | two arguments that stand for different entities put the claim on exactly one edge, from the smaller id under a symmetric predicate |
| ProjectionRows.OverflowIff | aegis/projections/edges.py:147-160 | the rebuild overflows if and only if a claim that belongs on an edge ends on the last representable day |
| ProjectionRows.RetractedIsGone | aegis/projections/edges.py:351-355 | after a retraction no table built after any later run lists the claim |
| Support.RelationIndex | aegis/projections/edges.py:198-227 | each visible relation is indexed under both of its ends |
| Support.SupportSummary | aegis/projections/edges.py:230-290 | segment counts are numbers of distinct unordered pairs, entry counts are the relation ends at each claim, in claim order |
| Support.InsideCountedTwice | aegis/projections/edges.py:247-251 | the per-claim counts add up to the distinct relations plus those inside the segment, and both again over the relations recorded from both ends |
| Support.MirrorIsOneRelation | aegis/projections/edges.py:258-267 | recording a relation from its other end too changes no count of the segment |
| Support.VisibleCountsLess | aegis/projections/edges.py:207-211 | restricting the reader never adds a relation to a count |
| Support.VisibleIff | aegis/projections/edges.py:207-211 | a reader is shown exactly the relations both of whose claims the reader may see |
| Support.DistinctIff | aegis/projections/edges.py:258-267 | a distinct relation of a segment is a row of its kind, either way round, with an end in the segment |
| Support.EndsAre | aegis/projections/edges.py:247-251 | a claim's count is the number of rows of the kind that start at it plus those that end at it |
| Multigraph.WithinIsDistance | aegis/queries/graph.py:383-427 | the layers of the walk are distances: within k if and only if joined to a seed by at most k rows |
| Expansion.Budget.Admit | aegis/queries/graph.py:311-334 | a row is admitted if and only if nodes and edges with it still fit, and a refusal changes nothing but the full flag |
| Expansion.ResolveSeeds | aegis/queries/graph.py:209-224 | each resolved seed appears once, in order of first appearance, and every one does |
| Expansion.BreadthFirst | aegis/queries/graph.py:383-427 | of the rows with an end at distance below the hop limit, hop by hop in order, returns the longest run from the front that fits the cap together with seeds and ends, so a cut falls inside one hop and drops no completed one; truncated if and only if such a row is missing, which is if and only if there are such rows and all of them overrun the cap |
| Expansion.Overview | aegis/queries/graph.py:364-370 | without seeds: a fetched row is taken if and only if it fits beside the rows taken before it; within the cap, and truncated if and only if some row is missing, which is if and only if all rows with their ends exceed the cap |
| Expansion.NothingElseFits | aegis/queries/graph.py:324-334 | no row the overview passed over fits beside what it took |
| Expansion.LeftOverIff | aegis/queries/graph.py:324-334 | what fits from the front of a listing is less than the whole if and only if the listing is not empty and overruns the cap |
| Expansion.Expand | aegis/queries/graph.py:337-380 | one request: the edges are what fits of the rows asked about, walked or in overview; nodes and edges together are at most what was asked for, between one and two thousand, when the seeds fit; the flag is raised if and only if a row is missing, and if and only if the rows asked about with their ends exceed that number; the nodes are the ends of the edges and the resolved seeds as far as they have entity rows |
| Expansion.AskedIff | aegis/queries/graph.py:354-380 | the rows a request is about are all of them in the overview, else those with an end to which a walk leads from a seed in fewer rows than hops were asked for and than three |
| Expansion.SeedsIff | aegis/queries/graph.py:361 | the first hundred seeds count, each for what the map says of it, else for itself |
| ExpansionOrder.KeptAreNearer | aegis/queries/graph.py:383-427 | every row a walk keeps is nearer than every row a full budget leaves out, or as near and earlier in the table's order |
| Expansion.ToldIff | aegis/api/schemas.py:618-623 | of every answer to a request: the flag is right about the hops the caller asked for, not the clamped ones, if and only if the rows of the clamped walk overrun the cap or no row lies beyond it |
| Expansion.LineUnflagged | aegis/queries/graph.py:357 | on every line of more than three rows, a request from one end for more than three hops and for at least seven elements is answered by exactly the first three rows and without the flag, though the fourth was asked for |
| ShortestPaths.Search | aegis/queries/graph.py:492-529 | the level search computes true depths and, for each reached node, all parallel ways in from the previous level, stopping at the target's level |
| Routes.CompletionsAreShortest | aegis/queries/graph.py:531-546 | what the parent graph enumerates is exactly the set of shortest routes |
| Routes.Enumerate | aegis/queries/graph.py:531-546 | the stack loop ends, and yields a prefix of that enumeration, all of it when below the count limit |
| Routes.RoutesAreAll | aegis/queries/graph.py:492-546 | the enumeration lists each shortest route within the hop limit once and nothing else |
| Routes.ShortestRoutes | aegis/queries/graph.py:484-546 | every route returned is real and shortest within the hop limit, none repeats, they are listed by length and then node ids, as many as exist up to the count limit; nothing is missing if and only if all fit |
| RouteOrder.ListedByEntities | aegis/queries/graph.py:546 | of two routes listed, the first has the smaller entity id where they first differ |
| RouteOrder.KeptAreLarger | aegis/queries/graph.py:531-546 | which routes a count limit keeps: read back from the target, each parts from every route left out by a row with a larger id |
| ShortestPaths.RoutesBack | aegis/queries/graph.py:506-529 | rows are walked either way: the shortest routes back are the shortest routes there, reversed |
| Routes.Paths | aegis/queries/graph.py:430-481 | one request with resolved ends, at most five hops and twenty-five routes: all routes found are shortest within the hops asked for, none is missing when fewer are found than asked for, and the flag is raised if and only if as many are; the edges are those of the routes, and the nodes those on a route or at its ends as far as they have entity rows |
| Routes.FlagForNothing | aegis/queries/graph.py:479 | every request for one route from an entity to itself is flagged as truncated though the only route there is was returned |
| Routes.FewerHopsIff | aegis/queries/graph.py:450 | the routes within the clamped hops are those within the hops asked for if and only if the target is within the clamped, or not even within the asked; in between the answer is empty |
| Routes.LineUnanswered | aegis/queries/graph.py:450 | along every line of more rows than the hop limit, a request that asks for enough hops is answered by no route and no flag, though a route within those hops exists |
| OutboxRuns.AlwaysConverges | aegis/authz/outbox.py:64-98 | over every run of actions, partial, failing, rolled-back or lost drains, inline deletes and rebuilds, what is pending turns the store into what the tables imply; an empty queue means they are equal |
| OutboxRuns.DrainCommitted | aegis/authz/outbox.py:74-98 | a committed drain, however far it got and even if a failed call took effect, leaves a queue that leads to the same store |
| OutboxRuns.DrainRolledBack | aegis/authz/outbox.py:74-98 | a drain whose transaction is lost after any applied prefix leaves a store that the whole queue still repairs |
| OutboxRuns.DrainEmpties | aegis/authz/outbox.py:64-98 | with a store that answers, one unlimited drain empties the queue and reaches the implied store |
| OutboxRuns.DrainTakesFront | aegis/authz/outbox.py:64-98 | a drain makes the calls for the pending rows from the front and stops at the limit or the first failure: what worked is pending no longer, the rest is, and the store has felt exactly those, plus the failing one if its call took effect |
| OutboxRuns.DrainKeepsRows | aegis/authz/outbox.py:74-98 | a row the drain touched was pending and has one more attempt, and every other is as it was |
| OutboxRuns.InlineDeleteIff | aegis/authz/outbox.py:101-125 | the post-commit delete keeps convergence if and only if the queue mentions its tuple or the tuple is not desired |
| OutboxRuns.PartialRebuild | aegis/authz/outbox.py:205-220 | a rebuild broken off midway leaves convergence to the untouched queue |
| Outbox.AssignConverges | aegis/actions/service.py:1241-1295 | an assignment or role change queues exactly what turns the old tuple set into the new one |
| Outbox.RemoveConverges | aegis/actions/service.py:1297-1335 | the same for a removal |
| Outbox.RegisterConverges | aegis/actions/service.py:1015-1074 | the same for registered evidence |
| Outbox.CustodyConverges | aegis/actions/service.py:1076-1168 | the same for a custody transfer |
| OutboxGrants.AssignmentGrants | aegis/actions/service.py:1241-1295 | after an assignment and a drain the user has the relation of the new role on the case and no other; everybody and everything else is as before |
| OutboxGrants.RemovalRevokes | aegis/actions/service.py:1297-1335 | after a removal and a drain the membership is gone and the user has no relation whatever on the case; everybody and everything else is as before |
| OutboxGrants.RegistrationLinks | aegis/actions/service.py:1015-1074 | after a registration and a drain the item is linked to the case it was registered in, if any, and to no other |
| OutboxGrants.HandoverMoves | aegis/actions/service.py:1076-1168 | after a handover and a drain the item has the new custodian and no other, and its history one more event |
| OutboxGrants.AssignedIff | aegis/actions/service.py:1241-1270 | an assignment is accepted if and only if the role is one of the four, the user is named, the case exists, and a previous role is another of the four |
| OutboxGrants.RemovedIff | aegis/actions/service.py:1297-1315 | a removal is accepted if and only if the user is named and is a member with one of the four roles |
| OutboxGrants.RegisteredIff | aegis/actions/service.py:1015-1055 | a registration is accepted if and only if it has a description, its case, if any, exists, and the item is new |
| OutboxGrants.HandedOverIff | aegis/actions/service.py:1076-1130 | a handover is accepted if and only if custodian and purpose are named, the item exists, and the event follows the last: named by the current custodian if by anyone, not earlier, and to somebody else |
| OutboxGrants.DrainedStore | aegis/authz/outbox.py:64-98 | one unlimited drain of a store that answers is the drain these speak of |
| OutboxGrants.InOrderOverRuns | aegis/actions/service.py:1015-1335 | over every run memberships and evidence name known cases and case roles, and each custody history runs forward in time and from hand to hand |
| OutboxGrants.StoreOverRuns | aegis/authz/outbox.py:182-202 | one drain away, after every run: a user has a relation on a case by the role of the membership row, an item is linked to the case of its row, and held by whom its last event names, and in no other way |
| OutboxService.AccessService.AssignCaseMember | aegis/actions/service.py:1241-1295 | inserts or updates the membership and queues, or refuses and changes nothing |
| OutboxService.AccessService.RemoveCaseMember | aegis/actions/service.py:1297-1335 | deletes the membership and queues its revocation, or refuses |
| OutboxService.AccessService.RegisterEvidenceItem | aegis/actions/service.py:1015-1074 | inserts the item and queues its case link, or refuses |
| OutboxService.AccessService.TransferCustody | aegis/actions/service.py:1076-1168 | appends the custody event and queues the handover, or refuses |
| OutboxService.AccessService.SyncOutbox | aegis/authz/outbox.py:64-98 | the ordered loop with its early stop does the drain and keeps convergence |
| OutboxService.AccessService.DeleteInline | aegis/authz/outbox.py:101-125 | removes the tuple if the store answers; convergence survives if and only if the call failed, the queue mentions the tuple, or the tuple is not desired |
| OutboxService.AccessService.DesiredTuples | aegis/authz/outbox.py:182-202 | the loops gather exactly the tuples the tables imply |
| OutboxService.AccessService.RebuildStore | aegis/authz/outbox.py:205-234 | whatever the store drifted to, a finished rebuild leaves the implied store and an empty queue; a broken one has only moved towards it and keeps convergence |
| OutboxRuns.RebuildRepairsDrift | aegis/authz/outbox.py:205-234 | after a finished rebuild of any drifted store every later run converges |
| Matcher.OverlapIsSharedDay | aegis/er/rules.py:121-129 | two windows that are not inverted overlap if and only if some day lies in both |
| Matcher.EvaluateIdentifiers | aegis/er/rules.py:154-203 | emitted plus suppressed is n(n-1)/2 summed over the groups of n distinct mentions, and a pair is emitted if and only if two non-conflicting holders of one group make it |
| Matcher.EmittedHaveWitnesses | aegis/er/rules.py:170-202 | every emitted pair is in order and has two observations of its key that do not conflict |
| MatcherRule.PairedIff | aegis/er/rules.py:121-203 | for any records with windows in order: two mentions are paired, smaller id first, if and only if the latest records of each under some number name no two issuers and have a day in common |
| MatcherRule.EmittedOnEvidence | aegis/er/rules.py:170-202 | every emitted pair is evidenced by two records that support each other, whose claims and issuers it names |
| MatcherRule.SpacingIsIgnored | aegis/er/rules.py:385-394 | spacing inside a number is ignored, wherever it stands |
| MatcherRule.OnlySpacingIsIgnored | aegis/er/rules.py:385-394 | a number without spacing is compared as it is, but for case |
| MatcherOrder.LaterOneWins | aegis/er/rules.py:172-173 | of the observations of a mention under a key only the last one is compared |
| MatcherOrder.EmittedUnderIff | aegis/er/rules.py:172-178 | a pair is emitted under a key if and only if it is in order and the two last observations do not conflict |
| MatcherOrder.OrderFreeIff | aegis/er/rules.py:164-178 | every order of the observations gives the same verdict on a pair under a key if and only if all its observations there conflict alike |
| MatcherOrder.PairOrderFreeIff | aegis/er/rules.py:164-203 | whether the rule emits a pair at all is the same for every order if and only if under some key its mentions meet and no two of their observations conflict, or under no key two agree |
| MatcherOrder.OneEachIsOrderFree | aegis/er/rules.py:164-203 | with one observation per mention and key the emitted pairs, evidence included, are the same in every order |
| MatcherOrder.OrderMatters | aegis/er/rules.py:172-173 | three records, a mention under two issuers and another under the first: no pair is emitted in one order of them, and exactly the pair of the two mentions in another |
| Matcher.PairsFormula | aegis/er/rules.py:174-178 | pairs among n things, counted as the nested loops meet them, are n(n-1)/2 |
| Matcher.EvaluateSameKey | aegis/er/rules.py:206-221 | proposes exactly the ordered pairs that share a record and a key, each once per group |
| Observations.HeardIff | aegis/er/rules.py:397-408 | the mentions observed for an identifier claim are those of the entity it applies to if and only if it is anchored or its stored subject resolves to itself; otherwise there are none |
| Observations.MergeSilences | aegis/er/rules.py:397-408 | after an accepted merge an unanchored claim about the absorbed entity is heard for no mention, though it applied to some before and to more now |
| Emission.RunRules | aegis/er/rules.py:265-320 | the rule run considers exactly the pairs of the two rules, the identifier rule's first, stores the first proposal of each that passes the gates, and its counters add up to all pairs of all groups |
| Emission.FlagIsIdentifiers | aegis/er/rules.py:277-318 | a newly stored row is pre-verified, so that batch confirm may act on it, if and only if the identifier rule emitted its pair |
| Emission.RuleRun.Emit | aegis/er/rules.py:277-315 | one proposal meets exactly one fate, and rows, known pairs and counters follow |
| Emission.RunSplink | aegis/er/splink_job.py:250-303 | the scored loop stores exactly what passes the gates and counts every comparison once |
| Emission.TalliesAddUp | aegis/er/splink_job.py:266-300 | every proposal has one fate, and the emitted ones are the stored ones |
| Emission.KeptIff | aegis/er/rules.py:285-313 | a pair is stored if and only if some proposal of it passes every gate as the run starts, however often it is proposed |
| Emission.KeptOnce | aegis/er/rules.py:291-313 | no pair is stored twice, none that was constrained, none that already had a row |
| Emission.WithRowsAdds | aegis/er/rules.py:296-312 | storing adds exactly the new pairs and leaves every earlier row alone |
| EmissionRows.RulesStoreIff | aegis/er/rules.py:265-320 | the rule run stores a row for a pair if and only if one of its rules proposes it and the pair is not one entity, not ruled out by a constraint in force, and has no row that was not retired; new rows are open, undecided, and pre-verified if and only if the identifier rule pairs them; earlier rows stay |
| EmissionRows.SplinkStoresIff | aegis/er/splink_job.py:265-303 | the same for the scored loop and the comparisons at or above the threshold, never pre-verified |
| EmissionRows.CountersAre | aegis/er/splink_job.py:266-281 | the counters of low scores, of pairs of one entity and of ruled-out pairs count exactly the proposals that are so, in this order |
| EmissionRows.ReportCounts | aegis/er/rules.py:272-320 | what a report counts: the new rows, those of them with the flag, the proposals of each fate, and what is left had a row already |
| Emission.RerunAddsNothing | aegis/er/rules.py:272-320 | a second run over the same proposals, in any order, leaves the table as it is |
| Emission.SecondRunIsIdle | aegis/er/rules.py:265-320 | a second rule run on the store the first one left emits nothing: over rows read in the same order, or in any order when no pair's candidate depends on the order |
| Emission.IdleInAnyOrderIff | aegis/er/rules.py:265-320 | a second run emits nothing in whatever order the observations are read if and only if every pair that some order would emit and the gates pass was put forward by the first run |
| Emission.SecondRunCanEmit | aegis/er/rules.py:265-320 | over those three records of the identifier rule, a first run stores nothing, and a second that reads them in the other order stores a pre-verified pair |
| Emission.RejectedStaysRejected | aegis/er/rules.py:235-250 | once a pair was rejected, whatever is decided in between, neither producer stores it again in either order |
| AuditChain.Verify | aegis/audit/chain.py:130-156 | reports intact if and only if the whole chain recomputes, else the first violating row with expected and actual hash |
| AuditChain.AuditLog.Append | aegis/audit/chain.py:62-117 | appends one row chained onto the head and keeps a valid log valid; blank actors and actions are refused |
| AuditChain.HeadDeterminesLog | aegis/audit/chain.py:56-59 | without collisions two valid logs of equal length and equal last hash are the same log |
| AuditChain.HeadDeterminesLength | aegis/audit/chain.py:56-59 | if moreover nothing hashes to the genesis value, equal last hashes alone give equal length |
| AuditChain.EditIsVisible | aegis/audit/chain.py:130-156 | any edit of a row of a valid log breaks verification or moves the last hash |
| Ulid.EncodeUlid | aegis/ids.py:24-31 | the 26-step loop gives the 26 base-32 digits of the value |
| Ulid.DecodeEncode | aegis/ids.py:27-30 | k digits lose nothing of a value below 32^k |
| Ulid.UlidRoundTrip | aegis/ids.py:24-31 | milliseconds and random part can be read back from the digits |
| Ulid.TenAndSixteen | aegis/ids.py:24-31 | an id is the ten digits of its milliseconds followed by the sixteen of its random part |
| Ulid.EncodeOrder | aegis/ids.py:27-30 | text order of encodings of one length is numeric order |
| Ulid.UlidOrder | aegis/ids.py:24-34 | ids of one prefix sort by millisecond, and within one by their random part |

## Left out

- Opened-membership side conditions: what the map and the lineage say is proved for well-formed runs; when an open lands on a merge revision for another entity than the winner, or targets an absorbed entity, the exact condition, the failing family and what still holds are proved.
- LedgerHistory.HistoryIsStable: later opens at an explicit revision that is not after the one read are excluded, because they do rewrite it, as `LedgerHistory.OpenKeepsHistoryIff` shows; only the baseline migration makes them.
- LedgerInterleaved.ReversalAfterRun: runs that merge the survivor away, split moved mentions off, give the absorbed entity mentions, or anchor a claim on the survivor by a moved mention are not covered; there the two ledgers differ in more than the merge. Merges of the survivor that are themselves undone first are covered by `LedgerNested.NestedReversal`.
- OutboxRuns.AlwaysConverges: inline deletes of a tuple that is desired and not queued are outside `OutboxRuns.Allowed`; `OutboxRuns.InlineDeleteIff` shows that the condition is exact.
- OutboxService.AccessService.RebuildStore: is atomic with respect to actions, because the program marks superseded also what was queued after it read the tables.
- Ledger.IdentityLedger.RebuildCanonicalMap: the revision stamped on map rows and the times of tombstones are not modelled.
- Ledger.IdentityLedger.RecordClaimRow: the ontology's checks of predicates, entity types, assertion types, grades and handling codes, and the fields of a claim other than its arguments, anchors and validity, are not modelled.
- OutboxService.AccessService.RegisterEvidenceItem: the checks of the content hash and of the source record are not modelled.
- Support.SupportSummary: the grading fields of the entries and the number of distinct records are not modelled.
- Projection.RebuildEdgeProjection: reliability, handling rank, record count and support of the rows are not modelled; `Support` has the counts of the support summary.
- Matcher.EvaluateIdentifiers: takes groups in any order, where the program sorts them; the set of pairs and the counts do not depend on it, nor does the pre-verified flag of a stored row, but the evidence kept with a pair of several keys does.
- Routes.ShortestRoutes: partial routes are kept front first instead of being reversed at the end.
- Expansion.Expand: the order of the returned rows, their support summaries and the labels of the nodes are not modelled.
- Emission.RunSplink: scores are real numbers, so not-a-number and rounding are not modelled; the scorer itself is a library.
- Text of ids: minted ids are parameters, required to be new where a collision would be a database error; `Ulid` models how they are made.
- Revision ids: a decision's new revision is the head plus one plus an arbitrary gap, for ids a sequence skips.
- Decision notes, actors, membership and decision ids, timestamps, producer names and feature payloads of candidate rows, revision stamps on map and projection rows.
- Giver, purpose, note and hash check of a custody event; the giver is always the previous custodian.
- Existence of mentions, parent revisions and records (foreign keys).
- Entity creation from mentions during claim acceptance: a run contains it as creating an entity and opening a membership.
- Ledger.IdentityLedger.Adjudicate: dual control, the audit row and the fields of a queued draft other than its two entities are not modelled.
- Review suggestions other than those drafts, quarantine release, and the search, ingestion and extraction services.
- Visibility filters and category predicates of the queries, whose rows are an input.
- SQL, locks, sessions and HTTP: a transaction is an atomic step, a savepoint a saved copy of the tables, and a call to the authorization store works, fails, or fails after taking effect.
- SHA-256 and canonical JSON: a parameter, assumed free of collisions only in the theorems about edits; `str.upper` is a parameter too.
- Candidate expiry and supersession by migrations, anchor backfill, and the legacy dataset.
