# CarpeOS core behaviour, verified in Dafny

This project models five stateful parts of CarpeOS and proves what they promise. The modules follow the components of
the program; an object that updates its fields is a class here, a chain of expressions is a function, and every loop
is a method proved against a specification whose own properties are the theorems.

- **Policy reconciliation planner** (`ReconciliationModel`, `Partition`, `PlanSpec`, `PlanBuilder`, `PlanTheorems`,
  `PlanRejections`, `PlanContents`, `PlanVerdict`, on `Reachability` and `Components`). Candidates are classified,
  split into connected components, checked for causes of taint, and assembled into a plan that the planner validates
  itself. The central theorems: an admissible plan cannot close a supersession cycle; admissible means conflict-free,
  in both directions; the plan does not depend on the order of its input; and the builder rejects its own plan exactly
  when candidates share a source in one of two ways that can be told from the candidates.
- **Durable job leases** (`Jobs`, `JobHistory`, `JobOutcomes`, `JobTable`, `JobScans`; `JobRaces`, `RaceGuarantees`,
  `RaceExamples`). The store carries a history of every job, so fencing, attempt counts and the distance between two
  leases are statements over every interleaving of calls, including bulk calls whose scan is stale. The last three
  modules split the calls that read and write without a transaction: exactly when records and answers are still those
  of whole calls, exactly when a job completes twice, and exactly when it can be leased too early.
- **Sync push and pull** (`Sync`, `SyncProtocol`, `SyncPull`, `SyncContents`). Many pushes interleave as steps: check,
  atomic batch, re-read. A batch may commit, abort, or commit and still report an error. Pulls page over two tables
  that keep growing.
- **Context packs and traces** (`Slots`, `SlotTheorems`, `SlotFloors`, `SlotPriority`; `Trace`, `TraceContents`). The
  two-pass allocator, with the exact condition under which its slots are floors; and the bounded walk over events that
  are known under several ids.
- **Write-once stores** (`ProposalChecks`, `Proposals`, `ProposalHistory`, `ProposalContents`; `Okf`, `OkfHistory`,
  `OkfContents`). The proposal table over any sequence of runs, and the OKF bundle over any sequence of rebuilds,
  edits and interruptions.

`Wrappers`, `Text` and `Ordering` hold what they share: optional values, raw string order, and sorting. The modules
named for contents, outcomes, verdict and priority say what each operation stores and answers in terms of its input
and the records alone, without the functions that compute it.

## Where the code does not do what one might expect

- Near-duplicate holding does not keep promoted statements unique for good: once a zone has more than 200
  promotes, a run that resubmits one the window no longer shows promotes it again
  (`ProposalHistory.KeysStayUniqueIff`). A zone can get there exactly when 201 candidates can earn promotion under
  different keys (`ProposalHistory.CanOutgrowIff`).
- Slots are floors only when the diversity cap covers all slots of an output section together. Procedure and
  evidence summaries share one, so a cap that covers each of the two alone is not enough
  (`SlotFloors.FloorsGuaranteedIff`, `SlotFloors.CapPerQueueIsNotEnough`).
- A rebuild interrupted after it stored a file new to the manifest cannot simply be rerun: that file exists and
  no manifest owns it, so the rerun is refused (`OkfHistory.RecoversIff`). Every interruption is safe exactly when
  the manifest owns every planned file beforehand (`OkfHistory.AlwaysRerunnableIff`); in an empty directory it
  never does (`OkfHistory.FirstRebuildCannotBeRerun`, `OkfHistory.BareRebuildCannotBeRerun`).
- The planner rejects its own draft exactly when two chosen candidates share a source and either classify alike,
  or that source is connected to a blocked candidate (`PlanRejections.RejectsItsDraftIff`). One input is rejected
  for each (`PlanRejections.RepeatedCandidateIsRejected`, `PlanRejections.FailedProofIsRejected`), and one shares
  a source and is accepted (`PlanRejections.SharedSourceCanBeAccepted`).
- Enqueue, complete and fail read a job and write it back without a transaction. Records and answers are those of
  whole calls exactly when every write that finds its job changed is an enqueue that finds its own record stored
  (`JobRaces.SplitCallsLookWholeIff`). Any other such write can complete a job twice, free it while another client
  holds it, or make it start over (`RaceExamples.FirstOverrideDecides`, with a run for each in `RaceExamples`). Over
  all runs, `RaceGuarantees.CompletesTwiceIff` and `RaceGuarantees.LeasedEarlyIff` say exactly when a job completes
  more than once and when it can be leased before its lease runs out.
- Three guards never act: the one-hour cap of the job backoff (`JobHistory.BackoffDoubles`), the last allowlist
  guard of the gate (`ProposalChecks.GateDecides`), and the report flag for a corrupt manifest, which is only
  reached when the manifest is not corrupt (`Okf.Projection.RebuildProjection`).
- The secret check stops at the first citation missing from the pack; later quotes are not looked at
  (`ProposalChecks.VerifyCandidate`). That hides no secret in what is promoted, because such a candidate is then
  rejected for its citation (`ProposalChecks.CleanHoldsNoSecret`, `ProposalHistory.PromotesHoldNoSecret`).

## Assumptions

- SHA-256 digests are injective: a proposal id is the tuple it hashes, and a job id is an opaque value. The planner
  takes the digest of a component as a parameter; theorems that read connectivity off component ids ask only that it
  separates the components of the plan at hand (`CollisionFree`).
- A D1 batch and a `BEGIN IMMEDIATE` block are atomic steps, all or nothing. The primary keys and unique
  constraints are those of `0001_initial.sql`; further constraints can only undo a batch.
- Lease ids are fresh, and times are integers that calls bring along in any order.
- Event ids and aliases of a snapshot do not collide across events where `Trace` says so (`IdsAreUnique`).
- In the overlap check of a statement the two ratios are compared exactly.

## Model

| member | source | states |
|---|---|---|
| PlanTheorems.AdmissiblePlanKeepsSupersessionAcyclic | packages/local-store/src/policy-reconciliation.ts:612-649 | if the supersession relations of the candidates are acyclic and the plan is admissible, adding every planned target-to-replacement edge leaves supersession acyclic |
| PlanTheorems.PlanKeepsAcyclicIff | packages/local-store/src/policy-reconciliation.ts:638-648 | over acyclic relations, applying a plan keeps supersession acyclic exactly when the cycle check flags none of its replacements, so the check has no false alarm and no miss |
| PlanTheorems.AdmissibleIffConflictFree | packages/local-store/src/policy-reconciliation.ts:582-657 | a plan is admissible if and only if it is complete and conflict-free: nothing imposed, nothing cut off, no two writes on one target, no eligible entry connected to an unsafe one, known subjects agree, no replacement closes a cycle, no failed conformance |
| PlanTheorems.AdmissibleIffNoCause | packages/local-store/src/policy-reconciliation.ts:582-611 | a plan is admissible exactly when no taint was imposed, it is not truncated and no entry is a cause of taint |
| PlanTheorems.CausalIsComponentsOfCauses | packages/local-store/src/policy-reconciliation.ts:587-658 | the causal components are exactly the components of the entries that are causes |
| PlanTheorems.TaintedIffConnectedToCause | packages/local-store/src/policy-reconciliation.ts:699-702 | in any plan an entry is listed as tainted exactly when its source is connected to the source of a cause |
| PlanTheorems.DraftIsValidIff | packages/local-store/src/policy-reconciliation.ts:446-542 | of all rules of the validator only the two sort rules on entries and taint entries can fail on a drafted plan: no two entries are equal and no source repeats within the causal components |
| PlanRejections.RejectsItsDraftIff | packages/local-store/src/policy-reconciliation.ts:544-706 | told from the chosen candidates alone: the builder rejects its own plan exactly when two of them share a source and either classify alike or have that source connected to a blocked candidate, one that is unsafe beside an eligible one, shares its target, disagrees on subjects, closes a cycle or failed its proof; otherwise it returns the draft |
| PlanRejections.CauseIffBlocked | packages/local-store/src/policy-reconciliation.ts:582-657 | the entries the passes of the builder mark as causes are those of the blocked candidates |
| PlanRejections.TaintedIffNearBlocked | packages/local-store/src/policy-reconciliation.ts:699-702 | an entry is tainted exactly when its source is connected to that of a blocked candidate |
| PlanRejections.RepeatedCandidateIsRejected | packages/local-store/src/policy-reconciliation.ts:227-232 | an input with the same candidate twice is rejected |
| PlanRejections.FailedProofIsRejected | packages/local-store/src/policy-reconciliation.ts:650-656 | an input with one source held back for two reasons, one with a failed proof, is rejected though its entries differ |
| PlanRejections.SharedSourceCanBeAccepted | packages/local-store/src/policy-reconciliation.ts:446-542 | the same input without the failed proof is accepted, so sharing a source alone is no reason to reject |
| PlanTheorems.BuilderAcceptsDistinctSources | packages/local-store/src/policy-reconciliation.ts:544-706 | with distinct source ids and accepted candidates the builder never rejects its own plan: every validator rule holds of it |
| PlanTheorems.PlanForgetsOrder | packages/local-store/src/policy-reconciliation.ts:566-581 | when no source occurs twice under one policy version, the plan is the same for every order of the candidates and of the lineage ids and relations inside each |
| PlanContents.PlanAnswersCandidates | packages/local-store/src/policy-reconciliation.ts:277-344 | a plan answers every candidate it takes with one entry and has no other: it replaces exactly when the candidate asks to replace and its three ids differ, likewise for invalidate and already applied, and leaves every other candidate unchanged for the reason given |
| PlanContents.BuildFailsWith | packages/local-store/src/policy-reconciliation.ts:320-397 | told from the candidates: building fails with the complaint about the first candidate that has one, else on a malformed id in a lineage or relation, else only by rejecting its own draft |
| PlanContents.ChosenAreFirst | packages/local-store/src/policy-reconciliation.ts:560-572 | a plan takes as many candidates as the total and the limit allow, in raw order of source and policy version, and leaves out none that is earlier |
| PlanVerdict.PlanHeader | packages/local-store/src/policy-reconciliation.ts:675-690 | the plan repeats zone, policies, limit, total and high water, and says how many it classified and whether it is cut off |
| PlanVerdict.CountsAreOfCandidates | packages/local-store/src/policy-reconciliation.ts:672-698 | the counts of a plan are those of what its candidates ask for, and its reason table counts its entries |
| PlanVerdict.TaintsAreWarranted | packages/local-store/src/policy-reconciliation.ts:582-671 | for each taint code, a plan lists it exactly when it was imposed, shown by an entry, or stood for by an entry held back in a tainted component |
| PlanVerdict.TaintedAreCauses | packages/local-store/src/policy-reconciliation.ts:586-702 | the tainted components are exactly those of entries that something stands against, spelled out on entries and candidates, and the tainted sources those of all entries in them |
| PlanVerdict.ComponentsAreConnected | packages/local-store/src/policy-reconciliation.ts:346-397 | a component id is the digest of the ordered list of exactly the events that target, replacement, lineage and supersession ties of the candidates connect to the source |
| Text.LessIff | packages/local-store/src/policy-reconciliation.ts:171-173 | raw order is decided by the first code unit that differs, and a prefix comes first |
| PlanBuilder.BuildPlan | packages/local-store/src/policy-reconciliation.ts:544-706 | the imperative builder gives exactly the specified plan or the specified error |
| PlanBuilder.ValidatePlan | packages/local-store/src/policy-reconciliation.ts:446-542 | the validator accepts exactly the plans that meet every rule |
| PlanBuilder.ValidateReasonCounts | packages/local-store/src/policy-reconciliation.ts:483-504 | the reason table check accepts exactly the tables with one row per reason, in order, with the right count |
| PlanBuilder.StrictlySorted | packages/local-store/src/policy-reconciliation.ts:227-232 | the sort check accepts exactly the lists whose neighbours strictly ascend |
| PlanBuilder.TallyReasons | packages/local-store/src/policy-reconciliation.ts:672-674 | the counting loop ends with the number of entries of each reason, and no other reason |
| PlanBuilder.GroupWrites | packages/local-store/src/policy-reconciliation.ts:600-606 | the grouping map holds, for each target, exactly the writes to it in entry order |
| PlanBuilder.ConflictPass | packages/local-store/src/policy-reconciliation.ts:607-611 | the marked components are those of the writes that share their target |
| PlanBuilder.OverlapPass | packages/local-store/src/policy-reconciliation.ts:586-593 | the marked components are those where an unsafe entry meets an eligible one |
| PlanBuilder.EntryPass | packages/local-store/src/policy-reconciliation.ts:628-649 | the marked components are those with a subject mismatch, and those where the replacement already leads to the target |
| PlanBuilder.ConformancePass | packages/local-store/src/policy-reconciliation.ts:650-656 | the marked components are those of entries whose candidate failed its conformance proof |
| PlanBuilder.InfluencePass | packages/local-store/src/policy-reconciliation.ts:658-671 | the added taints are those that the unsafe entries of causal components stand for |
| PlanBuilder.EdgePass | packages/local-store/src/policy-reconciliation.ts:612-615 | the edge list is the relations of the candidates followed by the planned edges |
| PlanBuilder.BuildEntries | packages/local-store/src/policy-reconciliation.ts:573-581 | entries carry the component of their source and are ordered by their sort key |
| Reachability.Reaches | packages/local-store/src/policy-reconciliation.ts:616-627 | the worklist search terminates and answers true exactly when a directed path exists, though vertices are pushed several times |
| Reachability.AddingEdgesKeepsAcyclic | packages/local-store/src/policy-reconciliation.ts:612-649 | adding edges to an acyclic graph keeps it acyclic exactly when no added edge can be closed by a path of the enlarged graph |
| Partition.PartitionComponents | packages/local-store/src/policy-reconciliation.ts:346-397 | partitioning fails exactly on a malformed mentioned id, and otherwise gives each entry the digest of the sorted events connected to it |
| Partition.EntriesShareComponentIffConnected | packages/local-store/src/policy-reconciliation.ts:375-396 | two entries get the same component id exactly when their sources are connected through target, replacement, lineage or supersession links |
| Partition.BuildGraph | packages/local-store/src/policy-reconciliation.ts:350-374 | the adjacency map represents exactly the events mentioned and the links among them |
| Components.SameComponentIffConnected | packages/local-store/src/policy-reconciliation.ts:388-391 | two vertices get the same id exactly when they are connected, provided the digest separates the components at hand |
| Components.Explore | packages/local-store/src/policy-reconciliation.ts:378-387 | the depth-first worklist lists each vertex of a closed set once and terminates although vertices wait several times |
| Components.LabelComponents | packages/local-store/src/policy-reconciliation.ts:375-391 | every vertex is labelled with the digest of the sorted list of its component |
| Components.ClusterIsLeastClosed | packages/local-store/src/policy-reconciliation.ts:378-387 | the set a search must find is the least one that holds the root and that no link leaves |
| ReconciliationModel.ValidatorMeetsClassify | packages/local-store/src/policy-reconciliation.ts:234-275 | every entry the validator accepts is the class of some candidate, so the classifier loses no valid entry; which candidate is said by PlanContents.PlanAnswersCandidates |
| ReconciliationModel.EntryKeysDiffer | packages/local-store/src/policy-reconciliation.ts:215-225 | two valid entries with the same sort key are the same entry |
| ReconciliationModel.ClassifyAllPointwise | packages/local-store/src/policy-reconciliation.ts:573 | classification of a list succeeds exactly when it does of every candidate, and is then pointwise |
| JobHistory.ReachableStoresAreSound | packages/agentic/src/jobs.ts:64-472 | every reachable store satisfies the invariant, over any interleaving of calls with stale scans |
| JobHistory.SecondLeaseWaits | packages/agentic/src/jobs.ts:541-548 | the next lease on a job is granted only at or after the expiry of the one before, or after its holder failed the job |
| JobHistory.AttemptsCountLeases | packages/agentic/src/jobs.ts:148-181 | attempt equals the leases ever granted and stays within max_attempts, dead means all are used, lease fields are set exactly when leased |
| JobHistory.TerminalIsAbsorbing | packages/agentic/src/jobs.ts:528-530 | no call changes anything about a succeeded, blocked or dead job |
| JobHistory.TerminalForever | packages/agentic/src/jobs.ts:528-530 | the same over any run of calls |
| JobHistory.SupersededLeaseChangesNothing | packages/agentic/src/jobs.ts:396-399 | once anything has happened after a lease was granted, complete or fail with that lease id changes nothing |
| JobHistory.CompletesAtMostOnce | packages/agentic/src/jobs.ts:385-413 | at most one complete call per job ever answers true, and then the job has succeeded |
| JobHistory.ApplyKeeps | packages/agentic/src/jobs.ts:135-472 | each operation keeps the invariant of the store |
| JobOutcomes.CallOutcome | packages/agentic/src/jobs.ts:64-472 | field by field what each call makes of every record: a new job with its defaults, a lease, a death, a reclaim, a completion with the output and effect given, a failure that blocks, kills after the last attempt, or retries after the backoff; and that it leaves all other records alone |
| JobOutcomes.AnswersTellRecords | packages/agentic/src/jobs.ts:64-472 | each answer tells the records: the job stored, the jobs leased as they now stand, the numbers swept, and whether the caller held the job |
| JobOutcomes.JobsComeFromEnqueues | packages/agentic/src/jobs.ts:86-115 | over any run the identity of a stored job is what its first enqueue gave it |
| JobOutcomes.SuccessIsItsCompletion | packages/agentic/src/jobs.ts:385-413 | over any run a succeeded job was completed by exactly one call, and its record holds the output, effect and time that call gave |
| JobOutcomes.ScansAreOldestFirst | packages/agentic/src/jobs.ts:209-333 | the bulk lease scans due jobs of its zone by available_at and id, the sweep overdue ones by updated_at and id, up to the limit, leaving out only later ones |
| JobTable.JobStore.constructor | packages/agentic/src/jobs.ts:36-62 | a new table is the empty store |
| JobTable.JobStore.WriteJob | packages/agentic/src/jobs.ts:559-589 | the upsert stores the record with agreeing columns, leaves other rows and the identity columns alone, and refuses an unknown model |
| JobTable.JobStore.EnqueueJob | packages/agentic/src/jobs.ts:64-115 | enqueueing twice returns the stored job and writes once |
| JobTable.JobStore.TryLease | packages/agentic/src/jobs.ts:148-181 | the locked re-check grants exactly the due unspent job and turns a due spent one dead |
| JobTable.JobStore.LeaseJobById | packages/agentic/src/jobs.ts:135-186 | leasing by id is one such step under a fresh lease id |
| JobTable.JobStore.LeaseJobs | packages/agentic/src/jobs.ts:299-382 | the bulk lease is that step at every scanned id in order, and returns the granted jobs in that order |
| JobTable.JobStore.ReclaimExpired | packages/agentic/src/jobs.ts:195-292 | the sweep moves each scanned reclaimable job as specified, with both counters exact |
| JobTable.JobStore.CompleteLeased | packages/agentic/src/jobs.ts:385-413 | completion answers true exactly to the current holder, and then records success |
| JobTable.JobStore.FailLeased | packages/agentic/src/jobs.ts:416-472 | failure answers true exactly to the current holder, and then blocks, kills or retries |
| JobRaces.SplitCallsLookWholeIff | packages/agentic/src/jobs.ts:64-472 | with enqueue, complete and fail as a read and a later write, the records and all answers are at every moment those of whole calls if and only if every write that finds its job changed since the read is an enqueue that finds its own record stored |
| JobRaces.WriteIsWholeIff | packages/agentic/src/jobs.ts:559-589 | one such write leaves the records and gives the answer of the whole call exactly when it overrides nothing; otherwise the whole call would have changed nothing |
| JobRaces.WholeRun | packages/agentic/src/jobs.ts:64-472 | a run whose writes override nothing leaves the records and gives the answers of its calls in the order they took effect, so all results about whole calls carry over |
| RaceGuarantees.CompletesTwiceIff | packages/agentic/src/jobs.ts:385-413 | in any run more than one call is told that it completed a job exactly when some call completes it at, or after, a write over the record of the succeeded job |
| RaceGuarantees.UndisturbedCompletesOnce | packages/agentic/src/jobs.ts:385-413 | while no write overrides a job, whatever happens to others, at most one call is told that it completed it |
| RaceGuarantees.LeasedEarlyIff | packages/agentic/src/jobs.ts:541-548 | in any run a job that its holder has not failed can be leased before its last lease runs out exactly when the last write that overrode it since then left it pending, with attempts left, and available before that time |
| RaceGuarantees.UndisturbedLeaseWaits | packages/agentic/src/jobs.ts:541-548 | between two leases of a job with no failure by its holder and no write that overrides it, the second waits for the expiry of the first |
| RaceExamples.FirstOverrideDecides | packages/agentic/src/jobs.ts:385-472 | the first write of a run that overrides a job, where the whole call would have changed nothing and answered so, is a second completion exactly when it completes a succeeded job, takes the job from its holder exactly when it finds it leased, and then lets another in before that lease runs out exactly when the record it writes is pending, unspent and available by then |
| RaceExamples.LateEnqueueLooksWhole | packages/agentic/src/jobs.ts:86-115 | a run in which an overtaken enqueue finds its own record stored and nobody can tell |
| RaceExamples.OvertakenCompletesTwice | packages/agentic/src/jobs.ts:385-413 | a run from the empty table in which two calls complete one job |
| RaceExamples.OvertakenLeasesEarly | packages/agentic/src/jobs.ts:416-472 | a run in which a late failure frees a job that another client holds, and a third lease is granted before the second has run out |
| RaceExamples.OvertakenForgetsALease | packages/agentic/src/jobs.ts:86-115 | a run in which a late enqueue makes a leased job pending again with no attempts while its lease runs |
| JobScans.ScansSeeTheRecords | packages/agentic/src/jobs.ts:209-240 | a scan over the columns is the same as a scan over the records |
| JobScans.BulkLeaseTakesFirstDue | packages/agentic/src/jobs.ts:316-377 | without interference a bulk lease returns the first due jobs by (available_at, job_id) minus the spent ones, which become dead |
| JobScans.FirstIdsFacts | packages/agentic/src/jobs.ts:316-333 | a limited scan holds distinct selected ids, as many as the limit allows |
| JobScans.OmittedComesLater | packages/agentic/src/jobs.ts:316-333 | what a limited scan leaves out comes after all it holds, and only when it is full |
| JobScans.SweepCounts | packages/agentic/src/jobs.ts:243-286 | a sweep changes at most limit jobs and its counters are the rows moved to pending and to dead |
| JobScans.SweepOnlyTouchesScanned | packages/agentic/src/jobs.ts:248-286 | a job that was not scanned is not changed |
| JobScans.SweepClears | packages/agentic/src/jobs.ts:195-292 | when the limit covers all matching rows nothing reclaimable remains, other zones are untouched and a second sweep at the same time does nothing |
| SyncProtocol.SequencesAreGapless | apps/carpeos-sync-worker/src/index.ts:482-627 | under every interleaving, each zone stores exactly one record per number from 1 to its counter, events and erasures together |
| SyncProtocol.OneRecordPerKey | apps/carpeos-sync-worker/src/index.ts:482-627 | a (zone, key) has a row exactly when it has a record, then exactly one, and no visible row is pending |
| SyncProtocol.AnswersNameTheRecord | apps/carpeos-sync-worker/src/index.ts:140-208 | every accepted or replayed answer names the ids of the one record of its key and the sequence stored on it |
| SyncProtocol.AnswersAgree | apps/carpeos-sync-worker/src/index.ts:808-836 | two successful answers for one key name the same ids and sequence |
| SyncProtocol.AcceptedOnce | apps/carpeos-sync-worker/src/index.ts:199-208 | at most one request per key is told accepted; the other successes are told replay |
| SyncProtocol.CommitterIsTold | apps/carpeos-sync-worker/src/index.ts:174-208 | a request whose batch committed is told so once it is answered, even if the batch reported an error: its answer is a success naming the record it pushed and the sequence stored on it |
| SyncProtocol.RetryReplays | apps/carpeos-sync-worker/src/index.ts:178-197 | after a commit, even one that reported an error, a later retry with the same fingerprint is answered with the stored result and writes nothing, and one with another fingerprint conflicts |
| SyncContents.ValidIffWellFormed | apps/carpeos-sync-worker/src/index.ts:898-930 | a push is valid exactly when it carries one event or one erasure, of its own zone, and otherwise fails with the error for what is wrong |
| SyncContents.LonePush | apps/carpeos-sync-worker/src/index.ts:118-209 | what a push that meets no other stores and answers, case by case, with the record, number, counter and row spelled out |
| SyncContents.RecordsHoldPayloads | apps/carpeos-sync-worker/src/index.ts:482-627 | under every interleaving each stored record is the payload of the request that committed its key: its table, id, zone, body and recorded time |
| SyncProtocol.ViolationMeansDuplicate | apps/carpeos-sync-worker/migrations/0001_initial.sql:25-61 | only a used key or record id can stop a batch: the shared counter never collides with a stored sequence |
| SyncProtocol.ReachableWorldsAreRight | apps/carpeos-sync-worker/src/index.ts:118-209 | the invariant of tables and clients holds after every run of check, batch and re-read steps |
| SyncProtocol.ApplyKeeps | apps/carpeos-sync-worker/src/index.ts:118-209 | each step of each request keeps that invariant and only extends the tables |
| SyncProtocol.CommitKeepsTables | apps/carpeos-sync-worker/src/index.ts:482-627 | a committed batch keeps the table invariant |
| SyncProtocol.LaterRunsExtend | apps/carpeos-sync-worker/src/index.ts:118-209 | committed records, rows and numbers are never changed by later steps |
| Sync.SyncTables.constructor | apps/carpeos-sync-worker/migrations/0001_initial.sql:1-61 | a new database is empty |
| Sync.SyncTables.AcceptRecord | apps/carpeos-sync-worker/src/index.ts:482-627 | the statements of the batch, in order, commit as one step or leave the tables as they were, exactly when no constraint is violated |
| Sync.SyncTables.HandlePush | apps/carpeos-sync-worker/src/index.ts:118-209 | a push that meets no other leaves the specified tables and answer |
| SyncPull.SessionReturnsEverythingOnce | apps/carpeos-sync-worker/src/index.ts:228-276 | pulling until has_more is false over growing tables returns every matching record of the final log once, in sequence order |
| SyncPull.PullSeesTheLogOnce | apps/carpeos-sync-worker/src/index.ts:211-277 | the same with any pushes of the protocol between the pages |
| SyncContents.SessionSplitsTheLog | apps/carpeos-sync-worker/src/index.ts:228-276 | a client that pulls pages to the end, with any pushes in between, is handed as events exactly the matching events, once each and in order, and as erasures exactly the matching erasures |
| SyncContents.PageIsSplit | apps/carpeos-sync-worker/src/index.ts:253-274 | a page row is among the events exactly when it is an event and among the erasures exactly when it is one, both in sequence order, with cursor and has_more |
| SyncPull.PageHoldsAllUpToCursor | apps/carpeos-sync-worker/src/index.ts:231-253 | a full page holds everything up to its cursor that matches, even as seen in a later state |
| SyncPull.OneExtraRowSuffices | apps/carpeos-sync-worker/src/index.ts:250-271 | reading one row beyond the limit decides the page, its cursor and has_more |
| SyncPull.BuildPage | apps/carpeos-sync-worker/src/index.ts:253-274 | the loop splits the page rows by table and reports cursor and has_more |
| SyncPull.PageLosesNothing | apps/carpeos-sync-worker/src/index.ts:257-263 | events and erasures of a page are exactly its rows |
| SyncPull.SelectedFacts | apps/carpeos-sync-worker/src/index.ts:231-248 | the query has one answer, strictly ascending by sequence |
| SlotTheorems.NothingLostOrInvented | apps/carpeos-mcp-server/src/expert-slots.ts:80-218 | used plus omitted is the input in items and characters, used figures are the sums over the output, both within budget |
| SlotTheorems.PackIsMaximal | apps/carpeos-mcp-server/src/expert-slots.ts:111-132 | no omitted item could be added to the final pack without breaking the item, character or per-key limit |
| SlotTheorems.InputOrderIsKept | apps/carpeos-mcp-server/src/expert-slots.ts:134-209 | each queue splits into admitted and omitted items, both in input order, and each output section is what was admitted for it in order |
| SlotTheorems.DiversityIsCapped | apps/carpeos-mcp-server/src/expert-slots.ts:117-127 | no output section holds more than the cap of any key |
| SlotTheorems.AllocateKeeps | apps/carpeos-mcp-server/src/expert-slots.ts:71-219 | the allocation invariant holds at the end, every queue is empty, and what pass 1 admitted stays |
| SlotPriority.LeftoversWaitTheirTurn | apps/carpeos-mcp-server/src/expert-slots.ts:181-209 | with the order written out: a leftover is only left out when pass 1 and leftovers of sections up to its own have crowded it out, so none of lower priority displaces it, and leftovers are admitted in order |
| SlotPriority.SlotsAreSpentInOrder | apps/carpeos-mcp-server/src/expert-slots.ts:134-178 | the same of pass 1 in its own order, procedures just before evidence |
| SlotPriority.SlotsAreSpent | apps/carpeos-mcp-server/src/expert-slots.ts:134-178 | pass 1 admits from each queue as many items as it has slots, or decides the whole queue |
| SlotPriority.OutputSectionsAre | apps/carpeos-mcp-server/src/expert-slots.ts:116-130 | each output section holds the admitted items of its own queue in order, and the evidence also the admitted procedures |
| SlotFloors.FloorsGuaranteedIff | apps/carpeos-mcp-server/src/expert-slots.ts:134-178 | every input with room for the items its slots are for, and for their text, gets min(slots, available) in every section if and only if the cap covers all slots that land in each output section |
| SlotFloors.SlotsAreServedFirst | apps/carpeos-mcp-server/src/expert-slots.ts:134-178 | then the admitted items of each queue begin with its first slots items |
| SlotFloors.CapPerQueueIsNotEnough | apps/carpeos-mcp-server/src/expert-slots.ts:116-119 | a cap that covers every queue alone does not guarantee the floors, because procedures and evidence share an output section |
| SlotFloors.DefaultsGuaranteeFloors | apps/carpeos-mcp-server/src/expert-slots.ts:7-18 | the default slots and the default cap guarantee every floor |
| SlotFloors.CharactersAreConserved | apps/carpeos-mcp-server/src/expert-slots.ts:111-132 | at every point decided and queued characters make up the input |
| SlotFloors.TakeSlotsAdmits | apps/carpeos-mcp-server/src/expert-slots.ts:165-177 | with room for the items its slots are for, pass 1 takes the first items of a queue and omits none |
| Slots.Allocator.constructor | apps/carpeos-mcp-server/src/expert-slots.ts:83-109 | the allocator starts with the queues and nothing decided |
| Slots.Allocator.TryAdmitItem | apps/carpeos-mcp-server/src/expert-slots.ts:111-132 | the closure admits exactly when no limit is broken and otherwise counts the omission |
| Slots.Allocator.TakeSlotsOf | apps/carpeos-mcp-server/src/expert-slots.ts:165-177 | the slot loop of one queue |
| Slots.Allocator.FillFrom | apps/carpeos-mcp-server/src/expert-slots.ts:192-209 | the leftover loop of one queue, with its drain at the item limit |
| Slots.Allocator.Run | apps/carpeos-mcp-server/src/expert-slots.ts:134-209 | both passes together take the specified allocation |
| Trace.TraceRecords | apps/carpeos-mcp-server/src/tools.ts:863-891 | when ids do not collide the records are exactly the events within max_depth hops of the root, in id order |
| TraceContents.TraceIs | apps/carpeos-mcp-server/src/tools.ts:863-960 | told from the events: a record is in the trace exactly when at most max_depth citations lead to it, provenance, support, claims and superseded events, each id followed to the event it denotes |
| Trace.WalkIds | apps/carpeos-mcp-server/src/tools.ts:870-885 | the breadth-first walk terminates on cyclic graphs with aliases and finds exactly the events within the limit |
| Trace.StepIsGood | apps/carpeos-mcp-server/src/tools.ts:873-885 | passing over or expanding an id keeps the walk sound and complete |
| Trace.DescendIsGood | apps/carpeos-mcp-server/src/tools.ts:873-885 | so does going on to the next depth |
| Trace.NothingMissed | apps/carpeos-mcp-server/src/tools.ts:873-885 | with an empty queue every event within the limit has been found |
| Trace.AdvanceIsQueued | apps/carpeos-mcp-server/src/tools.ts:871-884 | the queue stays sorted by depth and spans at most two depths |
| Trace.LookupFinds | apps/carpeos-mcp-server/src/tools.ts:916-927 | when ids do not collide the lookup finds every event under its own id and nothing but events |
| Trace.EventLookup | apps/carpeos-mcp-server/src/tools.ts:916-927 | the loop builds the lookup in which later entries win |
| Trace.RelatedFacts | apps/carpeos-mcp-server/src/tools.ts:929-944 | related ids are listed once each, in order |
| ProposalHistory.KeysStayUniqueIff | packages/agentic/src/pipeline.ts:349-361 | from a sound table with unique keys every next run keeps them unique if and only if the zone has at most 200 promotes |
| ProposalHistory.WindowIsOutgrown | packages/agentic/src/pipeline.ts:349-361 | under any rules, a run of each of any more than 200 candidates that earn promotion under different keys leaves a sound table with unique keys from which some next run promotes a statement twice |
| ProposalHistory.CanOutgrowIff | packages/agentic/src/pipeline.ts:349-361 | under given rules a zone can get there if and only if 201 such candidates exist |
| ProposalHistory.PlainWindowIsOutgrown | packages/agentic/src/pipeline.ts:349-361 | under rules where text is its own key they do |
| ProposalHistory.KeysStayUnique | packages/agentic/src/pipeline.ts:217-310 | over any operations whose runs start with at most 200 promotes in the zone, its promotes keep pairwise different keys |
| ProposalHistory.RunPromotesNewStatements | packages/agentic/src/pipeline.ts:260-279 | every promote a run writes has a key of at least eight characters, different from the other promotes of the run and from the 200 most recent of the zone |
| ProposalContents.RunWrites | packages/agentic/src/pipeline.ts:219-310 | a run makes one row for each kept candidate, numbered in order, promoted exactly when it passes every check and its statement is neither promoted before in the run nor recent; known ids are not written again and the stored rows are handed back |
| ProposalHistory.StoredProposalsNeverChange | packages/agentic/src/proposals.ts:108-111 | over any operations a stored proposal keeps its verdict, and once materialized never changes |
| ProposalContents.FirstMarkingStays | packages/agentic/src/proposals.ts:231-258 | over any operations a row names the event and the claim of the first marking that found it, or none |
| ProposalContents.MarkingRecords | packages/agentic/src/proposals.ts:231-258 | a marking fills in event and claim of the one row of its id, if it has none, and changes no other row |
| ProposalHistory.ReachableTablesAreSound | packages/agentic/src/pipeline.ts:217-310 | ids are unique, and every promoted row holds a candidate that passed filter, citation, grounding, secret and gate in some view |
| ProposalHistory.PromotesHoldNoSecret | packages/agentic/src/pipeline.ts:217-310 | no promoted row of a reachable table holds secret-like text, in its statement or in any quote |
| ProposalHistory.RepeatedRunWritesNothing | packages/agentic/src/proposals.ts:60-79 | running the same input again, after anything else, writes no row |
| ProposalHistory.RecentAreNewest | packages/agentic/src/proposals.ts:204-207 | the window is full whenever it leaves a promote out, and shows none older than that one |
| ProposalHistory.ForgottenPromote | packages/agentic/src/pipeline.ts:349-361 | beyond 200 promotes some key is no longer seen |
| Proposals.ProposalStore.constructor | packages/agentic/src/proposals.ts:42-58 | a new table is empty |
| Proposals.ProposalStore.PutProposal | packages/agentic/src/proposals.ts:81-151 | the first writer of an id wins and later writers get the stored row |
| Proposals.ProposalStore.MarkMaterialized | packages/agentic/src/proposals.ts:231-258 | marking fills in an empty materialization once and answers whether it is now this event |
| Proposals.ProposalStore.RecentPromoteKeys | packages/agentic/src/pipeline.ts:349-361 | the loaded keys are the non-empty keys of the 200 most recent promotes |
| Proposals.ProposalStore.ConsiderCandidate | packages/agentic/src/pipeline.ts:219-310 | one turn of the candidate loop |
| Proposals.ProposalStore.RunPipeline | packages/agentic/src/pipeline.ts:210-310 | the candidate loop leaves the specified rows and returns the stored proposals |
| ProposalChecks.VerifyCandidate | packages/agentic/src/verify.ts:19-58 | citations hold exactly when there are some, all are in the pack and the statement is grounded; secrets are looked for up to the first missing citation |
| ProposalChecks.CleanHoldsNoSecret | packages/agentic/src/verify.ts:37-58 | though the secret check stops at the first missing citation, a candidate that passes it together with the citation check holds no secret-like text anywhere |
| ProposalChecks.StatementGrounded | packages/agentic/src/verify.ts:60-106 | the grounding checks in their order, with the overlap count |
| ProposalChecks.GroundedMeans | packages/agentic/src/verify.ts:60-106 | a grounded statement has at least eight characters, is at most three times its longest quote, and shares text or a token with a quote |
| ProposalContents.GroundedIff | packages/agentic/src/verify.ts:60-106 | a statement is grounded if and only if it has eight characters, is at most three times some quote, and contains, is contained in, or shares 0.35 of all or 0.6 of its own tokens with quotes |
| ProposalChecks.OffsetsDecideNothing | packages/agentic/src/verify.ts:108-117 | a citation is in the pack exactly when its trimmed quote occurs there, whatever its offsets |
| ProposalChecks.GateDecides | packages/agentic/src/gate.ts:24-121 | exactly what is promoted and what rejected; no kind reaches the last allowlist guard |
| ProposalContents.GateSays | packages/agentic/src/gate.ts:24-121 | each reason code appears exactly when its condition is the first that applies |
| OkfHistory.ForeignFilesSurvive | packages/okf-projection/src/rebuild.ts:75-131 | a file that exists and that the manifest does not list stays unchanged and unlisted over any rebuilds, finished or interrupted, and any edits of other files and of the manifest, unless such an edit lists it |
| OkfHistory.ForeignFilesStay | packages/okf-projection/src/rebuild.ts:149-180 | however far one rebuild gets, files its last manifest does not own stay |
| OkfContents.RebuildLeaves | packages/okf-projection/src/rebuild.ts:49-122 | from the input alone: every concept, the index and the log hold their own text; every other path the last manifest names is gone or a tombstone; every remaining path is as before |
| OkfContents.ManifestLists | packages/okf-projection/src/manifest.ts:27-49 | the new manifest lists exactly the files put there, each with the digest of its text, in path order |
| OkfContents.ReportLists | packages/okf-projection/src/rebuild.ts:110-130 | the written and deleted lists of the report are exactly those paths, in order |
| OkfContents.RefusedWith | packages/okf-projection/src/rebuild.ts:75-180 | which rebuilds are refused and with which error, from the input, the disk and the last manifest |
| OkfContents.PathIsSafeIff | packages/okf-projection/src/paths.ts:6-25 | a path is accepted exactly when it is segments joined by slashes, none of them special, and ends in .md |
| OkfHistory.AcceptedIff | packages/okf-projection/src/rebuild.ts:149-180 | a rebuild is accepted exactly when its input is good, it overwrites only its own files and the manifest is not corrupt |
| OkfHistory.ManifestIsTrue | packages/okf-projection/src/manifest.ts:27-49 | after success the manifest reads back as valid and sorted, owns exactly the planned and tombstoned files, and each entry is true of the disk |
| OkfHistory.RebuiltAt | packages/okf-projection/src/rebuild.ts:110-122 | path by path, what a rebuild leaves: written, deleted, or as it was |
| OkfHistory.RepeatChangesNothing | packages/okf-projection/src/rebuild.ts:75-131 | repeating an accepted rebuild is accepted and changes nothing |
| OkfHistory.RecoversIff | packages/okf-projection/src/rebuild.ts:110-122 | an interrupted rebuild can be rerun exactly when it stored no file new to the manifest, and then ends as it would have; otherwise the rerun is refused |
| OkfHistory.AlwaysRerunnableIff | packages/okf-projection/src/rebuild.ts:110-122 | told before the rebuild starts: every interruption of an accepted rebuild can be rerun if and only if the manifest already owns every planned file |
| OkfHistory.FirstRebuildCannotBeRerun | packages/okf-projection/src/rebuild.ts:161-167 | a rebuild of an empty directory that stops anywhere after its first write and before its manifest is refused when rerun |
| OkfHistory.BareRebuildCannotBeRerun | packages/okf-projection/src/rebuild.ts:161-167 | the smallest plan, stopped after one write into an empty directory, is refused as not owned |
| OkfHistory.RebuildsStayExact | packages/okf-projection/src/rebuild.ts:75-131 | in a directory only rebuilds wrote, under changing policies, the manifest lists exactly the files there and a rebuild is refused only for its own input |
| OkfHistory.WrittenPathsDiffer | packages/okf-projection/src/rebuild.ts:94-96 | tombstones never collide with the plan, so the second collision check never fails |
| OkfHistory.MissingFacts | packages/okf-projection/src/rebuild.ts:182-191 | the missing files are those the last manifest owns and the plan does not hold |
| OkfHistory.NormalizingKeepsThePath | packages/okf-projection/src/paths.ts:6-25 | normalising refuses a path or gives it back unchanged |
| OkfHistory.TouchedIsSafe | packages/okf-projection/src/paths.ts:4-25 | every path a rebuild writes to or deletes is a safe managed path, and never that of the manifest |
| Okf.Projection.constructor | packages/okf-projection/src/rebuild.ts:75-81 | a new bundle directory is empty |
| Okf.Projection.UniquePaths | packages/okf-projection/src/rebuild.ts:233-239 | the loop accepts exactly the lists without a repeated path |
| Okf.Projection.Preflight | packages/okf-projection/src/rebuild.ts:161-167 | every existing target must be owned by the previous manifest |
| Okf.Projection.DeleteFiles | packages/okf-projection/src/rebuild.ts:193-202 | the deletion loop removes exactly the given paths |
| Okf.Projection.WriteFiles | packages/okf-projection/src/rebuild.ts:116-122 | the write loop stores every file in order |
| Okf.Projection.RebuildProjection | packages/okf-projection/src/rebuild.ts:75-131 | the rebuild leaves the specified disk, a refused one changes nothing, and the reported lists are exact; the flag for a corrupt manifest is never set |

## Left out

- PlanBuilder.BuildPlan: the plan has no `plan_digest`, so its preimage and stable JSON printing are not modelled.
- PlanBuilder.ValidatePlan: the digest check has no counterpart, and the checks of JSON shape (exact keys, types) hold by typing.
- JobTable.JobStore.LeaseJobs: takes the ids its scan returned; the refusal of a limit below one comes before that scan and is not modelled.
- JobTable.JobStore.EnqueueJob: one atomic step here, while the original reads and then writes; `JobRaces` models the two halves.
- JobTable.JobStore.CompleteLeased: one atomic step here, while the original reads and then writes; `JobRaces` models the two halves.
- JobTable.JobStore.FailLeased: one atomic step here, while the original reads and then writes; `JobRaces` models the two halves.
- Sync.SyncTables.AcceptRecord: the statements that link protected values are not in the batch; their constraints could only undo it.
- Sync.SyncTables.HandlePush: the receipts of protected values are not checked, so a push that carries one may fail earlier than the model says.
- Proposals.ProposalStore.RunPipeline: starts from the candidates, after the triage, pack and extract stages, and leaves out structure edges and verify reason codes.
- Okf.Projection.RebuildProjection: symbolic links and real paths are not checked; a path names a file or nothing, and a write is atomic.
- Unknown taint strings: taint and reason codes are enumerations, so the check that refuses unknown ones has no counterpart.
- Protected values: uploads, objects and their links.
- HTTP routing, authorisation, schema conformance and JSON parsing: push and pull start after them.
- Job list and count queries, the wording and sanitising of `last_error`, legacy policy stamps: they change no state, or only text.
- SQL errors inside a job transaction: a rolled-back call is a call that did nothing.
- Item values: a context item is its diversity key, an opaque value and the length of its JSON text, so canonical JSON itself is not modelled; verification gaps and redactions are copied unchanged by the original and do not appear.
- `applyBudget`, `relatedRecords` and the record view of a trace: easy members after the walk.
- Statement normalisation, trimming, tokens, the secret pattern and the quality filter are parameters of `ProposalChecks`; both normalisers of the original are one function.
- Columns of the proposal table: they repeat fields of the record that are never changed apart from it, so a row is its record.
- Concurrent pipeline runs: runs and materializations follow one another.
- Directories and temporary files of the bundle: a planned path below an existing file is not modelled as an error.
- Concept mapping, Markdown rendering and conformance of OKF files: a plan's texts are inputs, and a tombstone's text is a constant.
- Manifest fields other than zones, policy and files are constant in the original.
- Identifiers and times outside the planner and the bundle paths are integers: only their equality and order matter there.
