# NormGraph in Dafny

NormGraph keeps a graph of norms in step with a store of regulatory documents. Lifecycle events
of a document are folded into one queued job; jobs ingest documents and extract their norms;
every norm gets a check plan whose revisions experts and planners write concurrently; a catch-up
pass repairs what the events missed. This project models these parts and proves what they
promise: about every run, every interleaving and every reachable state rather than about single
calls.

Each file holds one module.

| part | modules |
|---|---|
| sync queue: folding jobs, what a batch means, the queue as a transition system and as a class, which events a job stands for | `SyncJobs`, `Coalescing`, `DroppedDocuments`, `Overtaking`, `SyncQueues`, `QueueBatches`, `QueueRuntime`, `MergedJobs` |
| incremental re-extraction: one document's graph, the writes of a run, the cache, what any request leaves and where, interruptions, carry-over to a new edition | `DocGraphs`, `Extraction`, `Reuse`, `Requests`, `Spans`, `Recovery`, `Carry`, `Editions`, `Histories` |
| check plan revisions | `Revisions` |
| NormSpec compiler: branches and refusals, the meaning of plans, strictness, when one plan implies another, scopes and ranges, what a plan says of its reading, when there is none, concrete clauses | `NormSpecs`, `Strictest`, `Exactness`, `Entailment`, `NormCompile`, `Readings`, `Refusals`, `Unconditional`, `Clauses` |
| catch-up pass | `Reconcile`, `ReconcileRuntime`, `Repair`, `Unfinished` |
| kernels | `Fingerprints`, `Voting`, `Traversal`, `Numerals`, `Grounding`, `Duplicates`, `Entities`, `Paging` |

Code that updates state in place is a class whose methods are proved against a specification
function or relation (`QueueRuntime.SyncQueue`, `Extraction.GraphWriter`, `Carry.DocumentStore`,
`Revisions.PlanStore`, `ReconcileRuntime.ReconcileService`, `Entities.EntityResolver`,
`Paging.Backfill`, `Coalescing.NameGraph`, `SyncJobs.SyncJob`); what the program promises is proved about that
specification.

## Findings

Where the code does not meet a property everywhere, the exact condition is proved, and an input
that fails it is given.

- A failed job that is overtaken by newer events is merged, when its retry fires, as if it were
  the later event: a failed removal cancels the sync of an upload that came after it
  (`src/sync/queue.py:249-258`; `Overtaking.OvertakenRetryMerged`,
  `Overtaking.OvertakenRetryAfterwards`; input `Overtaking.OvertakenRetryLosesUpload`).
- A newer event put while a job of its document runs replaces the record of that job. If the
  process stops then, the job is lost: a removal with an upload behind it leaves the old
  documents (`src/sync/queue.py:149-158`; `Overtaking.SurvivorReachesExactly`,
  `QueueBatches.CrashOvertakes`; input `QueueBatches.CrashLosesRemoval`).
- A newer job of the same document deletes, on success, the record of an older job whose retry
  is still scheduled; a restart then loses that job (`src/sync/queue.py:208-225`;
  `SyncQueues.RetryRecordKept`; input `SyncQueues.RetryLostByRestart`).
- An update that loses a document deletes nothing. If the document comes back, what is left of
  its old clauses depends on how the events were batched (`src/sync/service.py:204-232`;
  `DroppedDocuments.RunsMirrorExactly`, `DroppedDocuments.RunsAgreeExactly`; input
  `DroppedDocuments.BatchingShows`).
- A document shares its job key with another one, of colon-free owners, exactly when one of its
  own owner ids holds a colon (`src/sync/queue.py:60-77`; `SyncJobs.KeySharedExactly`; input
  `SyncJobs.NameKeyAmbiguous`).
- A reusing extraction overwrites a restriction that moved away from a clause when that clause
  id is used again; over truthful marks it otherwise agrees with extraction from scratch
  (`src/pipeline/service.py:189-210`; `Reuse.IncrementalEqualsFromScratch`,
  `Editions.NextEditionExactly`; input `Histories.ReturningIdCollides`).
- A new edition hands restrictions to a clause without emptying it first, trusts a mark that
  happens to fit a changed text again, and leaves what hangs on text that became a figure. A run
  that reuses any clause then completes the document wrongly; under fresh ids it is exact if and
  only if none of the three occurs (`src/graph/writer.py:601-640`, `src/graph/writer.py:51-52`,
  `src/pipeline/service.py:184-210`; `Carry.IngestKeepsCache`, `Repair.ReusingRunExactly`,
  `Editions.NextEditionExactly`). Since marks are set after the last restriction
  (`src/pipeline/service.py:311-317`), a run that stops in between leads there
  (inputs `Histories.InterruptedThenCarried`, `Histories.InterruptedThenReverted`); edited
  clauses lead there without any interruption (inputs `Histories.EditedTakerKeepsOwn`,
  `Histories.FigureKeepsOld`).
- A full replace interrupted after its deletion leaves marked clauses without restrictions, and
  the next reusing run declares the document complete (`src/pipeline/service.py:275-276`;
  `Recovery.FullReplaceInterrupted`; input `Recovery.WipedIsAPrefix`).
- A clause marked unconditional ignores the variants stated with it
  (`src/pipeline/norm_spec.py:365-374`; `Unconditional.UnconditionalCovers`; input
  `Clauses.VariantIgnored`).
- A provision clause is not compiled conservatively when only some readings state an
  accessibility, or some in minutes and some in metres: the tightest is chosen at 80 m a minute
  (`src/pipeline/norm_spec.py:1051-1059`; `Entailment.ProvisionConservativeExactly`; inputs
  `Clauses.SometimesStated`, `Clauses.SlowWalkers`).
- A strict minimum distance or accessibility compiles to the plan of the unstrict one: an object
  just at the bound passes (`src/pipeline/norm_spec.py:650-679`; `Readings.PlanSaysTheReading`;
  input `Clauses.StrictBoundIsReached`).
- Re-extraction supersedes an expert's rejection, because only `reviewed` plans are protected
  (`src/pipeline/service.py:453-462`; `Revisions.ReextractionSupersedes`; input
  `Revisions.RejectionOverwritten`).
- A review writes what was decided on the plan it read, whatever is current by then: an approval
  that comes late supersedes a revision nobody looked at. It is the decision on the current plan
  if and only if nothing was appended since the read (`src/query/service.py:205-233`;
  `Revisions.ReviewIsOfCurrentExactly`; input `Revisions.LateApproval`).
- A catch-up pass never settles a document the source lists but does not return, nor one that is
  flagged incomplete with no failed clauses on record and has no text now
  (`src/sync/service.py:305-438`; `Reconcile.TwoPassesSuffice`; input
  `Unfinished.InterruptedThenEmptied`). A retry of the failed clauses passes over clauses that
  are new under an unchanged content hash (`src/sync/service.py:412-438`;
  `Repair.ReconcileRepairs`; input `Unfinished.RetryPassesOverNew`).
- Votes are grouped by a fingerprint that names neither the attribute nor the scope of a plan
  (`src/pipeline/norm_spec.py:303-314`; `Fingerprints.FingerprintIdentifiesExactly`; inputs
  `Clauses.SameFingerprintOtherArea`, `Clauses.SameFingerprintFewerHouses`).
- The comment on linked lead-ins asks for at least two tokens of the clause after the lead-in;
  the code counts tokens anywhere in the quote (`src/pipeline/extractor.py:303-311`;
  `Grounding.TwoOwnTokensExactly`; input `Grounding.OneOwnTokenIsEnough`).
- Matching quotes are not transitive, so duplicate groups can miss a matching pair
  (`src/pipeline/duplicates.py:50-59`; `Duplicates.ExactlyWhenTransitive`; input
  `Duplicates.NotAlwaysExact`).

## Assumptions

- Store calls complete in the order they are issued, and each Cypher statement is one atomic
  update. The extractor is a deterministic function of the whitespace-normalised text; different
  normalised texts have different hashes.
- Coalescing: the graph mirrors the source when the history starts, one scope at a time, a
  document id keeps its version, a version deletion removes every document of the version,
  "processed" only adds documents. "Updated" may change and drop documents at will. The replacing
  ingest of a document shows the source as of some moment of the attempt that reads it.
- Carry-over: editions of a document are ingested with replacement and extracted reusing what is
  there. Fragments may change their text and kind and runs may stop anywhere; the retry of failed
  clauses alone is modelled for editions that keep the content of kept fragments.
- Plans are executed elsewhere; their meaning here is over an abstract territory of distances, attribute
  values, zone shares, demand and supply, in which a distance or way equal to the bound meets it.
- Compiler: the entity `Жилой дом` that stands for residents in general counts as a residence.
- Reconcile convergence: the listing and the documents the source returns agree and stay
  unchanged, listed ids are distinct, and extraction does not fail.

## Model

| member | source | states |
|---|---|---|
| SyncJobs.NameKeyInjective | src/sync/queue.py:60-77 | among owner ids without colons different documents or scopes get different job keys; a missing and an empty owner are one scope |
| SyncJobs.KeySharedExactly | src/sync/queue.py:60-77 | a document shares its key with another document or scope of colon-free owners if and only if one of its own owner ids holds a colon |
| SyncJobs.NameKeyAmbiguous | src/sync/queue.py:60-77 | two different scopes whose documents share one key |
| SyncJobs.FoldKeepsWellFormed | src/sync/queue.py:95-110 | merging keeps: a whole removal names no versions, a replacing job syncs, the job stays its document's with its count of failures |
| SyncJobs.FoldAssociative | src/sync/queue.py:95-110 | a job that absorbed two events equals the first having absorbed the merged pair |
| SyncJobs.FoldNotAssociativeInGeneral | src/sync/queue.py:95-110 | without the invariant of the middle job merging is not associative |
| SyncJobs.SyncJob.Merge | src/sync/queue.py:95-110 | the in-place merge leaves the folded job, which `MergedJobs.RunExplained` describes by the events it stands for |
| Coalescing.BatchJobMeaning | src/sync/queue.py:95-110 | which deletions, sync and replacement are in the merged job of a stretch of events, event by event |
| Coalescing.EagerMirrorsSource | src/sync/queue.py:227-247 | running each event's job right after it leaves every recoverable document as the source has it |
| Coalescing.RunSettles | src/sync/queue.py:227-247 | a complete execution settles every document for its batch although each is read at its own, later moment |
| Coalescing.FailureSettles | src/sync/queue.py:208-218 | a failed, partly executed attempt leaves every document settled for the batch it will be retried with |
| Coalescing.RunMirrorsSource | src/sync/queue.py:196-247 | every run over a history, batches cut anywhere, with late reads and failed partial attempts, ends with the document exactly as in the source, also after updates that lost it, as long as it is recoverable |
| Coalescing.CoalescingPreservesMeaning | src/sync/queue.py:95-110 | when every document is recoverable, the batched run, the eager run and the source end with the same documents and clauses |
| DroppedDocuments.RunsMirrorExactly | src/sync/queue.py:196-247 | every run ends with the document as the source has it if and only if no update loses it for good, unless its final edition restates every clause id since its last deletion |
| DroppedDocuments.RunsAgreeExactly | src/sync/queue.py:95-110 | every run ends with what eager execution leaves of the document if and only if that holds, or the document was there from the start, is never deleted and has one edition only |
| DroppedDocuments.BatchingShows | src/sync/service.py:204-232 | a history in which a document is lost and comes back: eager execution keeps its old clause, the merged job prunes it |
| Coalescing.ExecuteIsAnAttempt | src/sync/queue.py:227-247 | executing a merged job against a still source is one of the attempts of such runs |
| Overtaking.BatchesConcatenate | src/sync/queue.py:95-110 | folding two neighbouring batches together is folding the whole stretch |
| Overtaking.RemovalLeavesNothing | src/sync/service.py:234-285 | a merged job that removes everything and syncs nothing belongs to a source without documents |
| Overtaking.OvertakenRetryMerged | src/sync/queue.py:249-258 | whatever its attempts did, an overtaken failed job folded in late still leads to the source if and only if it does not cancel the later sync |
| Overtaking.OvertakenRetryLosesUpload | src/sync/queue.py:249-258 | a concrete history in which the late fold loses an upload |
| Overtaking.OvertakenRetryAfterwards | src/sync/queue.py:249-258 | when the newer job has already run, the late retry keeps the graph right if and only if it syncs or does not delete what the source holds now |
| Overtaking.SurvivorReachesExactly | src/sync/queue.py:149-158 | the newer job alone, its predecessor lost, reaches the source if and only if of every document it deletes the edition, finds nothing to do, or syncs with what pruning is needed |
| Coalescing.NameGraph.DeleteByName | src/sync/service.py:234-285 | deletes all documents of the name, or exactly those of the named versions |
| Coalescing.NameGraph.SyncByName | src/sync/service.py:204-232 | ingests every document the name resolves to, pruning dropped clauses when replacing |
| Coalescing.NameGraph.Run | src/sync/queue.py:227-247 | deletions first, then the sync |
| SyncQueues.StepKeepsDurable | src/sync/queue.py:149-225 | every step keeps a record for each waiting and running key, equal to the waiting job |
| SyncQueues.RunKeepsDurable | src/sync/queue.py:149-225 | durability in every reachable state, crashes and restarts included |
| SyncQueues.CrashRestores | src/sync/queue.py:172-181 | after crash and restart exactly the records wait; the running job survives if and only if no newer job of its key was waiting |
| SyncQueues.RestartRestores | src/sync/queue.py:172-181 | a crash at any point of any run loses no waiting job |
| SyncQueues.RetryRecordKept | src/sync/queue.py:208-225 | a scheduled retry keeps its record through a step exactly unless another job of its key succeeds with nothing waiting behind it |
| SyncQueues.RetryLostByRestart | src/sync/queue.py:208-258 | a run that ends with nothing left of a failed job |
| SyncQueues.OnlySuccessEndsPending | src/sync/queue.py:208-225 | while the process is up only the success of its own job ends the pending of a document |
| SyncQueues.RunOrderIsStable | src/sync/queue.py:190-194 | repeatedly taking the newest job yields the stable newest-first order |
| SyncQueues.StableOrderUnique | src/sync/queue.py:160-162 | there is one stable newest-first order |
| SyncQueues.ShownOrderIsRunOrder | src/sync/queue.py:160-194 | the displayed list is the order in which jobs will run, ties included |
| SyncQueues.DrainRunsInOrder | src/sync/queue.py:190-225 | without arrivals and failures the jobs taken are exactly that list in that order, and the queue is empty after as many steps as it had jobs |
| SyncQueues.DrainOneRunsHead | src/sync/queue.py:190-225 | each take and success runs the head of the displayed list and leaves its tail |
| MergedJobs.RunExplained | src/sync/queue.py:95-225 | over every run, crashes and restarts included, each job in hand and each record is the merge of exactly the events put for it: the greatest of their change times, the last stated content hash and version, their document and owners |
| MergedJobs.NextWasChangedLast | src/sync/queue.py:183-194 | the job that runs next has an event as new as any that waits, whatever was merged with what |
| MergedJobs.NewestPutRunsNext | src/sync/queue.py:149-194 | an event newer than all that waits makes its document run next, merged or not |
| MergedJobs.EventRunsNext | src/sync/consumer.py:60-145 | each kind of event, put when nothing waits for its document and newest, runs next for that document and its owners with exactly the actions it asks for |
| MergedJobs.StartKeepsWaiting | src/sync/queue.py:172-181 | starting over jobs that were put before changes none of them and adds the records of all other documents behind them |
| MergedJobs.FailuresAreCounted | src/sync/queue.py:208-218 | a job that fails n times in a row waits again unchanged but for n more attempts, and is on record as such |
| QueueBatches.StepInStep | src/sync/queue.py:149-225 | every step that overtakes no job in hand keeps the jobs equal to the batch of events not yet executed |
| QueueBatches.QueueRunsBatches | src/sync/queue.py:149-225 | over every orderly run what runs for a document is the folded batch of its next events, and nothing pending means every event was executed |
| QueueBatches.SameActionsSameEffect | src/sync/queue.py:227-247 | jobs that agree on deletions and sync leave the same graph |
| QueueBatches.DrainedQueueMirrorsSource | src/sync/queue.py:149-247 | queue, graph and source together: once everything was put and nothing is pending the graph mirrors the source |
| QueueBatches.FreshQueueMirrorsSource | src/sync/queue.py:149-247 | the same from an empty queue and a mirroring graph |
| QueueBatches.CrashOvertakes | src/sync/queue.py:149-181 | a crash that hits the running job while newer events wait leaves the newer job only, and executing it reaches the source if and only if it covers every document |
| QueueBatches.CrashLosesRemoval | src/sync/queue.py:149-181 | a run from the empty queue in which a removal is lost and what it was to remove stays in the graph |
| QueueRuntime.SyncQueue.constructor | src/sync/queue.py:137-147 | the queue starts empty over the persisted records |
| QueueRuntime.SyncQueue.Put | src/sync/queue.py:149-158 | an event is inserted or merged into the waiting job of its key, and the result is persisted |
| QueueRuntime.SyncQueue.Newest | src/sync/queue.py:192 | the scan finds the first of the most recently changed jobs |
| QueueRuntime.SyncQueue.Next | src/sync/queue.py:190-194 | pops that job and keeps the others in order |
| QueueRuntime.SyncQueue.Take | src/sync/queue.py:196-209 | the next job becomes the running one |
| QueueRuntime.SyncQueue.Finish | src/sync/queue.py:219-225 | success keeps the record of a newer waiting job, else drops it |
| QueueRuntime.SyncQueue.RetryLater | src/sync/queue.py:212-220 | failure schedules a retry with one more attempt and keeps all else |
| QueueRuntime.SyncQueue.Requeue | src/sync/queue.py:249-258 | the retry re-enters as an event put now |
| QueueRuntime.SyncQueue.Start | src/sync/queue.py:172-181 | every record is loaded, merged into a job that already waits |
| QueueRuntime.SyncQueue.Pending | src/sync/queue.py:160-162 | the stable newest-first list, which is the run order |
| Extraction.GraphWriter.WriteRestrictions | src/pipeline/service.py:293-309 | writes, in clause order, exactly the restrictions of clauses with a valid result |
| Extraction.GraphWriter.DeletePrevious | src/pipeline/service.py:275-286 | a failure-free full replace drops the whole document's restrictions, any other replace only those of clauses with a valid result |
| Extraction.GraphWriter.Mark | src/pipeline/service.py:311-317 | marks exactly the clauses with a valid result |
| Extraction.GraphWriter.ExtractClauses | src/pipeline/service.py:234-324 | flag, delete, write, mark, final flag, in that order |
| Extraction.GraphWriter.ExtractDocument | src/pipeline/service.py:161-337 | the graph and the log of writes are those of the plan for the request; it is skipped exactly when no clause is chosen and nothing reused; the failed list is that of the chosen clauses without a valid result, the counts are of the valid clauses and of the restrictions written, and it reports as replaced and incomplete what the graph then is |
| Requests.RequestLeaves | src/pipeline/service.py:189-324 | whatever is requested and whatever fails, clauses asked for with a valid result get exactly the new restrictions and their mark; a restriction goes only with its clause's replacement or with a whole replacement without a failure |
| Requests.JudgedExactly | src/sync/service.py:143-149 | after a run that extracted something the next sync takes the document for unchanged exactly when no clause failed, something was extracted and the stated content hash is the same |
| Spans.RunLocates | src/pipeline/service.py:470-480 | after any run the span of every written restriction is as far from the beginning of its clause as the extractor said, the last of several under one key |
| Reuse.RunMeaning | src/pipeline/service.py:189-324 | what a reusing run leaves: restrictions per clause, marks and flags |
| Reuse.CollisionLoses | src/pipeline/service.py:68-84 | a restriction whose id is written again for another clause is lost to its clause |
| Reuse.IncrementalEqualsFromScratch | src/pipeline/service.py:189-324 | a failure-free reusing run over a truthful cache leaves every clause with exactly what re-extracting all would, if and only if no reused restriction sits under an id the run writes |
| Reuse.PrefixOfRun | src/pipeline/service.py:234-324 | the states a reusing run passes through, write by write |
| Reuse.InterruptionKeepsCache | src/pipeline/service.py:234-324 | at every write marked clauses carry exactly their text's restrictions, and between the first and the last write the document is flagged incomplete |
| Recovery.RunCompletes | src/pipeline/service.py:189-324 | a failure-free reusing run is exact and ends complete with an empty failed list |
| Recovery.ReusingRunRepairs | src/pipeline/service.py:234-324 | after any number of interrupted or failing reusing runs one failure-free run reaches the from-scratch result |
| Recovery.InterruptedNotUnchanged | src/sync/service.py:143-149 | an interrupted document is never judged unchanged |
| Recovery.WipedIsAPrefix | src/pipeline/service.py:275-276 | a full replace passes through a state with all restrictions gone and marks kept |
| Recovery.FullReplaceInterrupted | src/pipeline/service.py:275-276 | after stopping there the next reusing run completes the document, and is exact if and only if no marked clause states a restriction |
| Carry.PlanMoves | src/graph/writer.py:592-621 | the loops that collect donors and pair them with takers produce a maximal order-keeping pairing per hash, with shifts |
| Carry.CarryIsOptimalMatch | src/graph/writer.py:592-621 | each old clause feeds at most one new one and conversely, hashes agree, per hash the matches are the minimum of available and wanted, in row order |
| Carry.CarryConserves | src/graph/writer.py:622-640 | no restriction is lost, duplicated or changed; each ends on one clause of the same text, both ends of its span at their place within the clause, or unmoved where a clause has no offset |
| Carry.CarryKeepsMarksExact | src/graph/writer.py:571-640 | after carry and prune the marks are truthful if and only if every taker carried nothing before |
| Carry.CarryKeepsOwnIds | src/graph/writer.py:571-640 | carry and prune leave no current clause with the id another clause's restriction was extracted under |
| Carry.IngestKeepsCache | src/ingestion/service.py:161-199 | a replacing ingest, whatever texts and kinds change, keeps the cache truthful if and only if takers were empty, no text with restrictions became a figure or empty, and marks return only to what they were made for; with fresh ids it keeps ids apart; it leaves exactly the edition's clauses |
| Carry.KeptContentClean | src/graph/writer.py:47-60 | when kept fragments keep their content only the takers matter |
| Carry.UnmarkedEmptyReceivers | src/graph/writer.py:601-607 | if only clauses whose mark fits the new text carry restrictions, takers are empty |
| Carry.ReplacingSyncEqualsFromScratch | src/sync/service.py:126-168 | replacing ingest followed by a failure-free reusing extraction gives every clause exactly the from-scratch restrictions and leaves nothing of removed clauses |
| Editions.EditionsEqualFromScratch | src/sync/service.py:126-168 | over any sequence of editions, each extracted by any number of reusing runs that fail or stop anywhere: if every ingest met the document clean (its new ids fresh and the three conditions of the ingest), one failure-free run gives exactly the from-scratch restrictions and completes the document |
| Editions.EditionsStayTrusted | src/sync/service.py:126-168 | the same editions keep marks truthful and ids apart, whatever was interrupted |
| Editions.TakenExactly | src/ingestion/service.py:193-199 | per edition of such a sequence: the cache stays truthful if and only if the ingest is clean |
| Editions.NextEditionExactly | src/sync/service.py:126-168 | after clean editions any next one: with fresh ids a failure-free run over it is exact if and only if it reuses nothing or the ingest was clean; after a clean ingest, whatever the ids, if and only if no id collides |
| Editions.UndisturbedClean | src/sync/service.py:126-168 | where no fragment id comes back, kept fragments keep their content and runs go to their end, with failed clauses or without, every edition meets the document clean |
| Editions.FirstToLastEdition | src/sync/service.py:126-168 | both from the empty store, with no hypothesis on what is stored or marked |
| Histories.ReturningIdCollides | src/pipeline/service.py:68-84 | three editions in which a fragment id comes back and takes another clause's restriction away; every other condition holds |
| Histories.InterruptedThenCarried | src/graph/writer.py:601-640 | an extraction that stops before its mark, then a carry onto that clause: the next run completes the document with the norm there twice; only the condition on takers fails |
| Histories.InterruptedThenReverted | src/pipeline/service.py:189-210 | a rewritten clause whose extraction stops, then its first text back: the next run completes the document without what the clause states; only the condition on marks fails |
| Histories.EditedTakerKeepsOwn | src/graph/writer.py:601-640 | with complete, failure-free runs only: a clause edited into the text of a clause that goes carries both its old restrictions and the other's; only the condition on takers fails |
| Histories.FigureKeepsOld | src/graph/writer.py:543-557 | a text clause that becomes a figure keeps its restrictions in a completed document; only the condition on figures fails |
| Carry.DocumentStore.UpsertFragments | src/ingestion/service.py:173-175 | the fragments are merged onto stored clauses, marks and known offsets kept |
| Carry.DocumentStore.CarryUnchangedClauses | src/graph/writer.py:571-640 | the graph after the pairing, and the clauses that took over |
| Carry.DocumentStore.IngestDocument | src/ingestion/service.py:142-199 | upsert, carry, prune in this order when replacing; only upsert otherwise; the pruned count |
| Revisions.AppendedToHistory | src/graph/writer.py:308-349 | on a proper history the write appends the next revision exactly when its guards allow it |
| Revisions.HistoryOfRun | src/graph/writer.py:288-372 | under any interleaving of readers and guarded writers revisions are exactly 1..n, only n is current, earlier contents never change |
| Revisions.ReviewedSupersededOnlyByReview | src/graph/writer.py:318-320 | a reviewed current plan is superseded only by another review |
| Revisions.AuthoredNotSupersededByPlanners | src/graph/writer.py:317-324 | backfill, replan and regenerate never supersede an authored revision |
| Revisions.DecisionSurvives | src/query/service.py:195-235 | over whole runs what an expert decided stays current until another review or a re-extraction; an approval until another review alone |
| Revisions.ReviewLeaves | src/query/service.py:205-233 | what a review leaves: rejected and unsupported with the plan it read, or approved and reviewed with that plan, the candidate of a blocked one, or the replacement |
| Revisions.ApprovalProtects | src/graph/writer.py:317-349 | once an approval or replacement is written, no run without further reviews changes the plans, re-extractions included |
| Revisions.PlannerLeaves | src/pipeline/service.py:430-466 | a planner's or a re-extraction's write is never reviewed and has no author |
| Revisions.RunProvenance | src/graph/writer.py:288-350 | over every run a plan is reviewed exactly if an author approved it, and has an author exactly if no planner wrote it |
| Revisions.ReextractionSupersedes | src/pipeline/service.py:453-462 | a re-extraction supersedes the current plan exactly when it is not reviewed |
| Revisions.RejectionOverwritten | src/pipeline/service.py:453-462 | a rejection with an author is superseded by the next re-extraction |
| Revisions.ReviewIsOfCurrentExactly | src/query/service.py:205-233 | in any run a review writes what was decided on the revision it read, and supersedes that revision if and only if nothing was appended between its read and its write |
| Revisions.LateApproval | src/query/service.py:205-233 | a run in which an approval supersedes a re-extracted plan with the one read before it |
| Revisions.ExpectingWriteSucceeds | src/graph/writer.py:321-324 | a replan or regenerate succeeds exactly against the revision it read, unreviewed and unauthored |
| Revisions.AtMostOneSucceeds | src/graph/writer.py:321-322 | of several writers expecting one revision at most one succeeds, in any run |
| Revisions.BackfillOnlyFillsGaps | src/pipeline/check_plan_backfill.py:160-172 | backfill writes exactly when the restriction has no plan |
| Revisions.PlanStore.AppendCheckPlanRevision | src/graph/writer.py:288-372 | the stored revisions and the reported number after a guarded append |
| Revisions.SavedOnHistory | src/graph/writer.py:348-372 | what is reported is the new length of the history, and only when something was appended |
| NormSpecs.NoEarlyReasonPrepares | src/pipeline/norm_spec.py:553-611 | without an early refusal both sides are grounded and the value is present |
| NormSpecs.Best | src/pipeline/norm_spec.py:387 | the first plan with the smallest key |
| NormSpecs.TightestLimit | src/pipeline/norm_spec.py:1055-1059 | the first stated limit with the shortest walk |
| Strictest.CompiledSubject | src/pipeline/norm_spec.py:455-648 | layers, operator and attribute of a compiled plan depend on the spec's sides, operator and attribute only; parameters are in range |
| Strictest.OverridesKeepSubject | src/pipeline/norm_spec.py:82-83 | a variant never changes layers, operator or attribute |
| Strictest.StricterImplies | src/pipeline/norm_spec.py:1009-1048 | outside provision the smaller key is the stronger requirement in every world |
| Strictest.StricterProvisionImplies | src/pipeline/norm_spec.py:1039-1045 | more demand or supply norm with a shorter reach implies the other, by scaling the allocation of residents to services |
| Strictest.StrictestIsConservative | src/pipeline/norm_spec.py:365-411 | in every world satisfying the kept plan implies satisfying the main reading and every variant, given that all or none state an accessibility, in one kind of terms or in a world that walks 80 m a minute |
| Exactness.KeyDecidesImplication | src/pipeline/norm_spec.py:1009-1037 | for comparable plans of one subject outside provision the key order is exactly implication over all worlds |
| Unconditional.ReadingEntailsExactly | src/pipeline/norm_spec.py:1009-1048 | of two readings of one clause, provision and equalities included, one plan implies the other if and only if the reading states as much: the bound no laxer, or the capacity no smaller and the accessibility no farther in the same terms |
| Unconditional.UnconditionalCovers | src/pipeline/norm_spec.py:371-372 | an unconditional clause of any template covers a stated variant if and only if its main reading states as much |
| Unconditional.OtherValueCovered | src/pipeline/norm_spec.py:371-372 | for a variant that states another value only this is the comparison of the two values as written |
| Clauses.VariantIgnored | src/pipeline/norm_spec.py:371-372 | "unconditionally 50 m" covers a variant of so many metres if and only if they are at most 50 |
| Exactness.KeptIsConjunction | src/pipeline/norm_spec.py:378-411 | outside provision the kept plan asks for exactly the conjunction of all readings |
| Entailment.ProvisionEntailsExactly | src/pipeline/norm_spec.py:1039-1064 | one provision plan implies another on every territory if and only if it asks for at least the capacity and reaches no farther, both in the same terms |
| Entailment.ProvisionConservativeExactly | src/pipeline/norm_spec.py:1051-1064 | for provision the kept plan implies every reading on every territory if and only if all readings state the accessibility in the same terms or none states one |
| Clauses.SometimesStated | src/pipeline/norm_spec.py:1051-1064 | a clause with an accessibility in one case only is not compiled conservatively |
| Clauses.SlowWalkers | src/pipeline/norm_spec.py:1055-1059 | a clause with 10 minutes and 700 m keeps the path, which residents at 50 m a minute do not walk in 10 minutes |
| NormCompile.HousingFloors | src/pipeline/norm_spec.py:998-1006 | the joined range covers exactly the floors of the building types, and there is none exactly when they leave a gap |
| NormCompile.ScopeIsHousing | src/pipeline/norm_spec.py:413-453 | the scope takes in exactly the buildings of the stated kinds |
| NormCompile.ScopeRefusedExactly | src/pipeline/norm_spec.py:425-427 | scoping refuses exactly when the kinds are not contiguous |
| NormCompile.FindStrictest | src/pipeline/norm_spec.py:384-387 | comparable plans have a strictest one, the first with the smallest key; incomparable ones have none |
| NormCompile.CompileCandidates | src/pipeline/norm_spec.py:365-411 | the loop compiles every reading, refuses with the first refusal, and keeps the strictest with the tightest accessibility |
| NormCompile.MarkedIfConditional | src/pipeline/norm_spec.py:373-411 | a plan says that it is the strictest variant exactly when the reading is conditional |
| NormCompile.ScopedIsConjunction | src/pipeline/norm_spec.py:347-360 | on the stated buildings the compiled plan is exactly the conjunction of the readings |
| NormCompile.CompiledCoversReadings | src/pipeline/norm_spec.py:331-363 | whatever `compile` returns for a conditional clause implies the main reading and every variant that concerns its buildings; for provision, when they state the accessibility in the same terms |
| NormCompile.RangeEndsAgree | src/pipeline/norm_spec.py:961-995 | whichever end of a quoted range the reading states, the compiled plans ask the same, next to any variants that state their own value |
| NormCompile.UnstatedValueIsStrictEnd | src/pipeline/norm_spec.py:966-980 | a distance or access norm without a value asks at least what the strict end of the quoted range would ask alone |
| NormCompile.AccessIsUpperBound | src/pipeline/norm_spec.py:942-958 | in a clause about accessibility a distance from dwellings, and an accessibility of at least so much, compile as that of at most so much; elsewhere template and operator stay |
| NormCompile.KindsOfBuildings | src/pipeline/norm_spec.py:211-218 | the scope of one kind of housing: up to 3 floors, up to 4, 5 to 8, from 9 |
| Readings.PlanSaysTheReading | src/pipeline/norm_spec.py:650-841 | outside provision a compiled plan holds of one object exactly when the stated relation to the stated quantity does, or the object is just at a strict bound of a minimum distance or an accessibility |
| Clauses.StrictBoundIsReached | src/pipeline/norm_spec.py:662-679 | the plan of "more than 50 m" is met at 50 m |
| Readings.UnitsAgree | src/pipeline/norm_spec.py:134-145 | a quantity compiles to the same parameters in kilometres and metres, hours and minutes, hectares and square metres |
| Readings.ProvisionUnitsAgree | src/pipeline/norm_spec.py:849-873 | the stated accessibility of a provision norm is the same in either unit, also when a transport time becomes a distance |
| Readings.CompiledIsGrounded | src/pipeline/norm_spec.py:599-632 | no compiled plan is guessed: its numbers occur in the clause, its operator fits the template, the direction is stated, the precision guards pass the distance it asks for |
| Readings.LayersInCatalog | src/pipeline/norm_spec.py:553-577 | every layer is a catalog entry of its own side: of the stated kind, or where there is none and no zone is asked for any that is no zone |
| Readings.ResidentsAreChecked | src/pipeline/norm_spec.py:470-495 | an access norm that names dwellings checks the dwellings, whichever way the sentence runs |
| Readings.AccessIsWorded | src/pipeline/norm_spec.py:918-933 | an accessibility plan goes by transport if and only if only transport is worded or the wording does not decide and the reading says so; its speed is that of transport exactly then and 80 otherwise, its limit the stated time or way |
| Readings.ProvisionIsWorded | src/pipeline/norm_spec.py:889-909 | a provision plan asks for the stated places per 1000 residents, or for as many residents per object as the stated objects serve together |
| Readings.ProvisionAccessIsWorded | src/pipeline/norm_spec.py:849-887 | its accessibility is the stated way or time; a time by transport is the straight line of the way made in it, to a tenth of a metre |
| Refusals.SidesExactly | src/pipeline/norm_spec.py:467-495 | whom a norm checks and against whom: residents where it names a service alone or its dwellings last |
| Refusals.GroundExactly | src/pipeline/norm_spec.py:553-566 | the catalog entry of an entity: of its own kind, else any other that is no zone unless a zone is asked for |
| Refusals.RefusedExactly | src/pipeline/norm_spec.py:455-641 | a reading has a plan if and only if it has none of the listed faults; a refusal reports only faults it has, each once, all of the first kind it has one of, a missing direction after the precision guards |
| Refusals.VariantsCompileExactly | src/pipeline/norm_spec.py:365-411 | a conditional clause has a plan if and only if no reading of it has a fault and all state one kind of bound |
| Refusals.CompileExactly | src/pipeline/norm_spec.py:331-363 | `compile` gives a plan if and only if the norm is territorial with a template and every reading that concerns its buildings is answerable, without a gap between these where dwellings are checked, and every reading at all where not |
| Reconcile.PlanCompletes | src/pipeline/service.py:211-232 | a failure-free extraction completes a document unless it finds no clause and was not asked for particular ones |
| Reconcile.DocumentSettles | src/sync/service.py:384-454 | after one pass a document is left alone by the next, so is as `QuietExactly` says, exactly when it is not one the pass cannot settle |
| Reconcile.ReconcileConverges | src/sync/service.py:305-382 | one pass makes the next quiet, so the graph as listed, exactly when no listed document is unsettled |
| Reconcile.QuietExactly | src/sync/service.py:440-454 | a pass finds nothing to do if and only if exactly the listed documents are stored, each complete, of the listed version and of the listed content hash where one is stated |
| Reconcile.PassBrings | src/sync/service.py:384-438 | what a pass makes of any document, failures or not: new, changed and incomplete ones end with the fragments of the source, relabelled ones keep every restriction, others stay |
| Reconcile.PassSyncsChanged | src/sync/service.py:305-438 | after a pass every listed document that was new, changed or incomplete and is returned has exactly the fragments returned, with their text, kind, place and stated offset |
| Reconcile.QuietChangesNothing | src/sync/service.py:305-382 | a quiet pass leaves the graph as it is |
| Reconcile.TwoPassesSuffice | src/sync/service.py:305-438 | after two or more passes all is quiet exactly when no listed document was hopeless at the start |
| ReconcileRuntime.QuietLeavesAllAlone | src/sync/service.py:343-346 | the pass counts every listed document as unchanged exactly when each is in place |
| ReconcileRuntime.ReconcileService.ReconcileDocument | src/sync/service.py:384-438 | looks at the stored document again and leaves the document as the action says |
| ReconcileRuntime.ReconcileService.Compare | src/sync/service.py:336-358 | schedules exactly the listed documents that are not in place |
| ReconcileRuntime.ReconcileService.DeleteUnlisted | src/sync/service.py:373-376 | deletes exactly what is stored and not listed |
| ReconcileRuntime.ReconcileService.Reconcile | src/sync/service.py:305-382 | a scheduled and drained pass reconciles every listed document, deletes the rest and reports the counts |
| Repair.FailedAreUnmarked | src/pipeline/service.py:263-324 | the failed clauses on record after a run are exactly those without a mark |
| Repair.ReusingRunExactly | src/pipeline/service.py:189-324 | from any document in which no id is in use twice, a failure-free reusing run is exact if and only if it reuses nothing or the cache is truthful |
| Repair.PickedExactly | src/pipeline/service.py:211-226 | extracting given clauses is exact for the document if and only if the clauses left out already were |
| Repair.ReconcileRepairs | src/sync/service.py:412-438 | a failure-free replace or retry of a document that the ingest meets clean completes it and is exact, except for clauses new under an unchanged hash in a retry of failed clauses: then exactly when those state nothing |
| Unfinished.RetryPassesOverNew | src/sync/service.py:412-438 | a document with a failed clause that gets another one under the same hash is completed without what the new one states |
| Unfinished.InterruptedThenEmptied | src/sync/service.py:412-438 | a document whose first extraction stops after its first write, and whose next edition has no text, is never settled |
| Repair.FullReplaceIsExact | src/pipeline/service.py:275-324 | a failure-free full replace leaves exactly what extraction gives, whatever was stored and marked before |
| Repair.FirstExtractionIsExact | src/pipeline/service.py:211-324 | a first failure-free extraction is exact, and complete unless there was nothing to extract from a flagged document |
| Repair.AddedIsExact | src/sync/service.py:407-410 | a document the pass adds ends exact, complete and with the clauses of the source |
| Fingerprints.AgreeingVotesCheckTheSame | src/pipeline/norm_spec.py:303-314 | compiled votes with one fingerprint that check alike are complied with on the same territories |
| Fingerprints.FingerprintIdentifiesExactly | src/pipeline/norm_spec.py:303-314 | two results of `compile` with one fingerprint mean the same if and only if they look at the same attribute and are limited to the same buildings, or limit floors and find the same breaches among the buildings of either scope |
| Fingerprints.UnitFitsAttribute | src/pipeline/norm_spec.py:757-784 | an attribute is named in the unit in which its threshold is kept as stated |
| Clauses.SameFingerprintOtherArea | src/pipeline/norm_spec.py:303-314 | building area and plot area of one size have one fingerprint and different meanings |
| Clauses.SameFingerprintFewerHouses | src/pipeline/norm_spec.py:303-314 | so have a distance for all dwellings and the same for individual houses |
| Clauses.OtherScopeSameChecks | src/pipeline/norm_spec.py:413-453 | up to 9 floors for individual and for low-rise houses differ in scope and mean the same |
| Voting.UniqueMajority | src/pipeline/norm_refiner.py:400-403 | with twice the agreement above the votes at most one fingerprint reaches it |
| Voting.FindAgreed | src/pipeline/norm_refiner.py:400-403 | a group with enough votes is found if there is one |
| Voting.CanAgree | src/pipeline/norm_refiner.py:405-408 | whether the votes left can still bring a group to the agreement |
| Voting.DecidedIsFinal | src/pipeline/norm_refiner.py:376-382 | what makes the loop stop already decides the full tally |
| Voting.TakeVotes | src/pipeline/norm_refiner.py:316-382 | the loop stops at an outage or with a decision, and no fingerprint reached the agreement earlier |
| Voting.Rewrite | src/pipeline/norm_refiner.py:298-398 | barring outages a plan is returned exactly when a fingerprint reaches the agreement over all votes and no final refusal precedes every plan; it is the first marked or else first plan of the first fingerprint that gets there, unique under a majority |
| Voting.PickIsFirst | src/pipeline/norm_refiner.py:383-389 | what is taken from an agreeing group is the plan of its first marked vote, or without one of its first vote |
| Voting.FirstRefusalIsFirst | src/pipeline/norm_refiner.py:390-398 | the reasons reported without an agreement are those of the first refused or unreadable answer |
| Traversal.ReachIsWithinHops | src/query/service.py:350-374 | hop by hop reaching is the existence of a path of that length |
| Traversal.EitherEndTouches | src/query/service.py:365-370 | with relations read in both directions a relation touches a node by either end |
| Traversal.KeyIsOfBothDirections | src/query/service.py:350-374 | a relation is reported once for both directions, and apart from every other relation |
| Traversal.Graph | src/query/service.py:350-374 | visits exactly the restrictions within the clamped depth and reports every relation touching one within a hop less exactly once, both ends visited |
| Traversal.Expand | src/query/service.py:533-556 | collects exactly the restrictions within the depth of the hits that are not hits, each with a relation from one within a hop less |
| Numerals.ReadPhrase | src/pipeline/extractor.py:239-255 | the loop computes the value of the phrase or leaves it |
| Numerals.ReadsWhatIsWritten | src/pipeline/extractor.py:243-255 | every number from 1 to 999999 in canonical words reads back as itself |
| Numerals.ReadsExactlyTheWritten | src/pipeline/extractor.py:239-255 | a phrase of several number words is replaced by n exactly when it writes n, a single thousand with or without "one" |
| Grounding.IsOrderedSubsequence | src/pipeline/extractor.py:227-229 | the iterator test accepts exactly when an order-preserving embedding exists |
| Grounding.EmbeddedInBoth | src/pipeline/extractor.py:308-311 | acceptance against a linked text followed by the clause is a split into a part of each |
| Grounding.Ground | src/pipeline/extractor.py:285-323 | each verdict exactly: own quote, linked quote, linked lead-in, and where the value is stated |
| Grounding.LeadInEndsInClause | src/pipeline/extractor.py:303-312 | a quote accepted with a linked lead-in has a non-empty part of each in every split |
| Grounding.EnoughSharedExactly | src/pipeline/extractor.py:303-311 | the count of shared tokens is that of the places of the quote that hold a token of the clause, against two or all its distinct ones |
| Grounding.TwoOwnTokensExactly | src/pipeline/extractor.py:303-311 | a quote accepted with a linked lead-in splits so that at least two tokens are the clause's own if and only if its last two tokens are embedded in the clause |
| Grounding.OneOwnTokenIsEnough | src/pipeline/extractor.py:307-311 | an accepted quote without such a split |
| Duplicates.SameQuoteSymmetric | src/pipeline/duplicates.py:50-59 | matching quotes is symmetric |
| Duplicates.SameQuoteExactly | src/pipeline/duplicates.py:50-59 | two quotes match exactly when they share at least as many words as they do not, or 7 for every 3 that the one with fewer others has for itself |
| Duplicates.GroupsIgnoreOrder | src/pipeline/duplicates.py:77-103 | a permutation of the rows gives the same groups |
| Duplicates.GroupHoldsTogether | src/pipeline/duplicates.py:86-102 | a named group has at least two rows of one key, is named by its smallest id, and matching quotes lead to it inside the group from every member |
| Duplicates.ExactlyWhenTransitive | src/pipeline/duplicates.py:86-102 | the groups hold all matching pairs and no others if and only if matching is transitive |
| Duplicates.NotAlwaysExact | src/pipeline/duplicates.py:50-59 | three rows for which the groups are not exact |
| Duplicates.PlaceRow | src/pipeline/duplicates.py:89-98 | a row joins the first cluster with a matching quote or starts its own |
| Duplicates.GroupAll | src/pipeline/duplicates.py:77-103 | every row is mapped to its group's name, or to none |
| Entities.NormalizeIdempotent | src/pipeline/vocabulary.py:40-45 | normalising twice is normalising once |
| Entities.KeyIsOfWords | src/pipeline/vocabulary.py:40-45 | the key of a mention is made of its folded words alone: case, ё, spacing and wrapping do not matter |
| Entities.HashIsOfWords | src/pipeline/reuse.py:17-22 | two texts have one extraction hash exactly when their words are the same |
| Entities.ResolutionKeepsFunctional | src/pipeline/vocabulary.py:120-141 | a resolution keeps every mention with at most one entity if and only if an answered key that is used is a key or nobody's alias |
| Entities.SessionFunctional | src/pipeline/vocabulary.py:120-141 | in every state reached by resolutions from an empty graph a mention belongs to at most one entity |
| Entities.ResolutionIsStable | src/pipeline/vocabulary.py:120-141 | a mention once resolved always resolves to the same key, and resolving that key returns it |
| Entities.EntityResolver.GetEntity | src/graph/writer.py:170-181 | finds an entity with the key or alias if there is one |
| Entities.EntityResolver.Resolve | src/pipeline/vocabulary.py:120-141 | an exact entity, else the nearest one with a new alias, else a new entity |
| Paging.PageMeaning | src/pipeline/check_plan_backfill.py:131-138 | a page, read with one row more than it shows, is the beginning of what lies after the cursor, and the next cursor leaves the rest |
| Paging.Backfill.Run | src/pipeline/check_plan_backfill.py:131-208 | fills every row of the page that does not fail, with the counts |
| Paging.Backfill.RunOnStartup | src/pipeline/check_plan_backfill.py:67-90 | processes every restriction that lacked a plan exactly once, in id order, for any page size; the failed ones stay; the totals add up |
| Paging.FinishedPassVisitsOnce | src/pipeline/check_plan_backfill.py:67-90 | whatever others write between pages, no restriction is visited twice and one that lacks a plan throughout is visited |

## Left out

- Neo4j, Cypher text, Kafka, HTTP, MCP, authentication, logging, the admin pages and configuration.
- LLM and embedding calls: votes, extraction results and nearest neighbours are arbitrary inputs. What the recognition of Russian wording, the catalog and the precision guards answer is a parameter of the compiler model.
- Real time: a retry is a step that may happen at any moment; the back-off formula is not modelled.
- Rounding of floating point numbers: values are real numbers, so the ties of `round` on a transport radius are not modelled.
- Explanations, references, dependencies, zones and user-document indexes; `_refresh_scope`, `delete_scope`. The re-extraction of clauses whose explanations changed is not part of this model.
- Interruption inside `ingest_document`, which stores the new content hash before the clauses.
- Store failures other than the failure of a whole job or of one restriction's plan.
- Vocabulary resolution, conflicts and duplicate groups inside `_write_restriction`: a restriction is its id key and its text there.
- `group_of` (the group a single new restriction joins), `_with_duplicates`, `_shift_span`, `KindVocabulary` and the parsing of model answers.
- Texts of plans (`render_plan`, `_variant_text`, applicability lists), except the mark that a plan is the strictest variant.
- Lower-casing outside the Latin and Russian alphabets in `normalize`; the word sets of quotes are given with the rows.
- Coalescing.RunMirrorsSource: edges between clauses are not part of the mirrored state, because only documents and clauses are compared.
- Strictest.StrictestIsConservative: a provision clause that mixes minutes and metres is covered in worlds that walk 80 m a minute only, because elsewhere the code does not cover it.
- QueueBatches.DrainedQueueMirrorsSource: leaves out runs in which a job in hand of the document is overtaken by a newer event, because what they end with is stated by the lemmas on overtaken retries and on crashes.
- Carry.CarryConserves: explanation edges that move with a clause are not part of the graph model.
- ReconcileRuntime.ReconcileService.Reconcile: models the pass with a queue that is then drained; without one the same `reconcile_document` runs in the loop. Listed documents are visited in the order of the given listing, on which the result does not depend.
- Numerals.ReadPhrase: takes the values of the number words of one phrase; finding phrases in a text is left out.
- Paging.Backfill.Run: the dry run and the concurrent planning within a page are left out.
- Entities.EntityResolver.Resolve: names and embeddings of entities are left out; only keys and aliases are kept.
- Voting.Rewrite: the trace of the votes is left out.
