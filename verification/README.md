# Verified model of the Enterprise Digital Employee's in-memory state machines and indexes

This Dafny 4.11 project models the parts of the system that keep state in memory and whose promises span
several functions or a whole run, and proves those promises. `dafny verify dfyconfig.toml` checks all of it.
Nothing of the original program is executed.

| files | what they model |
|---|---|
| `Approval`, `ApprovalSafety`, `ApprovalRuns`, `ApprovalVisits`, `ApprovalVoters`, `ApprovalLoops`, `ApprovalVerdicts`, `ApprovalClock`, `ApprovalStore`, `ApprovalExamples`, `ApprovalEngine` | the approval workflow engine: one request, its invariant, whole runs, which steps are visited, whose approvals count, when approvals are bounded, what one vote does, when a step is due, what one event does, single runs, the objects updated in place |
| `Bm25`, `Bm25Scoring`, `VectorStore` | the knowledge index: forward and inverted term counts, scores, search, the store object |
| `ConfigHistory`, `ConfigAudit`, `ConfigRecords`, `ConfigStore` | versioned configuration: snapshots and rollback, the audit trail as an event source, what is kept and recorded, the store object |
| `Lru`, `SidecarPool`, `Conversation`, `SessionManagers` | the three session caches, message compression, and their objects |
| `JsonLines`, `SidecarServer`, `SidecarClient` | the sidecar's line protocol: the framing, the overlapping handlers of a connection, the client's wait |
| `Execution`, `ExecutionBounds`, `ExecutionPath`, `RuntimeExecutor` | the Plan/Act/Reflect loop: retries, backoff, escalation, cancellation, where a run goes and how it ends |
| `Rbac`, `RbacRuns`, `Abac`, `AbacLaws`, `Quota`, `QuotaLaws`, `Alerts`, `AlertLaws`, `FrontMatter` | role inheritance, role assignments over runs, policy evaluation and what makes a policy apply, quotas, alerts, archive headers |
| `Sorting`, `Sets`, `Keys`, `Wrappers` | Python's stable sort, sizes of finite sets, keys joined from two texts, option and result types |

Objects whose methods update fields are classes; every such method is proved to move the object exactly as a
function on values says, and the laws are proved about those functions and about runs of them.

## Parameters and assumptions

- Time is an integer passed in; the clock readings of an approval run may be any. Ids drawn at random are
  parameters that must be fresh.
- The tokenizer, the logarithm (any strictly increasing function with log 1 = 0), JSON and YAML, glob
  matching and the comparison of one attribute with one condition are parameters. Scores are real numbers.
- Approval runs assume that step ids of a workflow are distinct, that an `<id>-escalated` step has a larger
  order than its base step, and that a workflow in use by a request is not registered again. `ApprovalLoops` does
  without the second assumption.
- How many events an invoke sends before its result or error depends on the invoke alone, not on the schedule.
- Backend calls of the executor are a table of outcomes, each with a flag saying whether `cancel` was called
  while it was awaited; a cancel during a backoff sleep is put on the attempt after it.

## Where the code and its promises differ

- An AND approval step is described as waiting for all approvers. The code counts approvals: one person may
  approve repeatedly, listed or not (`ApprovalVoters.AllApproversApprovedIff`,
  `ApprovalVoters.OnePersonCanApproveAlone`, `ApprovalExamples.StrangerApprovesForBoth`).
- An AND step without approvers is approved by a vote to escalate, which approves no other step
  (`ApprovalVoters.ApprovesWithoutApprovingIff`, `ApprovalExamples.EscalateVoteApproves`).
- Nothing makes an escalation step come after the step it stands in for. When one leads back, a request can go
  round without end (`ApprovalLoops.ApprovalsBoundedIff`, `ApprovalExamples.CircularNeverEnds`).
- Of workflow steps with the same order, only one is ever started (`ApprovalVisits.VisitsAllStepsIff`,
  `ApprovalExamples.TiedStepIsNeverStarted`).
- A timeout goes straight to the escalation step. The steps between the two are never started, and the request
  can still be approved (`ApprovalVisits.VisitsAllStepsIff`, `ApprovalExamples.EscalationSkipsAStep`).
  `ApprovalVisits.AlwaysVisitsAllIff` says of which workflows neither can happen.
- A timed-out step whose escalation step is not in the workflow stays current and is swept again and again
  (`ApprovalSafety.TimeoutStaysIff`); the built-in `high-risk-task` is such a workflow
  (`ApprovalExamples.HighRiskNeverEscalates`).
- Re-indexing a document without one of its old terms leaves a posting behind, which can make a later
  document that contains the term impossible to find (`Bm25.UpsertKeepsExactIff`,
  `Bm25Scoring.EveryMatchScoresIff`, `Bm25Scoring.StalePostingHidesADocument`).
- `set_item` is described as keeping an item in draft; a published item stays published
  (`ConfigHistory.DraftAfterSetIff`, `ConfigHistory.SetAfterPublishStaysPublished`).
- Two (namespace, key) pairs whose joined keys are equal share one item, and the audit trail then no longer
  tells its history (`ConfigAudit.ReplayReconstructsIff`, `ConfigAudit.CollisionDisagrees`). Two (tenant, user)
  pairs whose joined keys are equal share one role assignment (`RbacRuns.AssignmentsIndependentIff`,
  `RbacRuns.CollisionShares`).
- A request without a session id makes a full agent pool drop its oldest session
  (`SessionManagers.PoolStepIsTouchIff`).
- Overlapping sidecar calls for one session id create two sessions, of which the pool keeps the second
  (`SidecarPool.OverlapReplaces`, `SidecarPool.SafeIff`, `SidecarPool.SingleFlightIff`). In a full pool the second
  insertion can also drop an unrelated session (`SidecarPool.InsertLosesIff`, `SidecarPool.OverlapEvictsAnother`).
- A text with an invoke line and a shutdown line is answered or not depending on how the stream is cut into
  chunks: a shutdown handled while an invoke is awaited loses its replies, and one in an earlier chunk does not
  stop a later invoke (`SidecarServer.CutIsIrrelevantIff`, `SidecarServer.TwoChunksLoseReplies`).
- An executor cancelled during a step that then fails for good ends as failed or escalated, not as cancelled; it
  never ends as completed (`ExecutionBounds.CancelledIff`, `ExecutionBounds.CancelledRunCanFail`,
  `ExecutionBounds.CancelStopsTheRun`). A cancel made before `run` is forgotten (`RuntimeExecutor.CancelThenRun`).
- A plan step that succeeded is done and recorded again when its reflection raises and retries are configured
  (`ExecutionBounds.DoneAgainIff`, `ExecutionBounds.SucceededStepRunsAgain`).

## Model

| member | source | states |
|---|---|---|
| Sorting.SortSorts | apps/governance/abac.py:91-93 | `sorted` returns a permutation of its input in ascending key order |
| Sorting.SortIsStable | apps/governance/abac.py:91-93 | elements with equal keys keep the order they came in |
| Sorting.SortBreaksTiesByRank | apps/governance/abac.py:91-93 | of two elements with equal keys the one that came first comes first |
| Sorting.FirstOfSorted | apps/governance/approval/models.py:101-106 | scanning the sorted list for a predicate finds the least key, the earliest element among ties, or nothing only if nothing satisfies it |
| Approval.FindStep | apps/governance/approval/engine.py:112-114 | the lookup returns a step of the workflow with that id, or none only if there is none |
| Approval.NextStep | apps/governance/approval/engine.py:146-151 | the next step has the least order above the current one; none is returned only if no step has a larger order |
| ApprovalRuns.RoutingIsFirstMatch | apps/governance/approval/models.py:101-136 | a request starts at the step of least order whose conditions all hold, the earliest listed among equals, and at none only if none matches |
| ApprovalStore.ConditionsOneByOne | apps/governance/approval/models.py:109-136 | each condition needs its attribute and a comparison that holds, and all of a step's conditions must hold |
| ApprovalStore.TakenIff | apps/governance/approval/engine.py:160-210 | a request is taken exactly by an enabled workflow with a matching step |
| ApprovalStore.SubmissionIsStored | apps/governance/approval/engine.py:160-210 | a submission stores what the workflow made of it, or changes nothing |
| ApprovalStore.RegisterReplaces | apps/governance/approval/engine.py:94-97 | a registration replaces the workflow of that id and nothing else |
| ApprovalStore.DecisionErrors | apps/governance/approval/engine.py:236-250 | which of the four errors a decision meets, and that it then changes nothing |
| ApprovalStore.OtherRequestsStay | apps/governance/approval/engine.py:234-381 | an event touches no other request |
| ApprovalSafety.SubmitEstablishes | apps/governance/approval/engine.py:160-210 | a submitted request satisfies the request invariant, starting at the matching step |
| ApprovalSafety.DecisionKeeps | apps/governance/approval/engine.py:234-339 | every accepted decision keeps the request invariant: visits ordered and known, evidence for approved steps, votes of the open step short of its need, status and current step consistent, approvals within budget |
| ApprovalSafety.JudgedSoundly | apps/governance/approval/engine.py:263-291 | a step is approved only on full evidence, rejected only by a vote that is not an approval, and otherwise still lacks approvals |
| ApprovalVerdicts.JudgedByVote | apps/governance/approval/engine.py:263-291 | at an open step a vote rejects exactly if it is a rejection, or an escalation at a step other than an AND step; it completes the step exactly if it is the approval the step still waits for, or an escalation at an AND step without approvers |
| ApprovalVerdicts.VoteDecides | apps/governance/approval/engine.py:252-339 | an accepted vote is recorded; it rejects, approves or moves the request exactly as it rejects or completes the step, marks that step and the next one only, and otherwise changes nothing but the record |
| ApprovalVerdicts.EscalationAtAndStepWaits | apps/governance/approval/engine.py:271-284 | a vote to escalate at an AND step with approvers only stands in the record |
| ApprovalVerdicts.UndecidedStepIsSkipped | apps/governance/approval/engine.py:139-143 | moving on from a step nobody decided marks it skipped |
| ApprovalVerdicts.ForgottenStepHasOrderZero | apps/governance/approval/engine.py:146-151 | a step the workflow no longer has counts as one of order 0 |
| ApprovalSafety.TimeoutKeeps | apps/governance/approval/engine.py:342-375 | a timeout keeps the request invariant whether it escalates, ends the request or changes nothing |
| ApprovalSafety.TimeoutIgnored | apps/governance/approval/engine.py:359-362 | when the escalation step is not in the workflow, the request invariant is kept |
| ApprovalSafety.TimeoutStaysIff | apps/governance/approval/engine.py:342-375 | a timeout leaves a request open at the same step if and only if that step escalates to a step the workflow does not have; then it stays overdue and no later sweep changes anything |
| ApprovalSafety.TimeoutEnds | apps/governance/approval/engine.py:369-372 | a timeout of a step without escalation target finishes the request as escalated, with the invariant intact |
| ApprovalSafety.DecisionShortens | apps/governance/approval/engine.py:263-326 | every approval lowers the number of approvals still needed by at least one, and no approval ever rejects |
| ApprovalSafety.TimeoutNeverLengthens | apps/governance/approval/engine.py:342-375 | a timeout never raises the number of approvals still needed |
| ApprovalSafety.ResponseIsTruthful | apps/governance/approval/engine.py:297-339 | the answer says final exactly when the request is approved or rejected, and names a next step exactly when the request moved to it |
| ApprovalRuns.StepKeepsInv | apps/governance/approval/engine.py:94-381 | every event on the store keeps every stored request and workflow in order |
| ApprovalRuns.RunKeepsInv | apps/governance/approval/engine.py:94-381 | so does every run of allowed events |
| ApprovalRuns.ApprovedHasEvidence | apps/governance/approval/engine.py:135-157 | in every run, each step an approved request visited is approved on recorded votes (one approval, or all needed and no rejection for AND) or timed out and was replaced by its escalation step; the last one was approved |
| ApprovalVisits.VisitsAllStepsIff | apps/governance/approval/engine.py:146-155 | an approved request of any run visited only steps from the matching one on, some step of an order exactly when no timeout jumped over that order, and all of them if and only if besides no two of them share an order |
| ApprovalVisits.AlwaysVisitsAllIff | apps/governance/approval/engine.py:342-375 | a workflow has all its steps from the matching one on visited by every approved request if and only if those have distinct orders and none lies between a step with a time limit and its escalation step |
| ApprovalRuns.ApprovalsBounded | apps/governance/approval/engine.py:234-339 | no run records more approvals for a request than the sum of max(1, approvers) over the steps, and at that number the request is finished |
| ApprovalRuns.EnoughApprovalsApprove | apps/governance/approval/engine.py:234-339 | as many approvals as are still needed finish a pending request, as approved |
| ApprovalRuns.OpenRequestsCanFinish | apps/governance/approval/engine.py:234-339 | any open request of any run is approved by at most that many approvals, whoever gives them |
| ApprovalRuns.FinishedIsFinal | apps/governance/approval/engine.py:244-246 | decisions are accepted exactly while the request is pending; a finished one refuses them and no timeout touches it |
| ApprovalRuns.SweepsRespectDeadlines | apps/governance/approval/engine.py:342-357 | a sweep acts on a request exactly when it is open and the time limit of its current step has passed since that step started |
| ApprovalClock.SubmissionStartsClock | apps/governance/approval/engine.py:116-123 | the first step's clock starts with the submission |
| ApprovalClock.DecisionMovesClock | apps/governance/approval/engine.py:116-123 | a decision that moves the request starts the clock of the new step, any other leaves the clock alone |
| ApprovalClock.TimeoutMovesClock | apps/governance/approval/engine.py:116-123 | so does a timeout |
| ApprovalClock.ClockStartsWithTheStep | apps/governance/approval/engine.py:116-123 | over every run an open request's clock was started by the event that made its step current |
| ApprovalClock.DueSinceTheStepBegan | apps/governance/approval/engine.py:342-357 | a sweep acts on a request of any run exactly when more than the limit of its current step has passed since the event that made it current |
| ApprovalStore.TimeoutMarks | apps/governance/approval/engine.py:357-375 | a timeout marks its step as escalated and opens the escalation step if there is one, and touches no other step and no vote |
| ApprovalStore.EmptyTargetIsNone | apps/governance/approval/engine.py:359-372 | an empty escalation target counts as none: the request ends; with any other it stays open |
| ApprovalVoters.AllApproversApprovedIff | apps/governance/approval/engine.py:271-284 | an approved AND step of any run has every listed approver's approval if and only if no more approvals were wasted (not listed, or a repeat) than its list repeats names; without repeated names, if and only if each approval came from a listed approver who had not approved before |
| ApprovalVoters.OnePersonCanApproveAlone | apps/governance/approval/engine.py:271-284 | one person alone, listed or not, can take any fresh request through all its steps |
| ApprovalVoters.ApprovesWithoutApprovingIff | apps/governance/approval/engine.py:271-284 | a vote that does not approve makes an open step approved if and only if it escalates an AND step without approvers |
| ApprovalLoops.ForwardHasNoWayBack | apps/governance/approval/engine.py:110-155 | where escalation steps come later no way through the workflow leads back to a step |
| ApprovalLoops.ApprovalsBoundedIff | apps/governance/approval/engine.py:234-375 | the approvals of a request are bounded over all its runs if and only if no way by approvals and timeouts leads back to a step, and then by what all steps need |
| ApprovalExamples.HighRiskNeverEscalates | apps/governance/approval/engine.py:39-60 | a request of the built-in workflow stays at its only step whatever sweeps are made, and overdue after an hour |
| ApprovalExamples.EscalationSkipsAStep | apps/governance/approval/engine.py:359-362 | a reachable request is approved after a timeout although a step of the workflow between the two was never started |
| ApprovalExamples.TiedStepIsNeverStarted | apps/governance/approval/engine.py:146-155 | a reachable request is approved although the second of two steps with one order was never started |
| ApprovalExamples.StrangerApprovesForBoth | apps/governance/approval/engine.py:271-284 | a reachable request is approved on two approvals of one person who is not listed, without either listed approver |
| ApprovalExamples.CircularNeverEnds | apps/governance/approval/engine.py:359-362 | a workflow whose escalation step comes first has runs with more approvals than any number |
| ApprovalExamples.EscalateVoteApproves | apps/governance/approval/engine.py:271-284 | a reachable request approved without a single approval |
| ApprovalEngine.ApprovalRequest.StartStep | apps/governance/approval/engine.py:110-123 | activates a step of the workflow with its deadline; an unknown id changes nothing |
| ApprovalEngine.ApprovalRequest.CompleteStep | apps/governance/approval/engine.py:135-157 | moves the request on to the next step by order and says which |
| ApprovalEngine.ApprovalRequest.TimeOut | apps/governance/approval/engine.py:346-375 | acts exactly on overdue requests, escalating or ending them |
| ApprovalEngine.Engine.RegisterWorkflow | apps/governance/approval/engine.py:94-97 | stores the workflow and touches no request |
| ApprovalEngine.Engine.SubmitApprovalRequest | apps/governance/approval/engine.py:160-210 | adds a started request under the fresh id, or nothing when the workflow is missing, disabled or matches no step |
| ApprovalEngine.Engine.RecordAndMove | apps/governance/approval/engine.py:252-339 | records the vote, judges the step and moves, finishes or keeps the request as the value model says |
| ApprovalEngine.Engine.ProcessDecision | apps/governance/approval/engine.py:234-339 | moves exactly the addressed request; every error leaves the whole store unchanged |
| ApprovalEngine.Engine.CheckTimeouts | apps/governance/approval/engine.py:342-381 | times out every overdue request and no other, and returns their ids in the order of submission |
| Bm25.UpsertKeepsValid | apps/knowledge_hub/vector_store.py:78-125 | after an upsert forward counts are still contained in the postings, no posting list is empty, documents and counts have the same ids |
| Bm25.DeleteKeepsValid | apps/knowledge_hub/vector_store.py:92-101 | a deletion keeps the same |
| Bm25.RunKeepsValid | apps/knowledge_hub/vector_store.py:78-160 | so does every history of upserts and deletions |
| Bm25.UpsertKeepsExactIff | apps/knowledge_hub/vector_store.py:122-125 | an upsert keeps the inverted index the exact transpose of the forward one if and only if the id is new or no stored term is lost |
| Bm25.DeleteKeepsExact | apps/knowledge_hub/vector_store.py:157-160 | a deletion always does |
| Bm25.GuardedRunKeepsExact | apps/knowledge_hub/vector_store.py:78-160 | every run whose upserts meet that condition ends with exactly transposed indexes |
| Bm25.DeleteUndoesInsertIff | apps/knowledge_hub/vector_store.py:92-125 | deleting a newly inserted document restores the whole index if and only if its id had no stale posting under its terms |
| Bm25.DocumentFrequency | apps/knowledge_hub/vector_store.py:114 | in an exact index the length of a posting list is the number of stored documents with the term |
| Bm25Scoring.LengthIsTermCount | apps/knowledge_hub/vector_store.py:82-108 | the document length of the score is the number of the document's tokens |
| Bm25Scoring.IdfClosedForm | apps/knowledge_hub/vector_store.py:115 | the logarithm's argument is (N + 1) / (df + 0.5), always positive, and above 1 exactly when df is at most N |
| Bm25Scoring.IdfPositiveIff | apps/knowledge_hub/vector_store.py:115 | idf is positive exactly when the term is posted at most as often as there are documents |
| Bm25Scoring.TermScoreSign | apps/knowledge_hub/vector_store.py:111-119 | a term adds to a score exactly when the document has it and its idf is positive, and always less than 2.5 idf |
| Bm25Scoring.NormByLength | apps/knowledge_hub/vector_store.py:118 | the length part of the score grows with the document's length and equals k1 at average length |
| Bm25Scoring.NormIsLinear | apps/knowledge_hub/vector_store.py:118 | an empty document has a quarter of k1, lengths count evenly, averages below 1 count as 1 |
| Bm25Scoring.AverageOccurrenceScoresIdf | apps/knowledge_hub/vector_store.py:116-119 | a term that occurs once in a document of average length scores exactly its idf |
| Bm25Scoring.AverageIsMean | apps/knowledge_hub/vector_store.py:109 | the average times the number of documents is the number of all tokens |
| Bm25Scoring.ScoreIsAdditive | apps/knowledge_hub/vector_store.py:110-119 | a query scores what its parts score, repeated terms included |
| Bm25Scoring.FrequencyRaisesLengthLowers | apps/knowledge_hub/vector_store.py:116-119 | with positive idf, more occurrences raise a term's score and a longer document lowers it, strictly |
| Bm25Scoring.SingleTermScore | apps/knowledge_hub/vector_store.py:103-120 | a one-term query finds a document with the term exactly when the term is not overposted |
| Bm25Scoring.EveryMatchScoresIff | apps/knowledge_hub/vector_store.py:103-120 | on any reachable index, every document scores above zero on every query it shares a term with if and only if no stored term is posted more often than there are documents |
| Bm25Scoring.ExactNeverOverposts | apps/knowledge_hub/vector_store.py:103-120 | an exact index never overposts |
| Bm25Scoring.ExactScoreBounds | apps/knowledge_hub/vector_store.py:103-120 | on an exact index every idf is positive, a score is positive iff a term is shared, and it is below 2.5 times the sum of the idfs |
| Bm25Scoring.StalePostingHidesADocument | apps/knowledge_hub/vector_store.py:122-125 | a run of two upserts, a deletion and an upsert after which a stored document scores nothing on its own term |
| Bm25Scoring.SearchIsBest | apps/knowledge_hub/vector_store.py:132-155 | search returns only documents that pass the filters, each once, best first and ties as they were stored, as many as `top_k` leaves; every document left out comes after all those returned |
| Bm25Scoring.TagsWidenTheFilter | apps/knowledge_hub/vector_store.py:146-147 | a tag filter finds what its tags find one by one, a single tag what carries it, so that a further tag never loses a document |
| Bm25Scoring.ThresholdIsInclusive | apps/knowledge_hub/vector_store.py:149-151 | a threshold keeps exactly what scores at least as much |
| Bm25Scoring.ExactSearchFindsSharing | apps/knowledge_hub/vector_store.py:143-152 | on an exact index without threshold, what can be found is exactly what passes the tags and shares a query term |
| Bm25Scoring.StoredIsFound | apps/knowledge_hub/vector_store.py:122-160 | on an exact index a stored document is found by each of its terms and under exactly its tags, once deleted it is not, and others stay as stored |
| VectorStore.SumValues | apps/knowledge_hub/vector_store.py:108-109 | adds up the values whatever order they come in |
| VectorStore.InMemoryVectorStore.CountTerms | apps/knowledge_hub/vector_store.py:82-84 | the counting loop yields each token's multiplicity |
| VectorStore.InMemoryVectorStore.UpdateBm25 | apps/knowledge_hub/vector_store.py:78-90 | replaces the forward counts and adds the postings of all terms, touching no other document's |
| VectorStore.InMemoryVectorStore.RemoveFromBm25 | apps/knowledge_hub/vector_store.py:92-101 | takes the document's counted terms out of the postings, drops emptied lists, and forgets its counts |
| VectorStore.InMemoryVectorStore.Upsert | apps/knowledge_hub/vector_store.py:122-125 | moves the whole store as one upsert of the value model |
| VectorStore.InMemoryVectorStore.UpsertBatch | apps/knowledge_hub/vector_store.py:127-130 | equals the run of its upserts in order |
| VectorStore.InMemoryVectorStore.Delete | apps/knowledge_hub/vector_store.py:157-160 | moves the whole store as one deletion of the value model |
| VectorStore.InMemoryVectorStore.TotalLength | apps/knowledge_hub/vector_store.py:109 | the summed length of all stored documents |
| VectorStore.InMemoryVectorStore.ScoreTerm | apps/knowledge_hub/vector_store.py:111-119 | one turn of the score loop adds the term's score |
| VectorStore.InMemoryVectorStore.Bm25Score | apps/knowledge_hub/vector_store.py:103-120 | the loop computes the score of the value model |
| VectorStore.InMemoryVectorStore.Search | apps/knowledge_hub/vector_store.py:132-155 | the loop, the sort and the cut compute the search of the value model |
| ConfigHistory.ApplyKeepsValid | apps/config_center/store.py:74-288 | every operation keeps items and snapshots in step and only appends snapshots |
| ConfigHistory.RunKeepsValid | apps/config_center/store.py:74-288 | so does every run |
| ConfigHistory.SteadyOrder | apps/config_center/store.py:112-126 | along a history versions do not decrease and equal versions carry equal values |
| ConfigHistory.SnapshotsAreComplete | apps/config_center/store.py:112-126 | after any run an item's snapshots are ordered, cover exactly 1 to its current version, and have one value per version |
| ConfigHistory.DraftAfterSetIff | apps/config_center/store.py:74-108 | setting an item leaves it in draft if and only if it is new or was a draft |
| ConfigHistory.SetAfterPublishStaysPublished | apps/config_center/store.py:74-108 | setting, publishing and setting again leaves the new value published |
| ConfigRecords.SetKeepsWhatIsNotGiven | apps/config_center/store.py:83-108 | setting a stored item keeps its creator and status, and its description and tags unless new ones are given; a new item takes what it is given |
| ConfigRecords.SecondSetKeepsDescription | apps/config_center/store.py:74-143 | setting twice, the second time without description and tags, keeps those of the first and its creator |
| ConfigRecords.RecordsTellWhoDidWhat | apps/config_center/store.py:110-287 | every change and every new snapshot names who did what to which version, and the snapshot the status the item has |
| ConfigRecords.OnlyTheStatusChanges | apps/config_center/store.py:146-216 | publishing and deprecating change the status of a stored item and nothing else about it |
| ConfigRecords.RollbackStartsAfresh | apps/config_center/store.py:247-258 | a rolled-back item is published, names who rolled back as its creator, and has no description and no tags |
| ConfigHistory.SnapshotOfFinds | apps/config_center/store.py:239-242 | looking up a version succeeds exactly when it was recorded, and finds the value every snapshot of it carries |
| ConfigHistory.RollbackSucceedsIff | apps/config_center/store.py:229-242 | a rollback succeeds exactly for versions 1 to the current one |
| ConfigHistory.RollbackRestores | apps/config_center/store.py:229-288 | after any later run, rolling back to the version an item once had restores the value it had then, published, one version up, and touches no other item |
| ConfigHistory.RollbackUndoesRollback | apps/config_center/store.py:229-288 | a rollback is undone by rolling back to the version before it |
| ConfigAudit.SlashFreeIsInjective | apps/config_center/store.py:32-33 | item keys of slash-free namespaces are distinct for distinct pairs |
| ConfigAudit.SlashesCollide | apps/config_center/store.py:32-33 | with slashes two pairs can share an item key |
| ConfigAudit.ApplyRecords | apps/config_center/store.py:128-287 | an operation changes nothing, or adds one change about its own pair whose old value is what the replay held before and whose replay is the item as it now stands |
| ConfigAudit.ApplyKeepsAgreement | apps/config_center/store.py:74-288 | every operation keeps the replay of the trail equal to the store |
| ConfigAudit.ReplayReconstructs | apps/config_center/store.py:128-141 | after any run over slash-free namespaces, replaying the trail oldest first gives every item's value, version and status, and every recorded old value is what the replay held just before |
| ConfigAudit.ReplayReconstructsIff | apps/config_center/store.py:32-33 | over a set of pairs this holds after every run if and only if no two of them share an item key |
| ConfigAudit.CollisionDisagrees | apps/config_center/store.py:83-108 | setting a second pair with the same item key makes the replay wrong about the first |
| ConfigStore.Store.SetItem | apps/config_center/store.py:74-143 | creates or updates the item, its snapshot and the trail as the value model says, and says whether it was created |
| ConfigStore.Store.PublishItem | apps/config_center/store.py:146-189 | publishes a stored item, or changes nothing |
| ConfigStore.Store.DeprecateItem | apps/config_center/store.py:192-216 | deprecates a stored item without a snapshot, or changes nothing |
| ConfigStore.Store.RollbackToVersion | apps/config_center/store.py:229-288 | rolls the item back, or changes nothing when the version was never recorded |
| ConfigStore.Store.GetVersions | apps/config_center/store.py:222-226 | the snapshots in reverse; of a stored item, the first is of its current version and value and versions never increase |
| Lru.TouchKeepsOk | apps/runtime/memory.py:124-147 | a visit keeps the keys distinct and within the maximum, and leaves the visited key in the cache |
| Lru.ForgottenIsGone | apps/runtime/memory.py:153-159 | a deletion takes exactly its key out of the cache |
| Lru.CacheIsLastUses | apps/runtime/memory.py:112-147 | for every trace of visits the cache holds the last `max` keys of the history without repetitions, in order of last use |
| Lru.LargerCacheContains | apps/runtime/memory.py:112-159 | on every trace of visits and deletions the smaller of two caches is the recent end of the larger one |
| SessionManagers.SessionContext.AddMessage | apps/runtime/memory.py:59-63 | appends the message and counts it |
| SessionManagers.MemoryManager.Compress | apps/runtime/memory.py:165-193 | replaces the conversation by its compression |
| SessionManagers.MemoryManager.GetOrCreate | apps/runtime/memory.py:112-147 | moves the keys as one LRU step, returns the stored object (compressed if too long, its activity as it was) or a fresh one active now, and touches no other session |
| SessionManagers.MemoryManager.Delete | apps/runtime/memory.py:153-159 | removes that session only and says whether it was there |
| SessionManagers.MemoryManager.CleanupExpired | apps/runtime/memory.py:211-229 | removes exactly the sessions idle for longer than the limit, keeps the order of the rest, and counts them |
| SessionManagers.IdleBoundary | apps/runtime/memory.py:218-222 | the limit is in hours of 3600 seconds; a session idle for exactly the limit is kept, a second longer it is not |
| SessionManagers.CreateSayCleanup | apps/runtime/memory.py:59-229 | a session created, spoken to and cleaned up is kept exactly if it was spoken to within the limit |
| SessionManagers.CreateVisitCleanup | apps/runtime/memory.py:112-229 | visiting a session does not count as activity |
| SessionManagers.PoolStepIsTouchIff | apps/runtime/piagent_client.py:600-615 | the agent pool is the same cache for calls with a session id; a call without one leaves it alone if and only if it is not full |
| SessionManagers.PiAgentSessionManager.GetOrCreate | apps/runtime/piagent_client.py:597-615 | returns the pooled session or a new one, and moves the pool accordingly |
| SessionManagers.SidecarSessionManager.Lookup | apps/runtime/sidecar/src/session-manager.ts:24-31 | a hit returns the pooled session and refreshes its time only |
| SessionManagers.SidecarSessionManager.ScanOldest | apps/runtime/sidecar/src/session-manager.ts:52-59 | the scan finds the least last-use time, the earliest inserted among ties |
| SessionManagers.SidecarSessionManager.EvictIfNeeded | apps/runtime/sidecar/src/session-manager.ts:50-62 | a full pool drops exactly the oldest session and always has room afterwards |
| SessionManagers.SidecarSessionManager.Insert | apps/runtime/sidecar/src/session-manager.ts:40-43 | evicts if needed and sets the key |
| SidecarPool.Oldest | apps/runtime/sidecar/src/session-manager.ts:52-59 | the key found has the least last-use time of all |
| SidecarPool.OldestIsFirst | apps/runtime/sidecar/src/session-manager.ts:52-59 | and it is the earliest inserted of those with that time |
| SidecarPool.CallRefinesTouch | apps/runtime/sidecar/src/session-manager.ts:24-62 | with a clock that moves on, one call keeps the timestamp pool in step with the ordered cache |
| SidecarPool.TimestampsRefineLru | apps/runtime/sidecar/src/session-manager.ts:24-62 | on every such trace both hold the same keys in the same order of use, so they evict the same keys |
| SidecarPool.NextKeepsBound | apps/runtime/sidecar/src/session-manager.ts:24-71 | every step of overlapping calls keeps the pool within its capacity |
| SidecarPool.OnlyInsertionsAdd | apps/runtime/sidecar/src/session-manager.ts:24-71 | a lookup changes no session, destroying forgets exactly what it names, and calls in flight stay in flight |
| SidecarPool.PoolNeverOverflows | apps/runtime/sidecar/src/session-manager.ts:24-71 | so does every interleaving |
| SidecarPool.GuardedStepIff | apps/runtime/sidecar/src/session-manager.ts:24-43 | a step keeps every key in flight at most once and unpooled if and only if no lookup misses a key that is in flight |
| SidecarPool.SafeIff | apps/runtime/sidecar/src/session-manager.ts:34-42 | no continuation whose lookups keep to that guard replaces a pooled session if and only if no key in flight is pooled or in flight twice |
| SidecarPool.SingleFlightIff | apps/runtime/sidecar/src/session-manager.ts:24-43 | the lookups of an interleaving all met the guard if and only if every point of it is safe in that sense, and then no insertion replaced a pooled session |
| SidecarPool.OverlapReplaces | apps/runtime/sidecar/src/session-manager.ts:34-42 | two overlapping calls for one key make the pool forget the first session |
| SidecarPool.InsertLosesIff | apps/runtime/sidecar/src/session-manager.ts:40-62 | an insertion drops a session of another key if and only if the pool is full and the key is not its oldest; if the key was pooled, the pool is then one short |
| SidecarPool.OverlapEvictsAnother | apps/runtime/sidecar/src/session-manager.ts:40-62 | two overlapping calls in a pool of two that drop an unrelated session |
| Conversation.CompressedParts | apps/runtime/memory.py:177-193 | compression keeps the system messages, adds the summary of the older others, and keeps the recent others |
| Conversation.CompressIsIdempotent | apps/runtime/memory.py:165-193 | compressing twice is compressing once |
| Conversation.CompressNeverGrows | apps/runtime/memory.py:165-193 | compression never lengthens a conversation |
| Conversation.SummaryIffCounted | apps/runtime/memory.py:195-209 | a summary is added exactly if there are user or assistant messages to count |
| Conversation.ZeroKeepsEverything | apps/runtime/memory.py:181-182 | with `max_recent` 0 every message is kept |
| Conversation.VisitKeepsRecent | apps/runtime/memory.py:124-132 | a visit leaves a conversation up to the threshold as it was, and cuts the other messages of a longer one to the `max_recent` last |
| Conversation.ConversationIsConserved | apps/runtime/memory.py:124-209 | over every interleaving of messages, compressions and visits, added system messages survive in order, the other kept messages end those added and are at least `max_recent` if there were that many, and every user and assistant message is kept or counted in a summary |
| JsonLines.JoinSplit | apps/runtime/sidecar/src/index.ts:237 | splitting yields newline-free pieces that join to the text |
| JsonLines.SplitJoin | apps/runtime/sidecar/src/index.ts:237 | and they are the only such pieces |
| JsonLines.SplitAppend | apps/runtime/sidecar/src/index.ts:236-238 | splitting a concatenation splits the first part and runs its last piece on into the second |
| JsonLines.ChunkingIsIrrelevant | apps/runtime/sidecar/src/index.ts:233-240 | for every way of cutting a stream into chunks, the lines emitted and the buffer are the stream split at newlines |
| JsonLines.MessagesRoundTrip | apps/runtime/sidecar/src/protocol.ts:92-94 | newline-free messages are recovered exactly, in order, with nothing left over |
| SidecarServer.OneChunkIsStraight | apps/runtime/sidecar/src/index.ts:233-262 | a text that comes in one chunk is handled line by line up to a shutdown, every reply being delivered |
| SidecarServer.NothingIsLost | apps/runtime/sidecar/src/index.ts:240-256 | as long as no shutdown comes, what was run and delivered and what the handlers still have to do are conserved by every schedule |
| SidecarServer.NothingIsAwaited | apps/runtime/sidecar/src/index.ts:240-262 | without an invoke no handler is suspended, and any cut is handled like one chunk, in the same order |
| SidecarServer.CanFinish | apps/runtime/sidecar/src/index.ts:240-262 | the handlers of any connection can come to their end |
| SidecarServer.ClosedStaysSilent | apps/runtime/sidecar/src/index.ts:250-253 | after a shutdown invokes may still run, but no reply is delivered |
| SidecarServer.CutIsIrrelevantIff | apps/runtime/sidecar/src/index.ts:233-262 | for every cut of a text and every schedule of its overlapping handlers the invokes run and the replies delivered are, as a multiset, those of one chunk if and only if its complete lines do not hold both a shutdown and an invoke |
| SidecarServer.TwoChunksLoseReplies | apps/runtime/sidecar/src/index.ts:248-256 | an invoke and a shutdown line: in one chunk the invoke is answered if it comes first and not run if second, in two chunks either order has a run of the invoke without any reply |
| SidecarServer.LineIsAnswered | apps/runtime/sidecar/src/index.ts:241-261 | one line: a ping is answered with a pong, what does not parse with an error, an invoke with its replies, and nothing else is answered |
| SidecarServer.RepliesInOrder | apps/runtime/sidecar/src/index.ts:33-94 | an invoke sends its events in order and then its result |
| SidecarServer.Connection.GoThrough | apps/runtime/sidecar/src/index.ts:240-262 | the loop of a handler up to its next await, as the value model says |
| SidecarServer.Connection.OnData | apps/runtime/sidecar/src/index.ts:235-262 | a data event keeps the incomplete line in the buffer and starts a handler with the complete ones |
| SidecarServer.Connection.Proceed | apps/runtime/sidecar/src/index.ts:33-94 | an awaited invoke sends its next message, lost if the socket was ended, or its handler goes on |
| SidecarClient.StreamReader.ReadLine | apps/runtime/piagent_sidecar_client.py:65-69 | takes the stream's next line off it |
| SidecarClient.Invoke | apps/runtime/piagent_sidecar_client.py:180-198 | the waiting loop returns what the value model says |
| SidecarClient.AwaitFindsFirstAnswer | apps/runtime/piagent_sidecar_client.py:162-201 | the client gets the first result or error for its own request |
| SidecarClient.AwaitReportsClosure | apps/runtime/piagent_sidecar_client.py:180-183 | if none comes before the socket closes, it reports that |
| SidecarClient.AwaitStopsAtGarbage | apps/runtime/piagent_sidecar_client.py:65-69 | a line that is not JSON ends the wait with an error |
| SidecarClient.LastLineNeedsNoNewline | apps/runtime/piagent_sidecar_client.py:65-69 | a stream that ends within a line has it read as one |
| SidecarClient.OthersDoNotMatter | apps/runtime/piagent_sidecar_client.py:182-183 | replies to other requests, however interleaved, do not change what it gets |
| ExecutionBounds.ExecuteEndsAtFirstNonFailure | apps/runtime/executor.py:365-456 | `execute_step` stops at the first attempt that does not fail or after all it is allowed, ends as its last attempt did, and makes exactly those attempts |
| ExecutionBounds.ExecuteFailsIff | apps/runtime/executor.py:365-456 | `execute_step` fails exactly when every attempt it is allowed fails |
| ExecutionBounds.BackoffIsGeometric | apps/runtime/executor.py:435-452 | between attempts it sleeps the initial delay times the growing power of the multiplier |
| ExecutionBounds.FailingStepCost | apps/runtime/executor.py:365-456 | a failing `execute_step` makes exactly R + 1 attempts and sleeps the geometric sum, R times the delay for multiplier 1 |
| ExecutionBounds.RunAttemptsBounded | apps/runtime/executor.py:539-589 | no run attempts a plan step more than 2R + 1 times |
| ExecutionBounds.RunAttemptsReachBound | apps/runtime/executor.py:567-576 | a step that always fails reaches the bound |
| ExecutionBounds.DoneAgainIff | apps/runtime/executor.py:543-582 | a plan step is attempted after it succeeded if and only if its reflection raises and retries are configured, and is recorded twice exactly if that round succeeds too |
| ExecutionBounds.SucceededStepRunsAgain | apps/runtime/executor.py:567-582 | a completed run that did its only step twice and recorded it twice |
| ExecutionBounds.CancelStopsTheRun | apps/runtime/executor.py:539-542 | once cancel was called no later plan step starts and the run never completes |
| ExecutionBounds.CancelledIff | apps/runtime/executor.py:567-602 | a cancel while the run is at a plan step ends it as cancelled if and only if that step does not fail in both its rounds (or its only one); otherwise as failed or escalated |
| ExecutionBounds.CancelledWhen | apps/runtime/executor.py:525-602 | any other cancel comes during planning, and counts unless planning fails |
| ExecutionBounds.CancelledRunCanFail | apps/runtime/executor.py:583-589 | a cancel during the only, failing attempt: the run ends as failed, or as escalated |
| ExecutionBounds.RunEscalatesOnlyWithoutRetries | apps/runtime/executor.py:567-589 | a run escalates only if no retries are configured and escalation is on |
| ExecutionBounds.CompletedRunDidEveryStep | apps/runtime/executor.py:525-604 | a completed run has a result for every plan step up to the last one or up to one after which a reflection said stop |
| ExecutionPath.TurnControl | apps/runtime/executor.py:539-589 | a plan step is followed by the next one, stops the run, is interrupted or fails it, exactly by what its rounds and its reflection did |
| ExecutionPath.TurnRecords | apps/runtime/executor.py:543-582 | it records the text of each round that succeeded |
| ExecutionPath.TurnSleeps | apps/runtime/executor.py:567-576 | between its rounds it sleeps 100 ms |
| ExecutionPath.RunGoesOnIff | apps/runtime/executor.py:538-589 | a run that comes to a plan step starts and attempts it, and goes no further exactly if the step does not go on, is the last, or is cancelled |
| ExecutionPath.RunEndsAs | apps/runtime/executor.py:538-604 | a run that is not cancelled ends as its last step says: completed after a stop or the end of the plan, still running if interrupted, failed or escalated otherwise |
| ExecutionPath.RunWithoutSteps | apps/runtime/executor.py:525-604 | how a run without plan steps ends, and that it leaves no trace |
| ExecutionPath.StopSparesTheRest | apps/runtime/executor.py:557-565 | a plan of two steps stopped by the first reflection: the second is never started |
| RuntimeExecutor.Executor.ExecuteStep | apps/runtime/executor.py:353-456 | the retry loop ends, logs and reacts to a cancel as the value model says |
| RuntimeExecutor.Executor.Recover | apps/runtime/executor.py:567-589 | the except branch retries once more, escalates or fails as the value model says |
| RuntimeExecutor.Executor.TakeStep | apps/runtime/executor.py:539-589 | one turn of the loop |
| RuntimeExecutor.Executor.Steps | apps/runtime/executor.py:538-599 | the loop over the plan, and completion |
| RuntimeExecutor.Executor.Run | apps/runtime/executor.py:525-604 | the state is that of the value model and its results and effects are added to those there were; a completed run answers with its last text, an escalated one with its reason, a failed one with an error |
| RuntimeExecutor.CancelThenRun | apps/runtime/executor.py:162-189 | a cancel made before the run changes nothing about how it ends |
| Rbac.RecursionEndsIffAcyclic | apps/governance/rbac.py:66-76 | the recursion over inherited roles ends if and only if no inheritance path from the role runs into a cycle |
| Rbac.EffectiveMeans | apps/governance/rbac.py:66-76 | when it ends it returns exactly the permissions of the definitions on inheritance paths from the role |
| Rbac.RoleStore.EffectivePermissions | apps/governance/rbac.py:66-76 | the accumulating loop computes that union |
| Rbac.RoleStore.AssignRole | apps/governance/rbac.py:100-118 | assigns a role unless the user has one, and then changes nothing |
| Rbac.RoleStore.RevokeRole | apps/governance/rbac.py:121-128 | removes that assignment only |
| Rbac.RoleStore.HasPermission | apps/governance/rbac.py:79-97 | granted exactly to platform admins and, within their tenant, to users whose role is granted the permission by inheritance |
| RbacRuns.AssignmentsIndependentIff | apps/governance/rbac.py:100-128 | over a set of (tenant, user) pairs, every pair has after every run exactly the role its own operations gave it if and only if no two of the pairs share a key |
| RbacRuns.ColonFreeIsInjective | apps/governance/rbac.py:55 | tenants without a colon never share a key |
| RbacRuns.CollisionShares | apps/governance/rbac.py:100-118 | assigning a role to one of two pairs that share a key assigns it to both |
| RbacRuns.CollisionPermits | apps/governance/rbac.py:79-97 | under another pair with the same key an assignment permits everything to a platform admin and nothing to anyone else |
| RbacRuns.ColonsCollide | apps/governance/rbac.py:55 | two pairs that share a key |
| RbacRuns.PermissionsFollowAssignments | apps/governance/rbac.py:79-128 | after any run over tenants without a colon, a user has a permission in a tenant exactly when the role left in place there by that user's own operations is the platform admin's or is granted it by inheritance |
| Abac.DecidingIsTop | apps/governance/abac.py:146-176 | the deciding policy is the enabled matching one of highest priority, the earliest registered among equals; none decides only if none applies |
| Abac.OrderIrrelevantIff | apps/governance/abac.py:146-176 | a request is decided alike under every registration order if and only if the applying policies of highest priority agree in effect |
| Abac.DistinctPrioritiesIgnoreOrder | apps/governance/abac.py:146-176 | with distinct priorities registration order never matters |
| Abac.AddingKeepsDecision | apps/governance/abac.py:128-176 | adding an allowing policy never revokes access, adding a denying one never grants it, and one that does not apply changes nothing |
| Abac.RegisteringNewAppends | apps/governance/abac.py:79-83 | registering a new id adds the policy last |
| Abac.PolicyStore.Evaluate | apps/governance/abac.py:128-176 | the context is built from the attributes and the user's assignment, and the sort-then-scan loop returns the deciding policy's effect and id, else deny |
| AbacLaws.DisabledNeverDecide | apps/governance/abac.py:148-150 | a disabled policy never decides, and leaving it out changes no decision |
| AbacLaws.DeniedByDefault | apps/governance/abac.py:169-176 | where no policy applies access is denied, and where one decides its effect is the answer |
| AbacLaws.ResourcesWiden | apps/governance/abac.py:161-162 | a policy applies where one of its resource patterns does, so that another pattern only widens it; none listed means any |
| AbacLaws.ActionsWiden | apps/governance/abac.py:152-159 | the same for its actions |
| AbacLaws.ConditionsNarrow | apps/governance/abac.py:110-125 | each further condition narrows a policy |
| AbacLaws.UnknownActionIsRead | apps/governance/abac.py:152-156 | an action the enumeration does not know is decided as a read |
| AbacLaws.MatchesByCase | apps/governance/abac.py:101-107 | a list is matched by its elements, a text with a star as a pattern, anything else by equality |
| AbacLaws.LookupFinds | apps/governance/abac.py:114-122 | a condition reads the attribute of its name, else the first whose name ends with it, else null |
| AbacLaws.AssignmentOverridesAttributes | apps/governance/abac.py:139-144 | role, tenant and user of the assignment stand, whatever the attributes claim |
| AbacLaws.RegisteringKnownReplaces | apps/governance/abac.py:79-83 | registering a known id puts the policy in the place of the old one |
| Quota.SequentialCallsStayWithin | apps/governance/main.py:456-466 | one call at a time never passes the limit, and the check refuses an active tenant's calls exactly at the limit |
| Quota.InterleavedCallsBounded | apps/governance/tenant.py:222-253 | with W workers interleaving `check_quota` and the increment, and resets, task counts and other tenants' calls in between, a count that starts within the limit never passes limit + W - 1 |
| Quota.BoundIsReached | apps/governance/tenant.py:222-253 | and reaches it whenever the tenant may make one last call |
| QuotaLaws.AdmittedIff | apps/governance/tenant.py:233-253 | a call is admitted exactly for a known, active tenant whose limits are lifted or not reached, and which refusal is named |
| QuotaLaws.UnlimitedIsNeverRefused | apps/governance/tenant.py:233-253 | an active tenant without limits is never refused in any run |
| QuotaLaws.TaskLimitRefuses | apps/governance/tenant.py:249-251 | at its task limit a tenant is refused every call and nothing changes, below it is not |
| QuotaLaws.EveryCallIsCounted | apps/governance/tenant.py:222-230 | over any run of an unlimited tenant the count is that of its calls since the last reset |
| QuotaLaws.TasksStand | apps/governance/tenant.py:256-266 | calls and resets leave the reported tasks alone |
| QuotaLaws.FirstCallCounts | apps/governance/tenant.py:222-240 | a tenant without a usage record is admitted, and its first call counts as 1 |
| Quota.TenantStore.UpdateQuota | apps/governance/tenant.py:202-213 | changes the given fields of that tenant only |
| Quota.TenantStore.SetUsage | apps/governance/tenant.py:256-266 | sets the given fields of a known tenant's usage only |
| Quota.TenantStore.IncrementApiCalls | apps/governance/tenant.py:222-230 | counts one call and returns the new count |
| Quota.TenantStore.RecordApiCall | apps/governance/main.py:456-466 | refuses with the check's reason and no change, or counts one call |
| Alerts.EvaluationOfARule | apps/ops_center/engine.py:91-122 | after an evaluation an active rule fires exactly if its condition holds, with one alert exactly if it did not fire before; other rules are left alone |
| Alerts.EvaluationIsIdempotent | apps/ops_center/engine.py:91-122 | evaluating the same metrics again raises and changes nothing |
| Alerts.AlertsAreRisingEdges | apps/ops_center/engine.py:91-122 | over any samples the alerts of a rule kept active number the rising edges of its condition |
| AlertLaws.ComparisonsMean | apps/ops_center/engine.py:62-75 | the six operators are three pairs of opposites, strict or not at the threshold, ordered by the value; an unknown one never fires |
| AlertLaws.OnlyItsMetricMatters | apps/ops_center/engine.py:101-102 | a metric that was not measured counts as 0, and no other metric matters to a rule |
| AlertLaws.RaisedAlertsAreTrue | apps/ops_center/engine.py:103-114 | every alert raised is of an active rule that did not fire, and tells the value that made it fire |
| AlertLaws.RaisedInOrder | apps/ops_center/engine.py:96-114 | alerts are raised in the order of registration |
| AlertLaws.FiringAlertsStay | apps/ops_center/engine.py:103-114 | an alert that keeps firing stays the one it was |
| Alerts.AlertEngine.RegisterRule | apps/ops_center/engine.py:78-82 | registers or replaces the rule and keeps ids distinct |
| AlertLaws.NewRuleIsLast | apps/ops_center/engine.py:78-82 | a new rule is added last |
| AlertLaws.KnownRuleIsReplaced | apps/ops_center/engine.py:78-82 | a rule with a known id takes the place of the old one |
| Alerts.AlertEngine.EvaluateRules | apps/ops_center/engine.py:91-122 | the loop computes the evaluation of the value model |
| Alerts.AlertEngine.UpdateRuleState | apps/ops_center/engine.py:136-144 | sets the state of a known rule; muting silences its alert |
| FrontMatter.Find | apps/ops/routers/oracle.py:23 | the first occurrence from the start index on, none only if there is none |
| FrontMatter.DashesAreALine | apps/ops/routers/oracle.py:21-25 | a text has a line that reads `---` exactly where its characters say so |
| FrontMatter.EarlyMarkIffDashes | apps/ops/routers/oracle.py:118 | the uploaded layout holds a closing mark before the real one exactly if a later header line reads `---` |
| FrontMatter.RoundTripIff | apps/ops/routers/oracle.py:19-28 | an uploaded archive reads back as its header and its body after two newlines, whatever the body, if and only if no header line after the first reads `---` |
| FrontMatter.NoHeader | apps/ops/routers/oracle.py:21-25 | a text that does not open with the mark or never closes it is all body |

## Left out

- Quota.InterleavedCallsBounded: is about a tenant with a usage record (registration creates one) and a count that is not negative, under a fixed quota and status.
- Rbac.RoleStore.HasPermission: expects that no inheritance cycle can be reached from the user's role, since the source's recursion does not end otherwise.
- Conversation.CompressedParts: a summary stands for its two counts, not for the rendered text; `max_recent` is not negative.
- SidecarServer.CutIsIrrelevantIff: a reply written after `socket.end()` is lost and has no other effect; that the socket library reports such a write as an error, and may then close the connection, is not modelled.
- SidecarClient.Invoke: the time limit on each read is not modelled.
- SidecarClient.AwaitFindsFirstAnswer: the longest line asyncio reads by default, beyond which `readline` raises, and the time limit on each read are not modelled.
- Timestamps other than deadlines, clocks and last uses; comments; requester, tenant and resource fields carried along unchanged.
- Errors that converting an attribute to a number can raise while routing an approval request.
- Bytes and UTF-8: the protocol is modelled on characters.
- `list_changes` filtering, namespaces and subscribers of the configuration store: simple lookups.
- HTTP routes, LLM prompts and the extraction of JSON from model output, SQLite, files, logging and keys.
- Usage statistics, skill lifecycle, connector registry, model routing and the frontend: plumbing or easy facts.
