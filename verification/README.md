# Verified model of the ProMarshal check-in, agent and action-item cores

ProMarshal runs daily check-ins ("cadence" sessions) over chat, drives them with a language model that calls
tools, and keeps a list of action items per project.  This project models the parts of it whose correctness is
a matter of what happens over whole runs, and proves what they keep.

* **Cadence sessions.**  A session is one database document changed by many small atomic updates.
  `SessionModel` gives the document, every update as a value, its effect, and which updates a handler may compute
  from an arbitrarily old copy; its main theorem covers every interleaving of any number of writers.
  `SessionRepositoryModel` is the repository of one worker (filter, lease stamp, atomic update).  It carries the
  history of the document, from which a handler may take a copy of any age, and only accepts updates that
  `SessionModel.Emits` allows for that copy, so all handlers of `Backlog`, `StatusClarificationFlow`, `CadenceTurn` and
  `Modal` are covered by the interleaving theorem.  `CadenceTurn` is a whole direct-message turn, routed by a copy
  that may be older than the document, in which the model may call any tools in any order over any number of
  fallback attempts; `Conversation` bounds the number of turns that get somewhere.  `ExpiryNotice`, `Lease` and
  `DailySummary` are state machines of concurrent senders, workers and finalisers.
* **Agent tool calls.**  `ToolRuntime` is the per-turn state of the agent executor: guard, budgets, grounding of
  write targets, growth of the known references.  `OperationReplay` is the replay cache with its time to live.
* **Action items.**  `ActionItems` builds the two halves of an update document; `ActionItemStoreModel` is the store
  with its dedupe window, display-key counter and table of pending clarifications; `Followups` the reminder,
  escalation and digest runs; `KeyMigration` the one-time key rewrite.
* **Text, time and settings.**  `PhraseMatch` and `StatusOutcome` (phrase tests are token tests), `DueDates`,
  `Tallies`, `Settings`.  `Options`, `Text`, `Numbers`, `DisplayKeys`, `Grouping` and `TaskUpdate` hold what the others share.

Chat, the task provider, the language model, the database driver and the lock store appear as inputs: what they
answer is a parameter or a field of an input value, so every result holds for every answer.  Digests are
function parameters; results that need a collision-free digest say so.

Where the code and its surroundings disagree, the model follows the code, and the difference is a lemma:

* `VALID_TRANSITIONS` is not enforced; only the set of statuses is used.  Completed sessions are reopened
  (`SessionModel.ReopenedStaysTerminal`), and a completed session is terminal exactly while nobody records
  `terminal=False` on it (`SessionModel.CompletedMeansTerminalIff`).
* The number of tasks stays constant over a run exactly for a non-empty agenda or while no task-field edit
  commits (`SessionModel.TaskCountConstantIff`, `SessionModel.EmptyAgendaCanGrow`).
* The index is monotone exactly when advances are computed from copies at most one position old
  (`SessionModel.AdvanceMonotoneIffFresh`, `SessionModel.IndexMonotoneWhenSerialised`).
* The queue reads its copy of the session before it waits for the lease.  A turn on an open status question moves
  the agenda exactly if that copy stands at the stored index or a moving tool ran (`CadenceTurn.ProgressIff`); a
  quick second reply does nothing (`CadenceTurn.QuickReplyStalls`, `CadenceTurn.QuickRepliesStall`) and a late one reopens a
  completed session (`CadenceTurn.LateReplyReopens`).  Two replies to a backlog clarification read from one copy keep
  it open (`Backlog.BoundHoldsIffReadAfterFirst`, `Backlog.RepliesFromOneCopy`), and a form submitted twice passes over a
  task (`Modal.SecondSubmission`).
* What the user said about a status is lost when the comment made in its place raises (`CadenceTurn.SayingIsKept`).
* A status clarification has no cap on retries while the provider does not offer the status asked for
  (`StatusClarificationFlow.UnofferedNeverEnds`).
* Removing a backlog task is read-then-write; it conserves tasks exactly if the list did not change in between
  (`Backlog.RemovalConservesIff`, `Backlog.ConcurrentPicksLoseCount`).  The task recorded as picked is the one moved at
  the provider exactly if the list still has it at that position (`Backlog.RecordedIsMovedIff`).
* Operation ids know nothing of the agenda position, so a call repeated for a later task is answered from the
  cache (`OperationReplay.StoredCallIsReplayed`).
* The lease fences by the latest stamp, not by the higher token (`Lease.LateStampWins`), and not at all without
  enforcement (`Lease.UnenforcedTakesBack`).
* One sender at a time holds the expiry notice exactly as long as no clear of a claim without a user takes effect
  and raises (`ExpiryNotice.SafeIffNoDoubleClear`); after such a clear two senders tell the user
  (`ExpiryNotice.DoubleClearTellsTwice`), one of them even after the mark.  A mark that raises after the message went
  out lets a second notice go out (`ExpiryNotice.FailedMarkRepeats`), and a refused message is marked all the same
  (`ExpiryNotice.MarkedMeansToldIff`).  A session reopened between claim and message is told it has expired
  (`ExpiryNotice.ReopenedIsTold`).
* An update with a blank or unknown status leaves a closed item's closing fields behind
  (`ActionItems.ClosedFieldsKeptIff`).
* Creations are never refused for a taken display key exactly if no key is numbered above the counter
  (`ActionItemStoreModel.NeverRefusedIff`); with both legacy counters present only the first is taken over, which is
  right exactly if the second was not ahead of it (`ActionItemStoreModel.TwoLegacyCountersIff`).
* A reminder run that breaks off between telling and stamping tells again later
  (`Followups.UnstampedKeepsOnceIff`, `Followups.AnnouncedAgain`).
* A dry run of the key rewrite over-counts exactly when two keys share a new key (`KeyMigration.DryRunExactIff`).
* "next" or "this" and a weekday are recognised with any white space between them, but understood exactly if its only
  blank is the last character, and then as promised exactly for a single blank or for "this" and a day still to come
  (`DueDates.UnderstoodIff`, `DueDates.PromiseKeptIff`); a line wrapped between the words gives a day in the past
  (`DueDates.WrappedLineGoesBack`).

## Model

| member | source | states |
|---|---|---|
| SessionModel.SessionInvariant | api/app/cadence/session_store.py:219-642 | in every interleaving of any writers working from arbitrarily old copies: status among the valid ones, index in bounds, a payload exactly in the clarification states with its retry count in range, closing fields on completed sessions, has_backlog in step with the list, the task count never shrinking and fixed once positive |
| SessionModel.StepKeepsInv | api/app/cadence/session_store.py:393-517 | one update computed from an older copy keeps all of that on the current document |
| SessionModel.NothingElseChanges | api/app/cadence/session_store.py:219-780 | for every update of the store, with the fields it names put back the document is the one it started from |
| SessionModel.StateSetters | api/app/cadence/session_store.py:393-498 | the state setters and the two questions leave the session open in the state asked for, with a payload exactly for a question |
| SessionModel.QuestionRoundTrip | api/app/cadence/session_store.py:473-517 | a question asked and left for the state before it gives the document back, but for an earlier payload and the closing fields |
| SessionModel.OverallAnswerKept | api/app/cadence/session_store.py:431-451 | an empty answer counts as skipped and is not kept, any other is kept as given |
| SessionModel.NoticeUpdates | api/app/cadence/session_store.py:692-779 | a granted claim and its clear cancel out, and a mark leaves the notice sent and unclaimed |
| SessionModel.OutcomeRecorded | api/app/cadence/session_store.py:645-689 | what is given replaces what was there, and a reason code is added to the others |
| SessionModel.CreatedSatisfiesInv | api/app/cadence/session_store.py:49-192 | exactly which initial states a created session may have for the invariant to hold |
| SessionModel.EmptyAgendaCanGrow | api/app/cadence/agent_tools.py:116-122 | a task-field write on a completed session without tasks, as a queued second reply makes it, creates element 0 |
| SessionModel.TaskCountConstantIff | api/app/cadence/session_store.py:219-335 | over a run the task count is constant exactly if the agenda starts non-empty or no task-field edit commits |
| SessionModel.TerminalStep | api/app/cadence/session_store.py:605-689 | which single update breaks "completed means terminal" |
| SessionModel.ClosingTellsResponse | api/app/cadence/session_store.py:605-689 | a completed session counts as responded exactly for the seven reasons of an answered check-in, a timed-out or cancelled one never; what a closing update stores and leaves |
| SessionModel.CompletedMeansTerminalIff | api/app/cadence/session_store.py:645-689 | over a run, every completed document is terminal exactly when no committed update records terminal=False on a completed one |
| SessionModel.ReopenedStaysTerminal | api/app/cadence/session_store.py:393-428 | re-entering a phase clears the closing fields and leaves outcome.terminal true |
| SessionModel.AdvanceMonotoneIffFresh | api/app/cadence/session_store.py:337-386 | an update moves the index back exactly if it is an advance from a copy at least two positions behind |
| SessionModel.IndexMonotoneWhenSerialised | api/app/cadence/session_store.py:337-386 | with fresh enough copies the index never decreases over a run |
| SessionRepositoryModel.SessionRepository.UpdateById | api/app/sessions/repository.py:344-379 | the filter, the stamp beside the update, all or nothing, and that being shut out never changes by one's own writes |
| SessionRepositoryModel.SessionRepository.MoveToNextTask | api/app/cadence/session_store.py:337-386 | the exact document after, and that "more tasks" means a successor existed in the copy read |
| SessionRepositoryModel.SessionRepository.PersistTaskField | api/app/cadence/agent_tools.py:89-122 | under enforcement a write without a token, and anywhere a write with a token other than the stored one, changes nothing |
| SessionRepositoryModel.SessionRepository.DocumentInvariant | api/app/cadence/session_store.py:219-642 | the session invariant for every document of the history a worker's handlers produced |
| OperationReplay.NoConflictWithoutCollision | api/app/agent_runtime/executor.py:1387-1411 | with a collision-free digest the conflict answer never occurs and a replay returns what the very same call stored |
| OperationReplay.StoredCallIsReplayed | api/app/agent_runtime/executor.py:1387-1411 | while an entry lives the same call finds it, matches it and gets the result of an execution of that call |
| OperationReplay.AliveIffStoredSince | api/app/agent_runtime/executor.py:1387-1426 | an entry answers calls exactly while some stored call with its id is younger than the time to live; after that the call runs again |
| OperationReplay.StopKeepsInv | api/app/agent_runtime/executor.py:1340-1411 | a call answered without running its tool keeps at-most-once and the explanation of every replay |
| OperationReplay.RunKeepsInv | api/app/agent_runtime/executor.py:1413-1426 | a call that ran because no live entry could be read keeps at-most-once success per live entry |
| OperationReplay.OperationReplayCache.Lookup | api/app/agent_runtime/executor.py:1340-1411 | refuse, replay, conflict or run, and the log entry of each |
| OperationReplay.OperationReplayCache.Finish | api/app/agent_runtime/executor.py:1413-1426 | only a successful result is stored, under the derived id, for its full time |
| ToolRuntime.ExtractFromMapping | api/app/agent_runtime/executor.py:904-922 | exactly the values under identifier keys, canonicalised, once each, never the operation id |
| ToolRuntime.ExtractTargetRefs | api/app/agent_runtime/executor.py:899-933 | exactly the references of the result and its nested mappings |
| ToolRuntime.CanonicalForm | api/app/agent_runtime/executor.py:904-910 | the stored form of an identifier differs in case only: no small letters with a dash in it, unchanged without one |
| ToolRuntime.RefKeyIff | api/app/agent_runtime/executor.py:912-922 | a key gives references exactly if it is id or entity_key, or ends in _id in any case without being the operation id |
| ToolRuntime.SameRefIff | api/app/agent_runtime/executor.py:1156-1174 | a stored reference and a target are one in any case, white space around the stored one aside |
| ToolRuntime.InMessageIff | api/app/agent_runtime/executor.py:1145-1172 | a message names a target exactly if it has some text and spells the target somewhere, in any case |
| ToolRuntime.NoRepeatedAdmission | api/app/agent_runtime/executor.py:855-879 | under the guard no two admitted calls of a turn have the same tool and arguments, operation ids aside |
| ToolRuntime.KeysApart | api/app/agent_runtime/executor.py:854-873 | two calls have one key exactly if they are for the same tool with the same arguments, operation ids aside |
| ToolRuntime.TurnBudget | api/app/agent_runtime/executor.py:785-802 | a per-attempt budget bounds the admitted calls of the whole turn by budget times attempts |
| ToolRuntime.GuardAppend | api/app/agent_runtime/executor.py:769-879 | one more call keeps distinct keys, the write counter equal to the writes admitted, and both budgets |
| ToolRuntime.RuntimeRefsAreGrounded | api/app/agent_runtime/executor.py:644-648 | a runtime reference was given initially or came in an earlier successful result |
| ToolRuntime.AgentExecutor.StartAttempt | api/app/agent_runtime/executor.py:283-296 | a new attempt empties the trace and keeps the turn's context, and all guarantees |
| ToolRuntime.AgentExecutor.Admit | api/app/agent_runtime/executor.py:769-879 | when exactly a call is admitted, which refusal means what, and the counters after |
| ToolRuntime.AgentExecutor.UngroundedTargets | api/app/agent_runtime/executor.py:1113-1196 | exactly the identifier targets of a non-idempotent call found in no source, once each |
| ToolRuntime.AgentExecutor.KnownIffGrounded | api/app/agent_runtime/executor.py:1145-1177 | at any point of a turn a target is known exactly if the message, the snapshot, the given references or an earlier successful answer has it |
| ToolRuntime.AgentExecutor.OperationIdDerived | api/app/agent_runtime/executor.py:1376-1388 | a write tool gets its prepared arguments and, whatever was passed, the digest of tool, run, session, scope and arguments as operation id |
| ToolRuntime.AgentExecutor.SuppliedIdIgnored | api/app/agent_runtime/executor.py:1376-1388 | an operation id in the arguments changes neither guard key nor operation id nor what the tool receives |
| ToolRuntime.AgentExecutor.Invoke | api/app/agent_runtime/executor.py:1055-1111 | when exactly the tool of an admitted call runs: permission, prepared arguments and, for a write, all targets known, a guard store that is up or may be done without, and no readable live entry; what it gets, what is logged, and that a live entry of the same call is what is answered |
| ToolRuntime.AgentExecutor.RunToolCall | api/app/agent_runtime/executor.py:569-690 | one more record, told from the calls before it and the log of the replay cache: let through exactly within the budgets and the running time and unless an admitted call of the turn was for the same tool with the same arguments; run exactly if then permitted, prepared and, for a write, grounded and not stored within the time to live; its arguments and answer; runtime references only growing |
| ToolRuntime.AgentExecutor.Run | api/app/agent_runtime/executor.py:110-269 | over all fallback attempts, ended by an answer or by the turn limit: every call recorded, distinct admitted calls, write and total budgets, every refusal as a duplicate with an admitted call it repeats, every write that ran grounded in the message, the snapshot or an earlier successful result; without the guard everything is admitted |
| PhraseMatch.PaddedSubstringIffRun | api/app/cadence/orchestrator.py:427-437 | padded substring exactly when the tokens are a contiguous run |
| PhraseMatch.PhraseMatchIsTokenMatch | api/app/cadence/orchestrator.py:427-437 | the phrase test of any table of normal phrases is a token test |
| Text.FirstWord | api/app/cadence/orchestrator.py:427-428 | splitting a text: after any white space, a token up to the next white space or the end is the first, and the rest is split the same way |
| PhraseMatch.TokensInAnyCase | api/app/cadence/orchestrator.py:427-428 | the case of a text makes no difference to its tokens |
| StatusOutcome.SignalsAreWords | api/app/cadence/orchestrator.py:460-471 | the terminal and non-terminal signals are statements about the words of the text |
| StatusOutcome.ResolvedIffTextAgrees | api/app/cadence/orchestrator.py:460-536 | a candidate is resolved exactly if known and not contradicted by the words, and anything else asks for clarification |
| StatusOutcome.RefusalKind | api/app/cadence/orchestrator.py:460-536 | which refusals are invalid and which ambiguous, with their codes, confidence and the candidate kept for the question |
| CadenceTurn.SayingIsKept | api/app/cadence/agent_tools.py:189-311 | when a status is stored, when the user's words become a comment instead, and exactly when nothing is kept: a refused comment on an unchanged status, or a status not applied whose fallback comment raised |
| CadenceTurn.NormalizedAlike | api/app/cadence/agent_tools.py:84-196 | two statuses count as one exactly if they agree but for case, surrounding white space, and blanks, dashes and underscores |
| CadenceTurn.EditStored | api/app/cadence/agent_tools.py:149-380 | what each tool makes of the current task: the status as given, the comment as given, a comment holding the user's words, or nothing, and exactly when which |
| CadenceTurn.SpecsAre | api/app/cadence/agent_tools.py:149-561 | the names the tools are registered under, and the one that is not a non-idempotent write |
| CadenceTurn.MayWriteIff | api/app/cadence/agent_tools.py:89-122 | a task field may be written without a lease exactly while the switch is off, and with one exactly while the document carries its token |
| CadenceTurn.RunTool | api/app/cadence/agent_tools.py:149-561 | what one tool run does to the session: the field of the current task it stores exactly when the write is allowed, the advance or the completion, and nothing else of status, index and backlog |
| CadenceTurn.RunUse | api/app/agent_runtime/executor.py:569-690 | one more record, decided from those before it; the session is as the tool leaves it if the call ran, and untouched otherwise |
| CadenceTurn.EveryUseDone | api/app/agent_runtime/executor.py:569-690 | in a turn every call was decided from the calls before it, and took the document from one stage to the next exactly if its tool ran |
| CadenceTurn.TraceWorked | api/app/agent_runtime/executor.py:110-269 | all the calls of a turn together: the index rises by at most the admitted writes, and the status stays or is one an advance or completion sets |
| CadenceTurn.RunAgent | api/app/agent_runtime/executor.py:110-269 | every call of the attempts made, in order, until one answers or hits the turn limit, with the document before and after each; over arbitrary tool sequences the index moves by at most the admitted writes and the status stays or is one an advance or completion sets |
| CadenceTurn.PostRun | api/app/cadence/orchestrator.py:1732-1803 | where each possible document after the model's run is taken |
| CadenceTurn.TurnAdvances | api/app/cadence/orchestrator.py:1732-1803 | what the tools and the step after them make of any stored document, for a copy with any index: further on with a moving tool, reopened if it was completed, further on from a status question exactly at the copy's index, and otherwise where it was |
| CadenceTurn.ProgressIff | api/app/cadence/orchestrator.py:1732-1803 | from an open status question a turn gets further exactly if its copy stands at the stored index or a moving tool ran, and otherwise changes neither status nor index |
| CadenceTurn.QuickReplyStalls | api/app/cadence/queued.py:79-157 | the second of two quick replies, read before the first was dealt with, leaves the agenda at the second task |
| CadenceTurn.QuickRepliesStall | api/app/cadence/orchestrator.py:1732-1803 | any number of turns from copies at another index, without a moving tool, leave status and index as they are |
| CadenceTurn.LateReplyReopens | api/app/cadence/orchestrator.py:1738-1743 | a turn of the agent path that finds the session completed reopens it, at the overall question or with a moving tool at a later task, whatever its copy said |
| CadenceTurn.AgentTurn | api/app/cadence/orchestrator.py:1672-1803 | the agent path from a copy with any index on any stored document: the calls of the attempts on that document and the step after them, the outcome above, the index grown by at most the write budget (one more for a copy ahead of the store), and a shut-out turn changing nothing |
| CadenceTurn.ActiveIff | api/app/cadence/session_store.py:559-572 | a task is active exactly if its final status reads as one of four words but for case, white space around it, and blanks for underscores |
| CadenceTurn.CountActive | api/app/cadence/session_store.py:559-572 | the number of tasks whose final status is an active one |
| CadenceTurn.SendBacklogNudge | api/app/cadence/interaction_handler.py:1028-1088 | completed, skipped by policy, or at the decision with the prompt recorded, depending on backlog and workload |
| CadenceTurn.OverallTurn | api/app/cadence/orchestrator.py:1623-1637 | the answer is stored and the session completes or reaches the backlog decision, exactly when which: whether there is a backlog to offer is asked of the copy, the rest of the store |
| CadenceTurn.HandleDm | api/app/cadence/orchestrator.py:1597-1803 | routing of a reply by the status of its copy, of any age, over all states, with the whole outcome of each, on the agent path with every call the model made; backlog tasks stay accounted for; a shut-out turn is a no-op |
| CadenceTurn.DistanceShrinks | api/app/cadence/orchestrator.py:1732-1803 | a productive turn brings the session strictly nearer to its end and no turn of the agent path takes it further away |
| CadenceTurn.Conversation | api/app/cadence/orchestrator.py:1597-1803 | with every reply read from whatever copy: at most one productive turn per remaining task and one more, after which the session is completed or at the backlog decision; turns that read the present document are all productive |
| Backlog.RemovedIsAccounted | api/app/cadence/session_store.py:1051-1077 | removing a position takes exactly that task from the multiset |
| Backlog.RemovalConservesIff | api/app/cadence/session_store.py:1051-1097 | a removal from an old copy conserves tasks exactly if the list held the same tasks at the write |
| Backlog.ConcurrentPicksLoseCount | api/app/cadence/session_store.py:1051-1097 | two picks from the same copy put one task back and record it too |
| Backlog.RemoveBacklogTaskAtIndex | api/app/cadence/session_store.py:1051-1077 | the removed task and the list left |
| Backlog.PickStart | api/app/cadence/interaction_handler.py:1176-1271 | for a position chosen from any earlier copy, when exactly a pick goes through, which failure it ends in otherwise, what it does to list, record and phase (the last one completes), and that remaining plus picked never changes |
| Backlog.RecordedIsMovedIff | api/app/cadence/interaction_handler.py:1216-1255 | the task recorded as picked is the one moved at the provider exactly if the list read at the removal has it at the position chosen |
| Backlog.OvertakenPickRecordsNeighbour | api/app/cadence/interaction_handler.py:1216-1255 | a pick that overtakes another moves one task and records its neighbour |
| Backlog.ShowRequest | api/app/cadence/interaction_handler.py:1091-1137 | the pick state, completion of an exhausted backlog, or nothing |
| Backlog.SkipRequest | api/app/cadence/interaction_handler.py:1140-1173 | an open session completes as deferred, a closed one stays |
| Backlog.ChoiceState | api/app/cadence/orchestrator.py:1038-1207 | for every reply in the decision and pick states, handled from any copy: the pick applied exactly when it succeeds, the session deferred, shown, asked about again or left as it was |
| Backlog.ClarificationState | api/app/cadence/orchestrator.py:916-1035 | for every reply handled from any copy: the pick applied exactly when it succeeds and otherwise the state it came from; deferred, shown or left after a resolved or rejected reply; one more retry or the last one used up after any other |
| Backlog.OpenIffCopyHadRoom | api/app/cadence/orchestrator.py:986-1020 | in a series of unresolved replies read from any earlier copies, one leaves the clarification open exactly if its own copy had room for another retry |
| Backlog.ClarificationBounded | api/app/cadence/orchestrator.py:986-1020 | with each reply read from the document its predecessor left, a clarification is left at exactly the (2 - retries)-th unresolved reply, to the state it came from, with the backlog untouched |
| Backlog.BoundHoldsIffReadAfterFirst | api/app/cadence/orchestrator.py:986-1020 | the second unresolved reply ends a fresh clarification exactly if it was not read from the first document again |
| Backlog.RepliesFromOneCopy | api/app/cadence/orchestrator.py:986-1020 | any number of unresolved replies read from one copy leave the clarification open |
| StatusClarificationFlow.StatusClarificationState | api/app/cadence/orchestrator.py:1280-1471 | for every reply handled from any copy: asked again with one more retry, put back to the status question, or the task updated with what the reply says and the agenda taken on, exactly when which |
| StatusClarificationFlow.AdvanceAfterUpdate | api/app/cadence/orchestrator.py:1231-1277 | the task at the payload's position carries the change, and the agenda is at the overall question after the copy's last task, one further, or completed |
| StatusClarificationFlow.UnofferedNeverEnds | api/app/cadence/orchestrator.py:1333-1395 | replies asking for a status the provider does not offer keep the question open however many there are, while unclear ones end it by the count |
| TaskUpdate.StoreChange | api/app/cadence/interaction_handler.py:605-628 | the named task carries the new status, the comment and the provider mark exactly when each applies, and nothing else of the agenda differs |
| Modal.HandleSubmission | api/app/cadence/interaction_handler.py:546-657 | for a submission handled from any copy: behind the copy's index it changes nothing; the last task leads to the overall question each time; any other stores its values and moves the stored index on |
| Modal.FreshSubmission | api/app/cadence/interaction_handler.py:571-657 | from the present document a submission before the last task moves the index by exactly one |
| Modal.SecondSubmission | api/app/cadence/interaction_handler.py:571-657 | a form submitted twice is ignored the second time if read after the first, and otherwise passes over the next task |
| ExpiryNotice.StepKeepsInv | api/app/cadence/interaction_handler.py:75-114 | each step of a sender or another writer, any of which may raise before or after it took effect, keeps one holder and the message count, but for the one clear named below |
| ExpiryNotice.ClaimGrantedIff | api/app/cadence/session_store.py:717-747 | a claim that does not raise is granted exactly while the stored reason is the timeout and neither stamp is set |
| ExpiryNotice.MessageWasGranted | api/app/cadence/interaction_handler.py:87-109 | a message goes out only by a sender that was granted its claim on such a document |
| ExpiryNotice.NoTimeoutNoNotice | api/app/cadence/interaction_handler.py:75-114 | over a run in which the session is never timed out nobody is told |
| ExpiryNotice.ReopenedIsTold | api/app/cadence/interaction_handler.py:87-109 | a session reopened between claim and message is told all the same |
| ExpiryNotice.RaisedSteps | api/app/cadence/interaction_handler.py:87-114 | what each step leaves when it raises: a failed sender to clear its claim, or nobody after a claim that raised |
| ExpiryNotice.AloneIsToldAndMarked | api/app/cadence/interaction_handler.py:87-110 | a sender left alone tells the user once and marks the notice |
| ExpiryNotice.AloneGivesBack | api/app/cadence/interaction_handler.py:101-105 | a sender left alone that finds no user leaves the document as it found it and tells nobody |
| ExpiryNotice.AtMostOneNotice | api/app/cadence/interaction_handler.py:75-114 | in every interleaving without such a clear at most one holder, and messages exceed by at most one those cleared after going out |
| ExpiryNotice.SafeIffNoDoubleClear | api/app/cadence/interaction_handler.py:101-114 | from any sound state of a timed-out session with two more senders about, every clean continuation keeps one holder and the bound exactly if the step is not a clear of a claim without a user that takes effect and raises |
| ExpiryNotice.ClearedOnceIsReached | api/app/cadence/interaction_handler.py:101-114 | the state with the claim cleared once and about to be cleared again is reached from the start of any timed-out session |
| ExpiryNotice.DoubleClearTellsTwice | api/app/cadence/interaction_handler.py:101-114 | after such a clear the repeated one takes another sender's claim away, two hold it, and the user is told twice with none lost |
| ExpiryNotice.DoubleClearSendsAfterMark | api/app/cadence/interaction_handler.py:101-114 | one of the two sends after the other marked the notice |
| ExpiryNotice.NothingAfterMark | api/app/cadence/session_store.py:692-779 | in clean runs, once marked, no claim and no further message, ever |
| ExpiryNotice.LostExactlyByClearing | api/app/cadence/interaction_handler.py:111-114 | the count of repeated messages grows exactly by clearing the claim of one that had gone out unmarked |
| ExpiryNotice.ToldOnceUnlessLost | api/app/cadence/interaction_handler.py:75-114 | in a clean run without such a clear the user is told at most once |
| ExpiryNotice.FailedMarkRepeats | api/app/cadence/interaction_handler.py:107-114 | a mark that raises leads to a second message |
| ExpiryNotice.MarkedMeansToldIff | api/app/integrations/slack/client.py:268-305 | in a clean run a marked notice reached the user exactly if no refused message was marked |
| ExpiryNotice.RefusedIsMarked | api/app/integrations/slack/client.py:303-305 | a refused message is marked as sent, and nobody is told later |
| Lease.EnterTurn | api/app/cadence/queued.py:127-218 | the entry decision for every pair of acquisition results |
| Lease.TokensUnique | api/app/core/session_lease.py:34-62 | no two workers ever hold the same token |
| Lease.OnlyLastStampCommits | api/app/cadence/queued.py:177-196 | under enforcement, between stamps only the last stamper's leased writes take effect and tokenless task-field writes never do |
| Lease.SupersededForever | api/app/sessions/repository.py:352-373 | a worker replaced while in the body is shut out of the document for good |
| Lease.UnenforcedTakesBack | api/app/sessions/repository.py:352-373 | without enforcement a replaced worker's write goes through and takes the stamp back |
| Lease.LateStampWins | api/app/cadence/queued.py:177-196 | a lower token stamped later shuts out a higher one |
| Lease.ExclusiveWhileLocked | api/app/core/session_lease.py:34-62 | while locks are neither lost nor orphaned, at most one leased worker is active |
| Lease.DroppedStaysOut | api/app/cadence/queued.py:151-173 | a worker contended twice never enters the body and commits nothing |
| Lease.UndisturbedTurn | api/app/core/session_lease.py:34-62 | a worker that meets a free lock and is left alone gets it, stamps, writes under its lease and frees it |
| Lease.ContendedTwice | api/app/cadence/queued.py:135-173 | a worker that meets another's lock twice is dropped and leaves lock and document alone |
| Lease.UnleasedEntry | api/app/cadence/queued.py:197-218 | without an answer of the lock store a worker enters without a lease, and writes task fields exactly without enforcement |
| Lease.ReleaseFreesOwn | api/app/core/session_lease.py:129-154 | leaving the body frees the lock exactly if it is the worker's own and the store answers |
| Lease.FailedStampShutsOut | api/app/cadence/queued.py:177-196 | under enforcement a worker whose stamp failed writes nothing |
| Settings.Settings.ApplyDefaults | api/app/core/config.py:334-368 | heartbeats strictly below their time to live, total budget at least the write budget, sane values kept |
| Settings.RenewedInTime | api/app/cadence/queued.py:27-44 | each renewal comes before the lock runs out exactly if the heartbeat and the time the renewal takes are shorter than the time to live |
| Settings.Heartbeat | api/app/cadence/queued.py:27-44 | the renewals stop for good at the first that is late or not answered, and the lock runs out one time to live after the last one in time |
| ActionItems.BuildUpdate | api/app/action_items/service.py:540-594 | the two halves of the update, field by field |
| ActionItems.TextAfterUpdate | api/app/action_items/service.py:542-555 | a text of a request replaces the field, stripped, in small letters for types and status; a blank one removes it, none leaves it |
| ActionItems.DatesAfterUpdate | api/app/action_items/service.py:556-567 | a date replaces the field, a null removes it, and no request reaches the fields of the creation |
| ActionItems.HalvesDisjoint | api/app/action_items/service.py:540-598 | no field is both set and unset |
| ActionItems.ClosedFieldsKeptIff | api/app/action_items/service.py:584-598 | closing fields stay in step with the status except exactly for a closed item given a status that is none of open, done, cancelled |
| ActionItems.FollowupFieldKept | api/app/action_items/service.py:574-582 | needs_followup_set_at is present exactly with needs_followup after every update |
| ActionItems.LifecycleKept | api/app/action_items/service.py:540-598 | the whole lifecycle is kept exactly by requests whose status is absent or known |
| ActionItemStoreModel.NewItem | api/app/action_items/service.py:348-372 | a created item is open, satisfies the lifecycle and needs follow-up exactly when title or owner is missing or the request says so |
| ActionItemStoreModel.NewItemHolds | api/app/action_items/service.py:348-372 | a created item holds every field of the request with its value, its creator and its times, and nothing besides the service's own fields |
| ActionItemStoreModel.FollowupForWantOf | api/app/action_items/service.py:129-134 | unless the request settles it, a created item needs follow-up exactly for want of a title or an owner |
| ActionItemStoreModel.InsertKeeps | api/app/action_items/service.py:264-374 | one more item under a free key, apart from those of its event, keeps same-event spacing and distinct keys |
| ActionItemStoreModel.CounterStaysAhead | api/app/action_items/service.py:339-351 | a counter ahead of all keys stays ahead, and its next number is free |
| ActionItemStoreModel.NeverRefusedIff | api/app/core/database.py:856-866 | for any items and counters, no later run of creations of any length meets a taken key exactly if no key is numbered above the counter |
| ActionItemStoreModel.TwoLegacyCountersIff | api/app/action_items/service.py:225-246 | with both legacy counters and the larger of them on the highest key, creations are never refused exactly if the second is not ahead of the first |
| ActionItemStoreModel.PendingKeptIff | api/app/action_items/service.py:600-645 | the pending table goes wrong exactly by a failed clean-up that had something to remove |
| ActionItemStoreModel.ClarificationStandsIff | api/app/action_items/service.py:600-659 | after an update a clarification stands exactly if it stood or the need for follow-up just began with a creator to ask, unless the item is closed or needs none and the clean-up worked |
| ActionItemStoreModel.SecondLegacyCounterIgnored | api/app/action_items/service.py:225-246 | with counters 1 and 5 and a key numbered 2 the very next creation is refused |
| ActionItemStoreModel.ActionItemStore.RecentUnique | api/app/action_items/service.py:264-277 | at most one item per event lies within the window |
| ActionItemStoreModel.ActionItemStore.EnsureSequenceKey | api/app/action_items/service.py:204-246 | the rename keeps the value the next key comes from |
| ActionItemStoreModel.ActionItemStore.Create | api/app/action_items/service.py:248-416 | a repeated event changes nothing, a taken key refuses the item though its number is used up, anything else adds one item with all the request says under a free key; errors leave no item |
| ActionItemStoreModel.ActionItemStore.CreateAll | api/app/action_items/service.py:339-387 | creations one after the other all go through exactly if none of the numbers they draw was on a key at the start |
| ActionItemStoreModel.ActionItemStore.Update | api/app/action_items/service.py:517-645 | for any request: the answer, with which refusal when, the item and the table after, spacing and keys kept, and the lifecycle kept exactly unless the status given is unknown |
| ActionItemStoreModel.ActionItemStore.Close | api/app/action_items/service.py:674-685 | which answer when; a closed item gets the status, the time, the user and the update time, and keeps every other field |
| ActionItemStoreModel.ActionItemStore.Delete | api/app/action_items/service.py:688-726 | which answer when, owners only; the table stays right exactly if the clean-up worked or had nothing to do |
| ActionItemStoreModel.ActionItemStore.Serve | api/app/action_items/service.py:248-726 | over any sequence of requests on any store: each is served, the refused creations are counted, spacing and distinct keys hold; the lifecycle while statuses are known, the pending table when clean-ups succeed, and no refused creation if the counter was ahead |
| DisplayKeys.ActionKeyInjective | api/app/action_items/service.py:343-351 | different numbers give different display keys |
| DisplayKeys.DecimalReadsBack | api/app/action_items/service.py:343-351 | the number on a key reads back as itself, without leading noughts |
| KeyMigration.LegacyRuleSettles | api/scripts/migrate_action_item_display_keys.py:19-50 | a rewritten key is never legacy-shaped again |
| KeyMigration.LegacyIffShape | api/scripts/migrate_action_item_display_keys.py:19-50 | exactly the keys of the form ACT or AI in any case, a dash and digits are rewritten, each to its own digits |
| KeyMigration.UniqueAtEveryStep | api/scripts/migrate_action_item_display_keys.py:44-67 | keys stay unique after each document |
| KeyMigration.MigratedIs | api/scripts/migrate_action_item_display_keys.py:44-67 | each final key in terms of the initial keys alone; other keys are never touched |
| KeyMigration.SecondRunChangesNothing | api/scripts/migrate_action_item_display_keys.py:44-67 | a second run changes nothing |
| KeyMigration.DryRunExactIff | api/scripts/migrate_action_item_display_keys.py:51-67 | the dry-run count is exact exactly if no two convertible keys share a new key |
| KeyMigration.RenameKeys | api/scripts/migrate_action_item_display_keys.py:44-67 | the in-place loop computes that result, and updated plus conflicts is the number of legacy keys |
| KeyMigration.MigrateKeys | api/scripts/migrate_action_item_display_keys.py:22-78 | the same for the script's own rule: unique keys stay unique and every other key stays put |
| Followups.FollowupBoard.Remind | api/app/action_items/reminders.py:282-363 | exactly the items told are stamped; how many were reminded, failed to send and were skipped; a run that breaks off here stamps nothing |
| Followups.FollowupBoard.Escalate | api/app/action_items/reminders.py:365-443 | the owner is told only when something is due, policy allows and the send works, and then all due items are stamped unless the run breaks off in between |
| Followups.FollowupBoard.Execute | api/app/action_items/reminders.py:234-452 | one run of both: when it reports, every count, and the items after any run in terms of the items before; broken off, it keeps once-only exactly if it announced nothing it did not stamp |
| Followups.FollowedItem | api/app/action_items/reminders.py:282-443 | each item with an id told from itself alone: stamped as reminded exactly if it waits, was not and its creator was told, as escalated exactly if it waits, was not and the owner was told; nothing else of it changes |
| Followups.FollowupBoard.Operate | api/app/action_items/reminders.py:234-452 | over any runs and edits: the items after all of them, nothing announced before its age cutoff, and no item reminded about or escalated twice as long as no run broke off between telling and stamping |
| Followups.AnnounceKeepsInv | api/app/action_items/reminders.py:349-363 | announcing due items and stamping them keeps every item announced at most once |
| Followups.UnstampedKeepsOnceIff | api/app/action_items/reminders.py:344-363 | announcing without stamping keeps once-only exactly if nothing was announced |
| Followups.UnstampedIsDueAgain | api/app/action_items/reminders.py:284-297 | an item announced but not stamped is due at every later run |
| Followups.AnnouncedAgain | api/app/action_items/reminders.py:284-297 | a later run that announces such an item again tells somebody twice |
| Followups.ExecuteDigest | api/app/action_items/reminders.py:187-231 | one group per distinct owner, each delivered, failed or skipped once |
| DailySummary.OneSummary | api/app/cadence/summary.py:193-257 | at most one summary stored and announced, by the finaliser that stored it, after a read with every source session completed |
| DailySummary.StepKeepsInv | api/app/cadence/summary.py:612-633 | each step of a finaliser or a session keeps that |
| DailySummary.AloneStoresIff | api/app/cadence/summary.py:193-257 | a finaliser left alone stores and announces a summary exactly if none is stored, there are sessions and all are completed |
| DailySummary.ReadsThePresent | api/app/cadence/summary.py:230-257 | a finaliser reads the sessions as they last changed and goes on exactly if all are completed, or there are none but the index has some |
| DailySummary.WhoResponded | api/app/cadence/summary.py:396-398 | a user counts as having responded exactly if one of their sessions did |
| DailySummary.ReasonIsLast | api/app/cadence/summary.py:364-365 | the reason given for an absent user is that of their last session |
| DailySummary.Attendance | api/app/cadence/summary.py:350-531 | every distinct user exactly once, in the order and under the name of their first session; the names of the two groups and the reasons; the two add up to the total, and the rate in hundredths |
| DailySummary.Rate | api/app/cadence/summary.py:530-531 | the share of responders to the nearest hundredth, between nought and one hundred of them |
| DailySummary.TwoNearestTie | api/app/cadence/summary.py:530-531 | two roundings to two places differ only at the exact middle, so ties are all that is left open |
| DueDates.PreviousBusinessDay | api/app/action_items/due_inference_policy.py:77-81 | the latest business day before a day |
| DueDates.TodayAndTomorrow | api/app/action_items/temporal_parser.py:82-86 | the two words that are no weekdays |
| DueDates.InferPreparation | api/app/action_items/due_inference_policy.py:122-134 | never before now, before the target exactly when, and exactly five o'clock on the previous business day when that is not past |
| DueDates.InferDue | api/app/action_items/due_inference_policy.py:84-141 | explicit input wins, and which branch applies to a target |
| DueDates.BareWeekday | api/app/action_items/temporal_parser.py:98-105 | the first such day from today on |
| DueDates.ThisWeekday | api/app/action_items/temporal_parser.py:88-97 | the same with "this" and one blank |
| DueDates.NextWeekday | api/app/action_items/temporal_parser.py:88-97 | with "next" and one blank, the named day of the following Monday-to-Sunday week |
| DueDates.UnderstoodIff | api/app/action_items/temporal_parser.py:24-97 | for every white space between the words: understood exactly if its only blank is the last character, and which day it then means |
| DueDates.PromiseKeptIff | api/app/action_items/temporal_parser.py:24-97 | for every white space understood: the promised day exactly for one blank, or for "this" and a day still to come; in the past exactly otherwise once that day of the week is over |
| DueDates.WrappedLineGoesBack | api/app/action_items/temporal_parser.py:88-97 | on a Saturday "next friday" wrapped between the words means yesterday and "this monday" the Monday gone by |
| DueDates.DoubleBlankFails | api/app/action_items/temporal_parser.py:88-92 | a second blank defeats the weekday lookup |
| Tallies.StoredCounts | api/app/cadence/session_store.py:855-882 | the stored counts by kind of task |
| Tallies.FallbackCounts | api/app/cadence/interaction_handler.py:918-929 | the same completed and skipped counts, updated plus comment-only tasks, and all three covering every task |
| Tallies.KindsPartition | api/app/cadence/session_store.py:855-882 | every task is of exactly one kind |

## Left out

- CadenceTurn.HandleDm: within one turn no other worker writes the document; what concurrent writers can do to it is SessionModel.SessionInvariant and Lease.OnlyLastStampCommits.
- Backlog.ShowRequest: its read and write are one step, as are those of Backlog.SkipRequest and CadenceTurn.SendBacklogNudge, so a document changed in between is not modelled there.
- CadenceTurn.RunTool: does not model which provider call a tool makes; its answer is an input.
- SessionRepositoryModel.SessionRepository.UpdateById: the document always exists; the branches for a missing session and the copy kept in the session index are not part of the model.
- OperationReplay.OperationReplayCache.Finish: stores the result as a value; its trip through JSON is not modelled.
- ToolRuntime.AgentExecutor.RunToolCall: calls run one after the other; a model that issues calls in parallel can have two of them past the cache lookup at once.
- ActionItemStoreModel.ActionItemStore.Update: the read and the write of one update are one step, so two overlapping updates of an item are not modelled.
- ActionItemStoreModel.ActionItemStore.Create: one creation is one step, so the second look for the event after a refused insert, which matters only to two workers at once, is not modelled; nor is a new id drawn twice.
- DailySummary.Attendance: no attention points or member updates; which way a rate at the exact middle of two hundredths is rounded is left open, as it depends on the binary fraction.
- DueDates.InferPreparation: one fixed offset; no daylight saving and no time-zone database.
- KeyMigration.MigrateKeys: one project's keys in scan order, digits of the ASCII range, and no writer beside the script.
- Text is ASCII: case mapping and white space outside that range are not modelled.
- Transient failures of the database in the middle of a handler, other than in the expiry notice, the reminder runs and the side table.
- Chat, task provider, language model, database driver and lock store beyond their answers; message texts, prompts, logging and caches.
- Recognition of backlog picks, statuses, titles, dates and times in free text: what it yields is an input.
- Human approval of tool calls, permission rules and argument preparation: their verdicts are inputs.
- The web front end, sign-in, routers, request schemas, the other scripts and the free-tier reminder, which would only add easy members.
- Conformance to `VALID_TRANSITIONS` and a single active session per user, which the code does not keep.
