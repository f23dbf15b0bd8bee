# Verification of the agent's and plugin SDK's stateful protocols

This project models, in Dafny, the parts of the agent (`go-agent`) and of the plugin SDK (`plugin-sdk/go`)
that keep a promise over a whole run: queues, leases, handoffs, renewal schedules, and the parsers that stand
before a decoder. For each of them it proves the promise for every input, every run or every interleaving.
`dafny verify dfyconfig.toml` checks the whole project.

| modules | what they model |
|---|---|
| LogReports, LogOutboxState, LogOutboxInvariant, LogOutboxRuns, LogOutboxRetirement, LogOutboxOutcomes, LogOutboxLoops, LogOutbox | the durable plugin log outbox: numbering, replay, acknowledgement, eviction, retirement intents |
| LogCapacity | the backpressure signal between writers and acknowledgers |
| Actions, ActionRuns, ActionGuarantees, ActionExecutor | the durable action executor: claims, leases, takeover, commit |
| HotRestart, HotRestartProcess, HotRestartIdentity | handing sockets and authority to a replacement process |
| Generations, GenerationRuns, GenerationGuarantees, GenerationManager | publishing a generation over its predecessor, with draining |
| PkiTimes, PkiRejection, PkiRejectionGuarantees, PkiRejectionThreads, PkiStore, PkiAgent, PkiListeners, PkiHeartbeat | certificate renewal and crash-safe rejection of enrollments |
| Binary, WasmReader, WasmPolicy, WasmInspector | the static inspection of WebAssembly policy modules |
| ProtobufWire, WireResults, ExtensionWire, Utf8, MessageCodec, Datasets, DatasetCodec | protobuf frames: raw validation and the dataset query codec |
| DatasetBindings | acknowledgements of dataset bindings |
| ManagedNetwork, ManagedStream | the managed TCP stream adapter and the contracts its loops rest on |
| JsonValues, JsonScan, PolicyOverlay | policy overlays and the duplicate-rejecting JSON scan |
| Sequences, Strings | shared vocabulary |

Code that changes state in the agent or the SDK is a class or a method with loops here, proved equal to a
function of its old state; what that code promises is then proved of those functions. Concurrent protocols are state
machines whose events are atomic steps, and the sequential object is proved to be one of their runs. Digests
(SHA-256) and JSON encodings are free constructors, so they are injective by construction. Clocks, faults and
the answers of code outside the model are inputs: a fault may strike any call, and a durable write that reports
failure may or may not have taken effect.

## Where the code differs from what one might expect

The model follows the code. These are properties that do not hold as one would first state them. Each has a
lemma with the exact condition under which it does hold, and a concrete case in which it does not.

- An acknowledgement leaves none of the reports sent pending exactly when its digest was not recorded before or
  none was pending (`AcknowledgeRemovesIff`). It may have been recorded when the same report was acknowledged
  before it was captured (`ReplayedAcknowledgementKeepsTheReport`), or in an earlier life of a fence that was
  forgotten and restarted at one (`RestartedReportsCannotBeAcknowledged`).
- A handler can start after the operation is committed, exactly when a superseded claimant has not called its
  handler yet (`HandlerStartsAgainIff`, `HandlerCanStartAfterCommit`). It can still not commit.
- The parent trims the runtime generation id and the child does not (`ChildAcceptsIff`,
  `UntrimmedGenerationIsRefused`); acceptance trims the snapshot digests and the preparation after it does not
  (`AcceptedChildCanActivateIff`).
- Published revisions rise exactly when each goes above the active one (`RevisionsRiseIff`); only a manager with
  a drain ensures it (`PublishedRevisionsRise`, `UndrainedPublishesAnyRevision`).
- Rejections are crash-safe exactly as long as no write contradicts what is on disk (`NeverWedgesIff`,
  `ReconcileAfterAnyCrash`). Threads that take turns and await answers never write such a thing
  (`TakingTurnsIsSafe`), but nothing makes the heartbeat and the task client take turns: a security task that
  runs while a reply is applied can leave an intent that no reconciliation completes, without any fault and with
  every reply acted on once (`TwoThreadsCanWedge`, `WedgedForGood`). A rejected request can in the same way be
  offered again by a thread that had already listed it (`RejectedIsOfferedAgainIff`).
- The LEB128 reader drops the unused bits of a fifth group instead of refusing them, as section 5.2.2 of the
  WebAssembly Core Specification 1.0 would have it (`ExcessBitsAreDroppedIff`, `ExcessBitsAreDropped`).
- The due time of a credential lies strictly inside its validity exactly from three nanoseconds on
  (`DueInsideLifetimeIff`).
- The nesting bound on overlays counts from the envelope, not from the payload (`ValidEnvelopeIff`,
  `DeepPayloadIsRefused`).

## Model

| member | source | states |
|---|---|---|
| LogReports.FenceKeyInjective | go-agent/internal/core/plugin_log_outbox.go:453-458 | Valid fences have the same NUL-joined identity string only if they are the same fence, which is what lets the outbox key its maps by strings. |
| LogReports.ReportKeyInjective | go-agent/internal/core/plugin_log_outbox.go:473-475 | The same for report identities: equal strings exactly when fence and sequence number are equal. |
| LogOutboxInvariant.ProtectedBound | go-agent/internal/core/plugin_log_outbox.go:204-216 | Batches that hold a pending report are at most as many as the pending reports, at most 256, because no identity lies in two batches. |
| LogOutboxInvariant.EvictionCount | go-agent/internal/core/plugin_log_outbox.go:217-228 | Eviction leaves at most 512 batches, removes no more than it must, keeps every batch with a pending report, and the order still lists exactly the batches left. |
| LogOutboxInvariant.TrimSound | go-agent/internal/core/plugin_log_outbox.go:200-248 | Trimming turns any consistent outbox into one within all its bounds, where a retired fence is remembered only while a retained batch names it. |
| LogOutboxInvariant.EnqueueKeepsInv | go-agent/internal/core/plugin_log_outbox.go:89-148 | Enqueueing, accepted or not, keeps the whole invariant: orders list their maps once each, identities are distinct across batches, every pending report lies in a retained batch, no number exceeds its fence's mark, pending is increasing per fence. |
| LogOutboxInvariant.AcknowledgeKeepsInv | go-agent/internal/core/plugin_log_outbox.go:158-196 | So does an acknowledgement, new, replayed or refused. |
| LogOutboxInvariant.RetireIsRetireAll | go-agent/internal/core/plugin_log_outbox.go:268-282 | Retiring one fence has the same effect as retiring a set of one, whether or not the fence is tracked or already retired; the early returns lose nothing. |
| LogOutboxRuns.RunKeepsInv | go-agent/internal/core/plugin_log_outbox.go:89-359 | The invariant holds after every sequence of enqueues, acknowledgements, retirements and intent operations from the empty outbox on. |
| LogOutboxRuns.PendingUntilAcknowledged | go-agent/internal/core/plugin_log_outbox.go:182-191 | A pending report stays pending through any run in which no acknowledgement names it: nothing is lost. |
| LogOutboxRuns.ReplayReturnsTheOriginalNumbers | go-agent/internal/core/plugin_log_outbox.go:99-110 | Capturing the same batch again, any number of operations later, returns the numbers first given and changes nothing, as long as one of its reports is unacknowledged. |
| LogOutboxRuns.NumbersAreConsecutive | go-agent/internal/core/plugin_log_outbox.go:120-137 | Over any run that does not forget a fence, the numbers handed to it are the consecutive ones after its mark, without gap or repeat; an untracked fence starts at one. |
| LogOutboxRetirement.ForgottenExactly | go-agent/internal/core/plugin_log_outbox.go:229-241 | Forgetting strikes exactly the retired fences that no retained batch names. |
| LogOutboxRetirement.MarkDisappearsOnlyWhenSpent | go-agent/internal/core/plugin_log_outbox.go:229-266 | In any step a fence's high-water mark disappears exactly when the fence is retired, or retired by that step, and afterwards neither a pending report nor a retained batch names it. |
| LogOutboxRetirement.EvictionIsOldestFirst | go-agent/internal/core/plugin_log_outbox.go:217-228 | Of two unprotected batches the one queued earlier goes first. |
| LogOutboxRetirement.RetireAllTwice | go-agent/internal/core/plugin_log_outbox.go:341-345 | Retiring one set of fences and then another is retiring their union, so trimming in between makes no difference. |
| LogOutboxRetirement.CompletingInAnyOrder | go-agent/internal/core/store.go:150-159 | Completing drained intents one after another, in any order, comes to retiring all their fences at once. |
| LogOutboxRetirement.AuthorizeNeverFails | go-agent/internal/core/store.go:150-159 | Authorizing an applied snapshot never reports an error, in whatever order the recoverable intents are walked. |
| LogOutboxRetirement.AuthorizeSparesActiveFences | go-agent/internal/core/plugin_log_outbox.go:361-402 | Authorizing retires no fence the snapshot still runs, leaves its numbering alone, and completes only drained intents. |
| LogOutboxRetirement.OrphansCanBeCompleted | go-agent/internal/core/plugin_log_outbox.go:404-442 | What a restarted session may drain becomes completable under the same snapshot once drained, and leaves the other intents where they were. |
| LogOutboxRetirement.OwnIntentsAreNotOrphans | go-agent/internal/core/plugin_log_outbox.go:421 | A session never mistakes an intent it staged itself for one left by an earlier session. |
| LogOutboxRetirement.AcknowledgeRemovesIff | go-agent/internal/core/plugin_log_outbox.go:162-191 | An acknowledgement of valid, distinct reports leaves none of them pending exactly when its digest was not recorded before or none was pending anyway. |
| LogOutboxRetirement.ReplayedAcknowledgementKeepsTheReport | go-agent/internal/core/plugin_log_outbox.go:166-168 | Not every acknowledgement removes what was sent: a two-step run from the empty outbox after which the acknowledgement of a pending report is taken for a replay. |
| LogOutboxRetirement.RestartedReportsCannotBeAcknowledged | go-agent/internal/core/plugin_log_outbox.go:128-132 | The same for every fence that is forgotten and restarts: a batch of the same content is given its old numbers, and while their acknowledgement is remembered the new reports stay pending when acknowledged together. |
| LogOutboxLoops.NotAllTurned | go-agent/internal/core/plugin_log_outbox.go:217-228 | While more than 512 batches are held, the rotating eviction loop has not yet seen every original entry, which is why it ends although protected entries go back into the queue. |
| LogOutbox.Outbox.Enqueue | go-agent/internal/core/plugin_log_outbox.go:89-148 | The operation in place: outcome and new state are those specified, a refused or replayed batch changes nothing, and the invariant holds. |
| LogOutbox.Outbox.NumberDrafts | go-agent/internal/core/plugin_log_outbox.go:114-137 | The numbering loop gives each draft its fence's mark plus its rank, appends new fences in order of appearance, and stops at the first draft in error. |
| LogOutbox.Outbox.Acknowledge | go-agent/internal/core/plugin_log_outbox.go:158-196 | The operation in place, with the filtered pending list, the recorded digest and the trimmed history. |
| LogOutbox.Outbox.CollectSent | go-agent/internal/core/plugin_log_outbox.go:169-181 | The sent reports are refused at the first invalid or repeated one, and otherwise their identities are collected in order. |
| LogOutbox.Outbox.RemovePending | go-agent/internal/core/plugin_log_outbox.go:182-191 | The in-place filter keeps the other reports in order, and says whether anything was removed. |
| LogOutbox.Outbox.TrimReplayHistory | go-agent/internal/core/plugin_log_outbox.go:200-248 | The three trimming loops together establish the whole invariant from a merely consistent outbox. |
| LogOutbox.Outbox.EvictBatches | go-agent/internal/core/plugin_log_outbox.go:217-228 | The rotating loop ends, and evicts exactly the oldest unprotected batches in excess of 512. |
| LogOutbox.Outbox.ForgetFences | go-agent/internal/core/plugin_log_outbox.go:229-242 | The forgetting loop drops a mark, its place in the order and its retired flag together. |
| LogOutbox.Outbox.Retire | go-agent/internal/core/plugin_log_outbox.go:268-282 | Retirement in place, with its four outcomes. |
| LogOutbox.Outbox.StageIntent | go-agent/internal/core/plugin_log_outbox.go:284-315 | Staging an intent: refused for a bad id, session, fence or repetition, idempotent for the same content, bounded at 512. |
| LogOutbox.Outbox.MarkIntentDrained | go-agent/internal/core/plugin_log_outbox.go:317-328 | Marks a known intent drained; otherwise changes nothing. |
| LogOutbox.Outbox.CompleteIntent | go-agent/internal/core/plugin_log_outbox.go:330-348 | The loop that retires one fence after another, trimming each time, ends with all of them retired at once and the intent gone; it never fails half way. |
| LogOutbox.Outbox.AbortIntent | go-agent/internal/core/plugin_log_outbox.go:350-359 | Removes an intent and nothing else. |
| LogOutbox.Outbox.RecoverableIntents | go-agent/internal/core/plugin_log_outbox.go:361-402 | Lists each intent an applied snapshot may complete exactly once. |
| LogOutbox.Outbox.RestartDrainableIntents | go-agent/internal/core/plugin_log_outbox.go:404-442 | Lists each intent left by another session that the snapshot allows to drain exactly once. |
| LogOutbox.Outbox.Authorize | go-agent/internal/core/store.go:150-159 | Completes every recoverable intent and always succeeds. |
| LogOutboxOutcomes.EnqueueAcceptsIff | go-agent/internal/core/plugin_log_outbox.go:89-148 | A batch is accepted exactly when it is not empty, has a proper new identity, fits beside what is pending, and each draft is unnumbered and valid at its fence's mark plus its rank, which must not pass the largest number. |
| LogOutboxOutcomes.EnqueueAppends | go-agent/internal/core/plugin_log_outbox.go:113-147 | What an accepted batch leaves: its drafts in order, each numbered at its fence's mark plus its rank, at the end of what is pending and as the batch of that identity, which trimming spares. |
| LogOutboxOutcomes.EnqueueRevives | go-agent/internal/core/plugin_log_outbox.go:139-142 | A fence that is written to again is no longer retired; every other one is as before, unless forgotten. |
| LogOutboxOutcomes.EnqueueRefusals | go-agent/internal/core/plugin_log_outbox.go:89-113 | A batch is ignored exactly when it is empty, refused for its identity exactly when that is malformed, and refused as too many exactly when it is new and passes 256 together with what is pending. |
| LogOutboxOutcomes.EnqueueRefusesDraft | go-agent/internal/core/plugin_log_outbox.go:121-137 | A draft error is reported exactly for the first draft that is numbered, invalid or out of numbers. |
| LogOutboxOutcomes.ReplayOrCollision | go-agent/internal/core/plugin_log_outbox.go:99-110 | A known identity is a replay exactly when the drafts are the ones stored, numbers aside, and a collision otherwise. |
| LogOutboxOutcomes.AcknowledgeIff | go-agent/internal/core/plugin_log_outbox.go:158-196 | An acknowledgement is recorded exactly when it is not empty, its digest is new, and it names valid, distinct reports; it answers with their identities in order and whether one was pending. |
| LogOutboxOutcomes.AcknowledgeTakesExactlyTheNamed | go-agent/internal/core/plugin_log_outbox.go:182-196 | One that is taken removes exactly the reports it names and keeps the order of the others. |
| LogOutboxOutcomes.RetireIff | go-agent/internal/core/plugin_log_outbox.go:268-282 | Which of its four outcomes a retirement has: it takes effect exactly when the fence is valid, has a mark and is not retired. |
| LogOutboxOutcomes.RetireMarks | go-agent/internal/core/plugin_log_outbox.go:268-282 | The fence is then marked retired, or forgotten exactly when no retained batch names it; no other fence changes. |
| LogOutboxOutcomes.StageIff | go-agent/internal/core/plugin_log_outbox.go:284-315 | An intent is staged exactly for a proper identity, revision, session and distinct valid fences, when it is new and fewer than 512 are held; the same content again changes nothing. |
| LogOutboxOutcomes.DrainIff | go-agent/internal/core/plugin_log_outbox.go:317-328 | Marking drained takes effect exactly for a known intent that is not drained. |
| LogOutboxOutcomes.CompleteIff | go-agent/internal/core/plugin_log_outbox.go:330-348 | Completing succeeds exactly for a drained intent and takes exactly it away; one that is not drained is refused. |
| LogOutboxOutcomes.AbortIff | go-agent/internal/core/plugin_log_outbox.go:350-359 | Aborting removes exactly the named intent, if it is known. |
| LogOutboxOutcomes.AuthorizeCompletesIff | go-agent/internal/core/plugin_log_outbox.go:361-402 | An applied snapshot completes exactly the drained intents it has caught up with and none of whose fences it still runs; every other intent is kept as it is, those of later revisions among them. |
| LogOutboxOutcomes.RestartDrainableIff | go-agent/internal/core/plugin_log_outbox.go:404-442 | A restarted session may drain exactly the undrained intents of another session that the snapshot has caught up with and none of whose fences it still runs. |
| LogCapacity.CapacitySignal.Snapshot | go-agent/internal/core/plugin_log_capacity.go:18-25 | Hands out the current channel, making the first on demand; all earlier ones are closed. |
| LogCapacity.CapacitySignal.Notify | go-agent/internal/core/plugin_log_capacity.go:27-34 | Closes every channel handed out so far and starts a new, open one. |
| LogCapacity.NoWakeupIsEverLost | go-agent/internal/core/plugin_log_capacity.go:36-55 | In every interleaving of writers and acknowledgers, a writer blocked on an unclosed channel faces a full outbox or an acknowledger that has yet to notify. |
| LogCapacity.WaitingWriterGetsOut | go-agent/internal/core/store.go:104-120 | Once there is room and nobody owes a notification, each waiting writer can leave by its own steps alone, whatever channel it holds. |
| ActionRuns.StepKeepsInv | plugin-sdk/go/action_operations.go:71-217 | Every claim, reconcile, execute, commit, crash or query step of any executor keeps the protocol invariant. |
| Actions.ReconcileKeepsPhaseOk | plugin-sdk/go/action_operations.go:137-147 | A reconciled outcome is committed exactly when it is a valid, terminal answer for this operation, and the committed record answers with it; anything else is refused. |
| Actions.ExecuteKeepsPhaseOk | plugin-sdk/go/action_operations.go:149-167 | Whatever the handler returns, the record to commit is valid; a cancelled or timed-out handler commits nothing. |
| Actions.ExecuteAnswers | plugin-sdk/go/action_operations.go:149-167 | Under a claim, the record to commit answers accepted without error exactly when the handler succeeded, with its own error when that is well formed, and with the final internal error otherwise; a handler cut short answers pending. |
| ActionGuarantees.OneCommitPerOperation | plugin-sdk/go/action_operations.go:71-79 | In every interleaving with crashes, takeovers and lost replies, each operation is committed at most once, and it is terminal exactly when it was. |
| ActionGuarantees.TerminalNeverChanges | plugin-sdk/go/action_operations.go:71-79 | A terminal record never changes again. |
| ActionGuarantees.SupersededNeverCommits | plugin-sdk/go/action_operations.go:170-181 | A claim token that was taken over, or has committed, never commits again. |
| ActionGuarantees.LosingTheClaimSupersedes | plugin-sdk/go/action_operations.go:74 | However a claim is lost, its token is superseded from then on. |
| ActionGuarantees.HandlersRunForOneRequest | plugin-sdk/go/action_operations.go:127-129 | All handler starts of an operation are for the same fingerprint, each under its own claim. |
| ActionGuarantees.HandlerStartsAgainIff | plugin-sdk/go/action_operations.go:137-149 | After a terminal commit the handler can start again exactly when some superseded claimant was granted the operation and has not called the handler yet, whether it is about to reconcile or has already learned that there is nothing to reconcile. |
| ActionGuarantees.HandlerCanStartAfterCommit | plugin-sdk/go/action_operations.go:81-84 | That does happen: for every valid request there is a run in which a claimant delayed past its lease starts the handler after the commit. |
| ActionGuarantees.TerminalAnswersAgree | plugin-sdk/go/action_operations.go:254-268 | All terminal answers to one operation, from any Invoke or Query, are the same answer, that of the one committed record. |
| ActionGuarantees.LeasesDoNotOverlap | plugin-sdk/go/action_operations.go:112-120 | A later claim of the same operation is granted only once the earlier lease is over by the later claimant's clock. |
| ActionGuarantees.CallAfterTerminal | plugin-sdk/go/action_operations.go:124-132 | Calling again after the end replays the stored answer to the same request, refuses any other, and leaves the store alone. |
| ActionExecutor.Store.ClaimOperation | plugin-sdk/go/action_operations.go:71-76 | The contract of the store's claim: create, take over an expired matching pending record, or return what is there. |
| ActionExecutor.Store.CompleteOperation | plugin-sdk/go/action_operations.go:73-77 | The contract of the store's completion: compare the pending claim token, then write. |
| ActionExecutor.Invoke | plugin-sdk/go/action_operations.go:97-181 | One invocation, with every exit on its way, does to store and result what the phases specify. |
| ActionExecutor.ExecutedInvocationAnswers | plugin-sdk/go/action_operations.go:97-181 | An invocation that is granted the operation, with nothing to reconcile, no fault and a handler that is not cut short, answers accepted exactly when the handler succeeded, and otherwise with the error it should; the stored record answers the same for good. |
| ActionExecutor.InterruptedInvocationIsPending | plugin-sdk/go/action_operations.go:149-152 | With a handler cut short the caller learns that the operation is pending, and it is, under this claim. |
| ActionExecutor.ReconciledInvocationAnswers | plugin-sdk/go/action_operations.go:137-147 | A reconciled outcome is answered and stored exactly when it is a valid, terminal outcome of this operation; otherwise the caller gets an error and the claim stands. |
| ActionExecutor.TakenInvocationAnswers | plugin-sdk/go/action_operations.go:120-132 | An operation that is held or finished is left alone: the same request is told its state, any other is refused. |
| ActionExecutor.LostReplies | plugin-sdk/go/action_operations.go:117-119 | A claim or commit whose reply is lost has taken effect, and one that never arrived has not; the caller gets an error either way. |
| ActionExecutor.RefusedInvocation | plugin-sdk/go/action_operations.go:97-119 | An invalid request, or a claim that never arrives, changes nothing and answers nothing. |
| ActionExecutor.QueryOperation | plugin-sdk/go/action_operations.go:200-218 | A query answers missing, the record's own state, or an error for an invalid record. |
| ActionExecutor.InvocationIsARun | plugin-sdk/go/action_operations.go:97-181 | An undisturbed invocation is a run of the interleaved system with the same store and result, so every guarantee about runs holds of it. |
| HotRestart.ReplacementLeavesOneOwner | go-agent/internal/app/exec_hotrestart.go:48-64 | Under every pattern of failing calls, either authority is committed to a child that is alive, accepts and reads, and the parent is never resumed, or the child is dead and each resource of the parent was resumed exactly once, successfully unless the process reports an error, although the child is aborted twice; at no point did both serve, and the parent is only resumed over a dead child. |
| HotRestart.NothingResumesLater | go-agent/internal/app/hotrestart_packet.go:115-151 | No later Abort or Wait resumes the parent, neither after a handover nor a second time after a failure. |
| HotRestart.ActivateStage | go-agent/internal/app/hotrestart_packet.go:64-82 | Activation ends with the parent's streams paused and the child possibly accepting, or with everything taken back. |
| HotRestart.TransferStage | go-agent/internal/app/hotrestart_packet.go:84-109 | Transfer ends with authority committed and the parent silent, or with everything taken back. |
| HotRestart.LaunchStage | go-agent/internal/app/hotrestart_packet.go:11-42 | A launch that fails leaves no live child and a parent that never stopped serving. |
| HotRestart.AbortAgain | go-agent/internal/app/hotrestart_packet.go:115-128 | Aborting after the automatic abort kills the child again and resumes nothing again. |
| HotRestartProcess.ResourceProcess.ResumeParent | go-agent/internal/app/hotrestart_packet.go:141-151 | Resumes packets, then streams, once in the life of the process. |
| HotRestartProcess.ResourceProcess.Activate | go-agent/internal/app/hotrestart_packet.go:64-82 | Pause streams, begin forwarding, activate the child; any failure aborts and resumes. |
| HotRestartProcess.ResourceProcess.TransferAuthority | go-agent/internal/app/hotrestart_packet.go:84-109 | Pause packets, flush, transfer, commit, finalize; a failure before the commit aborts and resumes, a failed cleanup after it is only remembered. |
| HotRestartProcess.ResourceProcess.Abort | go-agent/internal/app/hotrestart_packet.go:115-128 | Kills the child; the parent is resumed only if authority was not committed. |
| HotRestartProcess.ResourceProcess.Wait | go-agent/internal/app/hotrestart_packet.go:130-139 | Waits for the child and adds a remembered cleanup failure. |
| HotRestartProcess.StartWithResources | go-agent/internal/app/hotrestart_packet.go:11-42 | Exports, starts, closes the bundles, and undoes the export when the child cannot be used. |
| HotRestartProcess.Replacement | go-agent/internal/app/exec_hotrestart.go:48-64 | The replacement as the agent drives it, tied to the specification the guarantees are about. |
| HotRestart.LaunchSucceedsIff | go-agent/internal/app/hotrestart_packet.go:11-42 | A launch succeeds exactly when both registries are there and exports, start and closing the bundles succeed, and then made these four calls. |
| HotRestart.FailedLaunchUndoes | go-agent/internal/app/hotrestart_packet.go:11-42 | What a failed launch did, failure by failure: a child is aborted only if it was started and the bundles did not close. |
| HotRestart.ActivateSucceedsIff | go-agent/internal/app/hotrestart_packet.go:64-82 | Activation succeeds exactly when pausing streams, forwarding and the child's activation do. |
| HotRestart.TransferSucceedsIff | go-agent/internal/app/hotrestart_packet.go:84-109 | The transfer succeeds exactly when pausing packets, the flush and the child's acknowledgement do, and these come in this order; a failed cleanup after it is only remembered. |
| HotRestart.ReplacementSucceedsIff | go-agent/internal/app/exec_hotrestart.go:48-64 | A replacement succeeds exactly when both registries are there and the ten calls up to the transfer of authority all succeed; the trace is then these calls in order and the cleanup. |
| HotRestartProcess.ActivateChildResources | go-agent/internal/app/hotrestart_packet.go:153-164 | The child reports success exactly when streams and packets are both active; after an error its streams are active only if the pause that follows failed. |
| HotRestartIdentity.ChildAcceptsIff | go-agent/internal/app/app.go:881-900 | Past revision 0 a child accepts the identity its unchanged parent launched it with exactly when the recorded generation id has no surrounding white space and the revision is positive. |
| HotRestartIdentity.UntrimmedGenerationIsRefused | go-agent/internal/app/exec_hotrestart.go:133 | Every id with surrounding white space is a counterexample: the parent launches, the child refuses. |
| HotRestartIdentity.AcceptedChildCanActivateIff | go-agent/internal/app/app.go:929-949 | A child that accepted finds the runtime hash to prepare under exactly when the snapshot digests agree as they stand, acceptance having compared them trimmed; what it prepares under that hash passes the last check. |
| HotRestartIdentity.BootstrapChildAcceptsIff | go-agent/internal/app/app.go:857-880 | At revision 0 a child accepts exactly when the generation's hash equals the digest untrimmed and its id is not blank. |
| HotRestartIdentity.LaunchReadyIff | go-agent/internal/app/exec_hotrestart.go:103-161 | A restart can be launched, and with which identity, exactly from a complete journal record of the desired revision, started or active, or at revision 0 without one from the running generation whose hash is the desired digest. |
| GenerationRuns.StepKeepsInv | go-agent/internal/core/generation_manager.go:91-171 | Every step of applies, session registrations, retirement, drain progress and shutdown, in any interleaving, keeps the manager's invariant. |
| GenerationGuarantees.EveryCandidateEndsOnce | go-agent/internal/core/generation_manager.go:116-159 | Between applies every candidate ever prepared was published exactly once or destroyed exactly once, never both. |
| GenerationGuarantees.FailedAppliesChangeNothing | go-agent/internal/core/generation_manager.go:120-153 | Applies that fail before publication leave the active generation, the retired ones, the drain and all sessions untouched. |
| GenerationGuarantees.OwnershipTakenIff | go-agent/internal/core/generation_drain.go:52-65 | After publication the drain takes ownership exactly when nobody retired the predecessor in between and the drain is open. |
| GenerationGuarantees.ValidatedMeansOwned | go-agent/internal/core/generation_manager.go:127-135 | Passing the drain validation is enough for the later ownership check, whatever sessions, drains and registrations happen meanwhile, unless the predecessor is retired from outside. |
| GenerationGuarantees.PublishedRevisionsRise | go-agent/internal/core/generation_manager.go:244-246 | Under a drain, published revisions strictly increase over any run. |
| GenerationGuarantees.RevisionsRiseIff | go-agent/internal/core/generation_manager.go:154-158 | With or without a drain, published revisions rise over a run exactly when each goes above the one active at that moment. |
| GenerationGuarantees.UndrainedPublishesAnyRevision | go-agent/internal/core/generation_manager.go:127-135 | Without a drain nothing ensures that: any generation other than the active one can be published over it. |
| GenerationGuarantees.NoSessionBeforeOwnership | go-agent/internal/core/generation_manager.go:276-291 | No session is registered for a generation under publication before the drain owns it; such a registration waits. |
| GenerationGuarantees.ActiveIsNotRefused | go-agent/internal/core/generation_manager.go:276-298 | A session for the active generation is accepted or waits out the window; it is refused only if the generation was retired from outside or the drain is closed. |
| GenerationGuarantees.WaitersAreWoken | go-agent/internal/core/generation_manager.go:263-274 | No waiting session is forgotten: its window is closed, or the apply that opened it closes it by steps that cannot fail. |
| GenerationGuarantees.ShutdownDestroysEachOnce | go-agent/internal/core/generation_manager.go:343-365 | Without a drain, shutdown destroys every view ever published exactly once. |
| GenerationGuarantees.ShutdownFinishesAll | go-agent/internal/generation/controller.go:105-122 | With a drain, after shutdown no generation is active and none accepts sessions. |
| GenerationGuarantees.RegistrationIff | go-agent/internal/core/generation_manager.go:276-298 | A registration waits exactly while its generation is being published and not yet owned, and otherwise is accepted exactly while the drain is open and the generation runs or drains. |
| GenerationGuarantees.RetirementIff | go-agent/internal/generation/controller.go:205-232 | Only the running, active generation of an open drain can be retired, and then still accepts sessions; a generation is forgotten only once finished. |
| GenerationManager.ApplySpecIsContinue | go-agent/internal/core/generation_manager.go:91-171 | The apply in one piece equals the apply step by step. |
| GenerationManager.ApplyIsARun | go-agent/internal/core/generation_manager.go:91-171 | An undisturbed apply is a run, so every guarantee about runs holds of it. |
| GenerationManager.ApplyPublishesIff | go-agent/internal/core/generation_manager.go:91-171 | An apply publishes exactly when the wanted generation is not active already, preparation and readiness succeed, the context goes on, and under a drain the predecessor is the drain's active one, the candidate is new to it and its revision is higher; otherwise nothing the manager keeps is changed. |
| GenerationManager.PublishedIsActive | go-agent/internal/core/generation_manager.go:154-171 | What is published is active; an open drain runs it, drains its predecessor and leaves the rest alone; without a drain the predecessor is kept for shutdown. |
| GenerationManager.Manager.Apply | go-agent/internal/core/generation_manager.go:91-171 | Prepare, ready, validate, publish and hand over in place: under a drain the outcome is a cutover exactly when the candidate may follow, spelled out on drain and modules, and the drain then runs it; every error leaves the active generation as it was and destroys the candidate. |
| GenerationManager.Manager.ValidateDrain | go-agent/internal/core/generation_manager.go:223-249 | Accepts exactly a candidate whose predecessor the drain owns, that is new to the drain, with a higher revision. |
| GenerationManager.Manager.PublishCandidate | go-agent/internal/core/generation_manager.go:154-170 | Opens the window, publishes, retires or hands over, and closes the window. |
| GenerationManager.Manager.TakeOwnership | go-agent/internal/core/generation_drain.go:39-66 | The drain's own check and the activation that starts draining the predecessor. |
| GenerationManager.Manager.TryRegister | go-agent/internal/core/generation_manager.go:276-291 | One turn of the registration loop: wait, accept or refuse. |
| GenerationManager.Manager.Close | go-agent/internal/core/generation_manager.go:343-365 | Shutdown in place. |
| PkiRejection.StepKeepsIssued | go-agent/internal/app/pki_sync.go:406-448 | Over every interleaving of heartbeats, replies, scheduler passes, forced rotations and tasks, no request is pending and quarantined at once, and every request mentioned anywhere was once prepared. |
| PkiRejection.SavedIntentWedgesIff | go-agent/internal/app/pki_sync.go:409-415 | A written intent can never be completed exactly when its request is neither pending nor already quarantined under the same code. |
| PkiRejection.NeverWedgesIff | go-agent/internal/app/pki_sync.go:406-448 | Over any run of any number of threads, with any faults and crashes, reconciliation stays possible throughout exactly when no step contradicts the disk: writes such an intent, quarantines under another code what the intent names, or puts its certificate in use. |
| PkiRejectionGuarantees.ReconcileAfterAnyCrash | go-agent/internal/app/pki_sync.go:430-448 | Wherever any run is cut short, the next pass can reconcile exactly when the disk is not wedged, and then clears the intent and leaves its request quarantined under the intended code, not pending and not listed. |
| PkiRejectionGuarantees.ReconcileTwice | go-agent/internal/app/pki_sync.go:430-448 | Reconciling again, even after a second crash, changes nothing. |
| PkiRejectionGuarantees.WedgedForGood | go-agent/internal/app/pki_sync.go:436-438 | After a crash on a wedged disk no thread ever writes or offers anything again. |
| PkiRejectionGuarantees.OffersAreCleanIff | go-agent/internal/app/pki_sync.go:107-114 | From the moment a thread lists a clean request to the moment it offers it, the request stays pending, unquarantined and free of any intent exactly when no thread begins to reject it or puts its certificate in use. |
| PkiRejectionGuarantees.RejectedIsOfferedAgainIff | go-agent/internal/modules/pki/enrollment.go:184-252 | A quarantined request can be offered again only if some thread preparing a heartbeat still has it on its list, and on an unwedged disk exactly then. |
| PkiRejectionThreads.TakingTurnsIsSafe | go-agent/internal/app/pki_sync.go:406-448 | One operation at a time with every answer awaited is enough: no step contradicts the disk and what is about to be offered is clean, whatever faults and crashes there are, scheduler-initiated rejections included. |
| PkiRejectionThreads.RejectedIsNeverOfferedAgain | go-agent/internal/modules/pki/enrollment.go:184-252 | What was quarantined while taking turns is never offered again, whatever happens next. |
| PkiRejectionThreads.TwoThreadsCanWedge | go-agent/internal/app/pki_tasks.go:82-87 | The threads do not take turns: without any fault, with a single answer acted on once, a heartbeat and a security task can leave an intent that no reconciliation completes. |
| PkiRejectionThreads.UnawaitedAnswerWedges | go-agent/internal/app/pki_sync.go:409-417 | Nor is taking turns enough without awaiting: a second, different answer after the first was left half done does the same on one thread. |
| PkiRejectionThreads.CommitIsARun | go-agent/internal/app/pki_sync.go:406-428 | The three writes of a rejection, undisturbed, for every pattern of faults, are a run of the system of threads. |
| PkiRejectionThreads.ReconcileIsARun | go-agent/internal/app/pki_sync.go:430-448 | So is a reconciliation. |
| PkiTimes.RenewalBackoff | go-agent/internal/app/pki_sync.go:1123-1138 | The loop computes one minute doubled per further failure, at most six hours, and no product leaves the range of a duration. |
| PkiTimes.BackoffIsMonotone | go-agent/internal/app/pki_sync.go:1123-1138 | More failures never mean a shorter wait; every wait is between one minute and six hours. |
| PkiTimes.BackoffSaturatesAtTen | go-agent/internal/app/pki_sync.go:1123-1138 | The ceiling is reached exactly from the tenth failure on. |
| PkiTimes.CredentialDueIsNearTheThird | go-agent/internal/app/pki_sync.go:1096-1109 | For any positive lifetime the jittered due time lies within half a window of a third of the lifetime before the end. |
| PkiTimes.EveryJitterIsPossible | go-agent/internal/app/pki_sync.go:1106-1108 | Every instant in that range is the due time for some digest. |
| PkiTimes.DueInsideLifetimeIff | go-agent/internal/app/pki_sync.go:1096-1109 | The due time is strictly inside the validity exactly when that lasts three nanoseconds or more. |
| PkiTimes.LifecycleDueIsStable | go-agent/internal/app/pki_sync.go:1111-1121 | The lifecycle due time stays put once the snapshot's date has passed and otherwise moves no faster than the clock. |
| PkiStore.Store.Reject | go-agent/internal/modules/pki/enrollment.go:184-265 | Success means the request is quarantined under the code given and not pending. Repeating the code changes nothing; another code or another pending request is refused and changes nothing; a missing request is told apart. |
| PkiStore.Store.SaveRenewal | go-agent/internal/modules/pki/store.go:637-708 | A schedule is written as given or not at all, and only if it is consistent. |
| PkiStore.InForceIs | go-agent/internal/app/pki_sync.go:1053-1079 | The schedule in force for a credential is the one kept for it, or a new one. |
| PkiStore.DueTimeIs | go-agent/internal/app/pki_sync.go:1087-1110 | With its signer trusted a credential is due when the schedule kept for it says, or else at its jittered time; a retired signer can only bring that forward to the lifecycle time. A schedule for another credential never forbids a try. |
| PkiAgent.FindAgentEnrollment | go-agent/internal/app/pki_sync.go:957-972 | Finds the one enrollment in the agent's storage, or reports that there are two or that it is of another kind. |
| PkiAgent.Agent.CommitRejection | go-agent/internal/app/pki_sync.go:406-428 | The three writes, for some pattern of faults those of the rejection runs; on success the request is quarantined under the code, the schedule is stored without the intent and the request is no longer in flight. |
| PkiAgent.Agent.Reconcile | go-agent/internal/app/pki_sync.go:430-448 | For some pattern of faults a reconciliation of the rejection runs; after success no intent is left, its request is quarantined under its code, neither pending nor on the list, and nothing else is gone. |
| PkiAgent.Agent.EnsureRenewalPending | go-agent/internal/app/pki_sync.go:526-697 | With no agent enrollment on the list one is added exactly when Renews says so; in particular, for the agent's own credential of a trusted signer, exactly from the due time kept for it, or else from the jittered one, or outside its validity. A listed one stays exactly when Offers says so. What is listed is this agent's, as it asks for it, and never early or demanded back. Only a fault makes a pass over a sane store fail. |
| PkiAgent.Agent.RenewsIff | go-agent/internal/app/pki_sync.go:526-697 | What Renews means, case by case: own credential past the due time in force or outside its validity, none at all, or one that renewing repairs, in a known domain, with nothing kept that forbids a try. |
| PkiAgent.Agent.RenewsOnTime | go-agent/internal/app/pki_sync.go:627-642 | For an own credential of a trusted signer: from the time kept for it, or from its jittered due time, or outside its validity. |
| PkiAgent.AskedForIsOwn | go-agent/internal/app/pki_sync.go:1162-1176 | A credential issued as the agent asks for it is recognised as its own. |
| PkiAgent.Agent.EnsureOffered | go-agent/internal/app/pki_sync.go:570-626 | With an enrollment pending: it is offered exactly when it and the credential in use are this agent's, in a domain it knows, and the schedule in force allows; otherwise it is rejected or withheld. |
| PkiAgent.Agent.EnsureNew | go-agent/internal/app/pki_sync.go:605-696 | With none pending: one is listed exactly when Renews says so, and it is what the agent asks for. |
| PkiAgent.Agent.ScheduleLifecycle | go-agent/internal/app/pki_sync.go:631-641 | A retired signer moves the due time forward to the lifecycle time if that is earlier, and nothing else in the schedule. |
| PkiAgent.Agent.GiveUp | go-agent/internal/app/pki_sync.go:552-604 | An owner mismatch leaves exactly the schedule in force with re-enrollment demanded, and no enrollment offered. |
| PkiListeners.BuildTargets | go-agent/internal/app/pki_sync.go:711-727 | The targets are the last eligible listener of each id, or an error if one has no valid endpoint. |
| PkiListeners.TargetsAre | go-agent/internal/app/pki_sync.go:711-727 | Exactly the identified, unrevoked listeners of this agent are targets, or none if one of them has no valid endpoint. |
| PkiListeners.TargetIsTheLast | go-agent/internal/app/pki_sync.go:711-727 | Each as the last listener of its id projects it. |
| PkiListeners.Listeners.RetireStale | go-agent/internal/app/pki_sync.go:729-742 | Drops exactly the listener enrollments that no longer ask for what their listener needs, and touches nothing of other storage; only a fault makes it fail on a full listing. |
| PkiListeners.Listeners.Schedule | go-agent/internal/app/pki_sync.go:757-803 | Renewal of a listener is called for exactly when its credential is missing, not its own, past its due time in force or outside its validity; its schedule is brought up to date to just that. |
| PkiListeners.Listeners.FillsOnTime | go-agent/internal/app/pki_sync.go:757-806 | When an enrollment is made for a listener: for its own credential of a trusted signer from the time kept for it, or from its jittered due time, or outside its validity, unless a retry is being waited for; at once after its identity was replaced. |
| PkiListeners.Listeners.FillOne | go-agent/internal/app/pki_sync.go:749-826 | A target without an enrollment gets one exactly when it is called for and no retry is being waited for; a fault apart, only an unreadable credential or a schedule that cannot be written makes it fail. |
| PkiListeners.AskedForIsOwn | go-agent/internal/app/pki_sync.go:892-937 | What a target asks for is not stale, and a credential issued for it under its identity is recognised as its own. |
| PkiListeners.Listeners.EnsureRenewalsPending | go-agent/internal/app/pki_sync.go:699-828 | Afterwards each projected listener has at most one enrollment, matching its current spec, and has one exactly when one of its own was current or one is called for; other enrollments are as they were; all that is pending is listed if it was before. Only a fault makes a pass over a sound store fail. |
| PkiHeartbeat.Classify | go-agent/internal/app/pki_sync.go:254-281 | A reply is well formed exactly when every answer is to a distinct request in flight and is either an error or a certificate; then it is split into the two. |
| PkiHeartbeat.Index | go-agent/internal/app/pki_sync.go:160-171 | The offers are accepted exactly when each has an id of its own, and then the requests in flight are exactly the offers. |
| PkiHeartbeat.Handler.PrepareHeartbeat | go-agent/internal/app/pki_sync.go:96-174 | All that is pending is offered, but perhaps for the agent's own; the agent's is offered, when none was pending, exactly when it renews, and each listener's exactly when it is called for; no offer has a rejection half done, and what is in flight is what is offered. Only a fault makes it fail on a sane store. |
| PkiHeartbeat.Handler.ApplyHeartbeat | go-agent/internal/app/pki_sync.go:235-347 | A reply of unknown status, with a malformed, repeated or unrequested answer, or with certificates but no security snapshot, changes nothing. Any other, about what is still pending in a fit store, is acted on in full unless a fault strikes: the rejected are quarantined under their codes and out of flight, and the certificates of a reply that is not degraded are in use. |
| PkiHeartbeat.Handler.RejectOne | go-agent/internal/app/pki_sync.go:349-404 | A rejection quarantines the request under the code given and backs its schedule off, or demands re-enrollment on an owner mismatch; only a fault stops the rejection of what is pending. |
| PkiHeartbeat.Handler.ActivateOne | go-agent/internal/app/pki_sync.go:305-339 | An issued certificate is put into use with a fresh schedule, due at its jittered time; only a fault stops that of a pending request. |
| PkiHeartbeat.OffersArePending | go-agent/internal/app/pki_sync.go:160-174 | Whatever a well-formed reply answers of the offers just made is pending as it was offered. |
| PkiHeartbeat.PartsArePending | go-agent/internal/app/pki_sync.go:254-281 | The rejections of a well-formed reply stay pending while its certificates are put into use. |
| WasmReader.U32Inverts | plugin-sdk/go/wasm_policy.go:413-426 | Reading inverts LEB128 printing for every 32-bit number, in at most five bytes (WebAssembly 1.0, section 5.2.2). |
| WasmReader.U32AcceptsIff | plugin-sdk/go/wasm_policy.go:413-426 | A number is accepted exactly when a group ends within five bytes. |
| WasmReader.ExcessBitsAreDroppedIff | plugin-sdk/go/wasm_policy.go:413-426 | The number read is the one section 5.2.2 assigns exactly when it takes fewer than five bytes or its fifth byte is below 16; otherwise the bits beyond the 32nd are dropped and a smaller number is read. |
| WasmReader.ExcessBitsAreDropped | plugin-sdk/go/wasm_policy.go:420 | Such a number, malformed by section 5.2.2, is accepted. |
| WasmReader.VectorInverts | plugin-sdk/go/wasm_policy.go:278-304 | A vector is read back from its printed form if its items are. |
| WasmReader.Reader.TakeU32 | plugin-sdk/go/wasm_policy.go:413-426 | The loop computes the specified number, consumes at most five bytes and never leaves the data. |
| WasmReader.Reader.TakeSub | plugin-sdk/go/wasm_policy.go:428-435 | Takes the announced bytes or fails without moving. |
| WasmReader.Reader.TakeName | plugin-sdk/go/wasm_policy.go:437-447 | A length and that many bytes. |
| WasmPolicy.InspectInvertsPrint | plugin-sdk/go/wasm_policy.go:257-373 | Inspecting a printed module recovers import names in order, the function count, the version export index and the code bodies, whatever other sections surround them. |
| WasmPolicy.BadSectionIsRefused | plugin-sdk/go/wasm_policy.go:257-373 | After any sections, one that is malformed or not allowed spoils the module, whatever follows. |
| WasmPolicy.TablesAreRefused | plugin-sdk/go/wasm_policy.go:315-322 | A table section is refused exactly unless it is empty. |
| WasmPolicy.OtherImportIsRefused | plugin-sdk/go/wasm_policy.go:292-297 | An import of anything but a function is refused, wherever in the list it stands. |
| WasmPolicy.TrailingBytesAreRefused | plugin-sdk/go/wasm_policy.go:368-370 | So is a section that goes on after its last item. |
| WasmPolicy.StaticMajorIff | plugin-sdk/go/wasm_policy.go:375-395 | The static check accepts exactly a guest-defined version function whose body is 00 41 01 0b. |
| WasmPolicy.PrintedPolicyPassesIff | plugin-sdk/go/wasm_policy.go:257-395 | End to end, whatever sections the module has in whatever order, it passes exactly when the last function exported under the version name is the guest's own and has that body. |
| WasmInspector.InspectDeclarations | plugin-sdk/go/wasm_policy.go:257-373 | The pass over the sections computes the specified declarations, or refuses. |
| WasmInspector.TakeImports | plugin-sdk/go/wasm_policy.go:278-304 | The import loop appends names in order, counts functions, and refuses any other kind of import. |
| WasmInspector.TakeExports | plugin-sdk/go/wasm_policy.go:324-345 | The export loop ends with the last index exported as the version function. |
| WasmInspector.TakeBodies | plugin-sdk/go/wasm_policy.go:348-364 | The code loop collects the bodies in order. |
| ProtobufWire.JoinedReads | plugin-sdk/go/wire_results.go:48-72 | A frame joined from well-formed fields reads as those fields, however each is encoded, nested groups included. |
| ProtobufWire.ReadsAsChunks | plugin-sdk/go/wire_results.go:48-72 | Conversely every frame that reads is joined from such fields. |
| WireResults.ConsumeExclusiveResult | plugin-sdk/go/wire_results.go:45-77 | Returns the one result of the frame, and refuses a missing, repeated, conflicting or mistyped one anywhere in it. |
| WireResults.ValidatePolicySuccess | plugin-sdk/go/wire_results.go:79-113 | Accepts exactly one known action, at most one payload, and any well-formed unknown fields. |
| WireResults.ValidateLifecycleSuccess | plugin-sdk/go/wire_results.go:115-143 | Accepts exactly one ready flag, which is true. |
| WireResults.ValidateRuntimeError | plugin-sdk/go/wire_results.go:145-189 | Accepts exactly one known code, at most one message and at most one boolean retryable flag. |
| WireResults.PolicyResponseIff | plugin-sdk/go/wire_results.go:10-26 | A policy response is accepted exactly when it is one success, with one of three actions and at most one payload, or one error, with one of seven codes, at most one message and at most one flag of 0 or 1. |
| WireResults.LifecycleResponseIff | plugin-sdk/go/wire_results.go:28-43 | A lifecycle response exactly when it is one success whose one ready flag is 1, or one such error. |
| WireResults.ReorderingKeepsTheResult | plugin-sdk/go/wire_results.go:45-77 | Reordering the fields of a result frame changes neither its result nor its acceptance. |
| WireResults.UnknownFieldsKeepTheResult | plugin-sdk/go/wire_results.go:58-71 | Nor does a well-formed unknown field, inserted anywhere. |
| WireResults.AcceptedPolicyResponseIsUnambiguous | plugin-sdk/go/wire_results.go:10-26 | An accepted policy response means the same to a decoder that keeps first occurrences and to one that keeps last ones, for the result and inside it. |
| WireResults.AcceptedLifecycleResponseIsUnambiguous | plugin-sdk/go/wire_results.go:28-43 | And an accepted lifecycle response. |
| ExtensionWire.ValidateFrame | plugin-sdk/go/policy_extension_wire.go:100-161 | The recursive check accepts exactly the frames whose fields are known, well typed, within their counts, at most one per oneof, at most eight levels deep; it terminates by that bound. |
| ExtensionWire.CheckField | plugin-sdk/go/policy_extension_wire.go:112-158 | The checks on one field, in the order they are made. |
| ExtensionWire.RefusedIff | plugin-sdk/go/policy_extension_wire.go:100-161 | A frame is refused exactly for being too deep or no fields, for an unknown, mistyped or out-of-range field, for one more field than its limit, or for two members of a oneof. |
| ExtensionWire.AcceptedDecodesAlike | plugin-sdk/go/policy_extension_wire.go:89-96 | An accepted frame decodes to the same message at every level, whether a decoder keeps the first, the last, or merges. |
| ExtensionWire.OnlyMemberWins | plugin-sdk/go/policy_extension_wire.go:120-125 | In an accepted frame a oneof is won by its only member that occurs. |
| DatasetCodec.EnumsAreBijections | plugin-sdk/go/policy_datasets.go:301-368 | Kinds, statuses and coverages correspond one to one to their non-zero numbers, except the domain kind, which has none. |
| DatasetCodec.EnumNumbers | plugin-sdk/go/policy_datasets.go:301-368 | And these numbers are those of the interface definition. |
| DatasetCodec.ValidRequestIff | plugin-sdk/go/policy_datasets.go:22-48 | A request is valid exactly for one to 64 named countries, regions or networks, no two alike in name and kind, with its time and room within their bounds. |
| DatasetCodec.FindNumber | plugin-sdk/go/policy_datasets.go:313-320 | The search returns the number the enumeration is specified to have. |
| DatasetCodec.RequestRoundTrip | plugin-sdk/go/policy_datasets.go:138-177 | Every valid request whose frame fits passes the raw check and is read back whole, classifications in order. |
| DatasetCodec.ResponseRoundTrip | plugin-sdk/go/policy_datasets.go:179-218 | Every valid response whose frame fits passes the raw check and is read back whole. |
| DatasetCodec.MarshalDatasetQueryRequest | plugin-sdk/go/policy_datasets.go:138-157 | The marshaller prints the specified frame, or refuses an invalid request or an oversized frame. |
| DatasetCodec.UnmarshalDatasetQueryRequest | plugin-sdk/go/policy_datasets.go:159-177 | The unmarshaller checks the raw frame, decodes, and validates. |
| DatasetCodec.MarshalDatasetQueryResponse | plugin-sdk/go/policy_datasets.go:179-198 | The same for responses. |
| DatasetCodec.UnmarshalDatasetQueryResponse | plugin-sdk/go/policy_datasets.go:200-218 | The same for responses. |
| Datasets.KeyIsCanonical | plugin-sdk/go/datasets.go:456-463 | Two valid classifications have the same key exactly when they agree up to the order of their attributes. |
| DatasetBindings.EqualSpecsIff | plugin-sdk/go/dataset_binding.go:50-64 | On specs without repeated selectors the one-directional comparison is equality of version and classification set. |
| DatasetBindings.RepetitionBreaksSymmetry | plugin-sdk/go/dataset_binding.go:50-64 | With a repeated selector it would depend on the side it is made from. |
| DatasetBindings.EqualDatasetBindingSpecs | plugin-sdk/go/dataset_binding.go:50-64 | The two loops compute the comparison. |
| DatasetBindings.AppliedIsAsRequested | plugin-sdk/go/dataset_binding.go:248-303 | In an accepted bind or replace, a node reported applied runs exactly the requested version and classification set. |
| DatasetBindings.AppliedSelectsTheSame | plugin-sdk/go/dataset_binding.go:248-303 | A classification is requested exactly when such a node applies one with the same name, kind and attributes in any order. |
| DatasetBindings.ValidateResponse | plugin-sdk/go/dataset_binding.go:248-303 | The whole check on an acknowledgement, branch by branch. |
| DatasetBindings.TruthfulIsAccepted | plugin-sdk/go/dataset_binding.go:248-303 | A bind or replace answered truthfully is accepted: the record as asked at a higher revision, and up to 512 nodes that each say whether they run it. |
| DatasetBindings.TruthfulUnbindIsAccepted | plugin-sdk/go/dataset_binding.go:248-303 | And so is an unbind that leaves nothing. |
| DatasetBindings.ValidateDesired | plugin-sdk/go/dataset_binding.go:271-288 | The persisted record shown is for this instance and source at the acknowledged revision, keeps what a bind or replace asked for, and is absent after an unbind. |
| DatasetBindings.ValidateStatuses | plugin-sdk/go/dataset_binding.go:289-301 | The status loop accepts exactly distinct nodes with valid statuses whose desired spec is the persisted one. |
| DatasetBindings.ValidateStatus | plugin-sdk/go/dataset_binding.go:191-235 | One node's status, state by state. |
| DatasetBindings.ValidateSpec | plugin-sdk/go/dataset_binding.go:32-48 | A valid version and 1 to 64 valid classifications with distinct keys. |
| DatasetBindings.ValidateRequest | plugin-sdk/go/dataset_binding.go:110-156 | A request, action by action. |
| DatasetBindings.PlainRequestsAre | plugin-sdk/go/dataset_binding.go:110-156 | What each action needs and must not have, and from which revision: a bind from 0, a replace and an unbind from a later one. |
| DatasetBindings.CheckTargets | plugin-sdk/go/dataset_binding.go:514-534 | The answer names only nodes the caller may touch, and every selected node. |
| ManagedNetwork.StreamRequestsAre | plugin-sdk/go/managed_network.go:185-279 | A valid read or write request says how much, for how long, of which stream, and nothing else. |
| ManagedNetwork.ReadAnswers | plugin-sdk/go/managed_network.go:336-341 | A response answers a valid read exactly when it is bytes within the bound, the end, both, or an explicit idle result with neither, and nothing else. |
| ManagedNetwork.WriteAnswers | plugin-sdk/go/managed_network.go:347-351 | A response answers a valid write exactly when it acknowledges at least one byte and at most all that was sent, and nothing else. |
| ManagedNetwork.OpeningAnswers | plugin-sdk/go/managed_network.go:311-335 | A response answers a listen, dial or accept exactly with a valid handle of the asker, of the kind and protocol asked for, and for an accept with a valid source and a token of its own. |
| ManagedNetwork.DatagramAnswers | plugin-sdk/go/managed_network.go:342-351 | A send is answered exactly by all of it having been sent, a receive by at most the largest datagram. |
| ManagedNetwork.ClosingAnswers | plugin-sdk/go/managed_network.go:352-360 | A close, half-close or cancel exactly by being done. |
| ManagedStream.Host.Dispatch | plugin-sdk/go/managed_network_stream.go:178-201 | An operation fails before dispatch or after it, or returns the reply, which it does exactly when there is one that is valid for the request. |
| ManagedStream.TcpStream.Read | plugin-sdk/go/managed_network_stream.go:89-137 | The first reply that is not idle decides: its bytes are returned, with the end if it says so, and a reply that does not answer fails the call; polls end it too. Exactly the bytes handed out are returned, and an uncertain direction never dispatches. |
| ManagedStream.TcpStream.Write | plugin-sdk/go/managed_network_stream.go:143-176 | Ends, and returns exactly the sum of acknowledged bytes, a prefix of the input; it succeeds exactly when all are, and breaks only on a reply that does not answer; an uncertain direction never dispatches. |
| ManagedStream.TcpStream.HalfClose | plugin-sdk/go/managed_network_stream.go:233-250 | Closes one direction and leaves the other usable. |
| ManagedStream.UseStream | plugin-sdk/go/managed_network_stream.go:21-47 | Over any sequence of operations every byte the host handed out reaches the caller in order, every byte it accepted was asked for and counted, and a direction that failed after dispatch sends nothing more. |
| JsonValues.ValidIff | plugin-sdk/go/policy_overlay.go:255-268 | A text is accepted exactly when it is one JSON value of bounded depth with no repeated member at any level. |
| JsonScan.Scan | plugin-sdk/go/policy_overlay.go:270-320 | The scan over the streaming decoder accepts exactly a value within the remaining depth, and stops right after it. |
| JsonScan.ScanObject | plugin-sdk/go/policy_overlay.go:283-305 | The member loop refuses a repeated name and anything but name, value, name, value up to the closing brace. |
| JsonScan.ValidateJson | plugin-sdk/go/policy_overlay.go:255-268 | One value and then the end of the input. |
| PolicyOverlay.ValidateEnvelope | plugin-sdk/go/policy_overlay.go:77-97 | Schema, at most three stages, each valid, ranks strictly rising, and the whole within the depth bound. |
| PolicyOverlay.InOrderIff | plugin-sdk/go/policy_overlay.go:48-59 | The order of stages is address rules, rate limits, firewall. |
| PolicyOverlay.EnvelopeRoundTrip | plugin-sdk/go/policy_overlay.go:169-202 | Decoding the printed text of a valid envelope returns the envelope. |
| PolicyOverlay.DecodePolicyOverlayEnvelope | plugin-sdk/go/policy_overlay.go:169-202 | The stage loop decodes what is specified: exactly the known members, in any order, checked raw first. |
| PolicyOverlay.DecodesIff | plugin-sdk/go/policy_overlay.go:169-202 | An envelope is decoded exactly from what writes it, if it is valid: these members and no others, in whatever order. |
| PolicyOverlay.SelectFindsTheOwner | plugin-sdk/go/policy_overlay.go:208-225 | Selecting returns the payload of the one stage of that kind and owner; absent exactly when no stage has the kind; refused exactly when another policy owns it. |
| PolicyOverlay.SelectRefusesIff | plugin-sdk/go/policy_overlay.go:208-217 | A selection is refused outright exactly for an unknown kind, a policy without a proper name or an invalid envelope. |
| PolicyOverlay.OtherStagesDoNotMatter | plugin-sdk/go/policy_overlay.go:208-225 | What is selected for one kind does not depend on the other stages. |
| PolicyOverlay.SelectPolicyStageOverlay | plugin-sdk/go/policy_overlay.go:208-225 | The loop computes the selection. |
| PolicyOverlay.LegacyBelongsToItsOwner | plugin-sdk/go/policy_overlay.go:116-163 | A legacy overlay gives its owner exactly what was stored, gives no other policy anything, and leaves the other kinds alone. |
| PolicyOverlay.LegacyDecodesIff | plugin-sdk/go/policy_overlay.go:116-163 | A legacy overlay decodes exactly for a properly named owner and an object that an envelope can carry, a firewall's only with its one mode; an empty text or null is no override. |
| PolicyOverlay.ValidEnvelopeIff | plugin-sdk/go/policy_overlay.go:77-97 | An envelope is valid exactly when its stages are few, valid by themselves and in order, and each payload would still be within the depth bound three levels down, where the envelope puts it. |
| PolicyOverlay.DeepPayloadIsRefused | plugin-sdk/go/policy_overlay.go:92-96 | So for every kind and owner there is a stage, valid by itself, that no envelope can carry. |

## Left out

- HotRestart.ReplacementLeavesOneOwner: an abort counts as the child being dead even if the call reports an error, and a resume that reports one is only remembered as such; how a registry or the operating system recovers is not modelled. Exporting and flushing are calls that succeed or fail, without packets or descriptors.
- HotRestartIdentity.ChildAcceptsIff: the two processes see the same journal, snapshot and runtime; supervision of later processes, drain polling and the child's own startup protocol are not part of this model.
- GenerationGuarantees.ValidatedMeansOwned: drain timers, forced sessions, cleanup retries and the limit on draining generations appear only as a generation finishing and being pruned at any time; a session's entity and its revocation are not modelled.
- GenerationGuarantees.ShutdownDestroysEachOnce: only the first shutdown is covered; a second one destroys the active view again, as the code does.
- PkiHeartbeat.Handler.PrepareHeartbeat: activation of staged registrations and the security acknowledgement with its listener list are not modelled, so neither are the errors they can add after the offers are recorded.
- PkiHeartbeat.Handler.ApplyHeartbeat: certificate, chain and expectation checks inside the store are reduced to one success or failure per activation; if what a reply answers is no longer pending, only that malformed replies change nothing is stated of the whole, and the rest of each answer by itself.
- PkiAgent.Agent.EnsureRenewalPending: the agent and handler objects run one call at a time; other threads between their writes are the matter of the PkiRejection modules, which keep of a schedule only its intent and of the store only the agent's own request.
- PkiRejectionGuarantees.RejectedIsOfferedAgainIff: on a wedged disk a thread that has the request on its list may be stuck as well; which of them are is left open.
- PkiRejectionThreads.ReconcileIsARun: of the scheduler only the rejection and the reconciliation are tied to the objects; the other actions of a thread, forced rotation among them, are modelled in the system of threads alone.
- PkiStore.Store.SaveRenewal: the formats of identities, fingerprints, request ids and codes are reduced to being non-empty, and the stamp of the time of writing is dropped.
- PkiListeners.BuildTargets: the canonical certificate names of a listener are an input; parsing of hosts and addresses is not modelled.
- PkiTimes.CredentialDueIsNearTheThird: instants are unbounded integers of nanoseconds; calendar and time zones play no part.
- ActionExecutor.Invoke: claim tokens are drawn fresh rather than at random, and the resource handle of a request matters only in its validation.
- LogReports.ReportKeyInjective: identities are ASCII, as the code demands; a message's size is counted in characters.
- LogOutbox.Outbox.RecoverableIntents: the sorted order of the list is left open, because completing in any order is proved to come to the same.
- DatasetCodec.RequestRoundTrip: fields are printed in the order of their numbers; whether a deterministic marshaller chooses that order is an assumption.
- DatasetCodec.UnmarshalDatasetQueryResponse: the second size check, on a JSON encoding of the response, is left out.
- DatasetBindings.ValidateRequest: the instance configuration of an update is only present or absent, and policy defaults only their expected revision.
- DatasetBindings.CheckTargets: authorization, revision conflicts and the digest that ties a replay to its request are not modelled.
- ManagedStream.TcpStream.Read: one operation at a time; a half-close or close that overtakes a blocked read or write is not interleaved with it, and cancellation is a budget of idle polls. Operation ids are taken to be well formed, as the adapter draws them.
- ManagedStream.UseStream: closing sets the state and drops the host's answer to the close request.
- WasmInspector.InspectDeclarations: names are byte strings, and the compilation and the export and memory checks that follow the inspection are not modelled.
- ProtobufWire.JoinedReads: a group is kept as the bytes it spans.
- ExtensionWire.AcceptedDecodesAlike: kinds of fields that no policy message uses are left out of the schemas, where the code refuses them.
- JsonScan.Scan: begins at lexemes; escapes, numbers and literals are already read, and the byte budgets on overlays are left out with them.
- PolicyOverlay.EnvelopeRoundTrip: payloads are values rather than raw text, so white space in them is not preserved.
- The outbox on disk: journal, recovery, compaction and drain retries.
- The trusted-source and dataset-resolve messages, and policy modes: members of the same kind as those modelled.
- HTTP, sockets, files, tar archives, processes, TLS, X.509 and randomness.
- Nil receivers, nil contexts and missing stores, and defensive copies: values have no aliases here.
- White space and letter case are those of ASCII, with the two white-space characters of Latin-1 beyond it; text is a sequence of Unicode scalar values.
- The wording of errors: outcomes say which check failed only where a caller can tell.
- Single-branch field validators, manifests, UI components and host or port syntax, which would add only easy members.
