# Verification of the case, task and integration logic

This project models the parts of the National Single Window backend whose correctness rests on more than one
statement, one caller or one pass over the data, and proves what they promise. One module models one component, in the
form the component has: protocols that several callers run at once are transition systems with a theorem about every
run; objects that are updated in place are classes and methods proved against a specification; computations are
functions with lemmas.

## What is modelled

**Cases and flows** (`CaseRows`, `CaseHistory`, `CaseLocks`, `CaseSerializability`, `CaseDeadlock`, `CaseOrder`,
`CaseRepository`, `FlowStart`, `FlowStartSafety`, `FlowStartSource`, `FlowStartAccepted`, `FlowStartRuns`,
`FlowStartSecondRun`, `FlowService`). A case row, its flow rows and its party rows, and the four operations on them.
`CaseLocks` runs the operations one SQL statement at a time: a transaction is a program counter with uncommitted
writes and the row locks it holds; a statement sees the committed rows plus its own, waits while another transaction
holds a conflicting lock (FOR KEY SHARE, FOR NO KEY UPDATE and FOR UPDATE on a case; the key of an inserted row; a
written flow or party row), and any transaction may roll back at any point. Every schedule is shown to commit what its
committed transactions do one after another, and what is true of every serial run (the case label, the fold of
attributes and owners, which cases exist, status moving forward) of every schedule. Waits never form a cycle and every
transaction can be run to its commit. The two variants that the comment in the repository warns against (reopening
before the insert, and no foreign key) are shown to reach the bad state by an explicit schedule. On top of that, any
number of `StartFlow` requests, completions, deploys, crashes and runs of the engine interleave, one call at a time.

**Force-park and resolve** (`ForcePark`, `ForceParkSafety`, `ForceParkCalls`, `ForceParkHandlers`). The engine's node
table and the task table are two systems. Force-parks, their repeats, admin resolves, task completions and the
engine's own steps interleave; each handler acts on a status it read earlier, and what each call does in any state is
stated exactly.

**Claim takeover** (`ClaimTakeover`, `ClaimTakeoverSafety`, `ClaimTakeoverRun`, `ClaimHandlers`). A takeover is a
release and a claim, with other users and the task's completion or removal in between.

**Held-callback retries** (`CallbackTable`, `CallbackRetry`). The pending table, the wait group and the retry
goroutines; and the loop with its capped doubling wait and its deadline.

**GovPay+ encryption** (`GovPayCipher`, `GovPayParams`, `GovPayWalk`). PKCS7 padding (section 6.3 of RFC 5652), CBC
(section 6.2 of NIST SP 800-38A) over any block cipher that is a permutation, the in-place decryption of request rows
with what a failure leaves behind, and the recursive in-place walk over a response, shared strings included.

**Searches** (`ConsignmentSearch`, `StaticSearch`). The escaped LIKE pattern against literal containment; the
consignment list with its count; the four-tier match, the stable ranking and its pages.

**HS-code split** (`HscodeSplit`). Which workflows the HS codes ask for, less the replaced ones.

**SLPA consolidation** (`SlpaPairing`, `SlpaReadBack`). The lists made of a lookup's answer, what is recorded, what is
read back, and the pair made of it.

**ePhyto submission** (`EphytoItems`, `EphytoAddress`, `EphytoAttachments`, `EphytoSubmit`). When an envelope is built,
and what it then holds: its items, its documents, its size and its addresses.

`Basics`, `Text` and `Wrappers` hold what several modules share.

In the transition systems a step that cannot be taken changes nothing, so a theorem about all lists of steps is a
theorem about all executions. A step that fails or crashes is a step of its own (`Rollback`, `Lose`, a fault argument).

## Where the code and its text differ

- `internal/tasks/claim_handler.go:126-129` says that when the claim of a takeover fails, the audit trail tells that
  the previous claim stays released. A claim that is refused does leave that record. When the manager itself fails at
  the claim, or the task has been removed by then, nothing is audited: `ReleasedTakeoverIsAuditedIff` shows that these
  are exactly the exceptions, and `ClaimTakeoverRun` gives an execution of each.
- `external-integration/ephyto/attachments.go:85-98` promises that every attached file carries a type the Hub accepts.
  An empty file has no base64, so its type is not looked at, yet `external-integration/ephyto/spscert/convert.go:78`
  embeds any attachment that has a filename. `EmbeddedTypeIsAcceptedIff` states exactly when the promise holds, in
  terms of the attachment and the stored file; `EmptyFileGoesOutUntyped` is a concrete file.
- A workflow ID can get a second run only if a request read its row as STARTING before the run ended and starts it
  after: `AtMostOneRun` needs that side condition, `EndIsFinalIff` shows that it is exact, and `SecondRunHappens` that
  an execution breaks it.
- PKCS7 as written is undone for every block size up to 255 and fails for larger ones, where the pad byte no longer
  holds the pad length: `PaddingIsUndoneIff`. The program uses 16.

## Model

| member | source | states |
|---|---|---|
| CaseHistory.AtomicKeepsConsistent | internal/caseflow/repository.go:102-359 | each operation run alone keeps: a case is FINISHED exactly when it has a flow and all its flows are COMPLETED, and every flow has its case |
| CaseHistory.AtomicMovesForward | internal/caseflow/repository.go:257-277 | no operation removes a row, changes a flow's identity or moves a status back |
| CaseHistory.AtomicRunMovesForward | internal/caseflow/repository.go:257-359 | the same over every serial run |
| CaseHistory.RowsFoldInserts | internal/caseflow/repository.go:132-204 | after any serial run there is a flow row exactly for each workflow ID that was recorded, with the case, template, version and payload of its first insert; a case's attributes and name are the override fold of its first-inserted flows' infos in order, and each role's holder that of the last such flow naming it; repeats contribute nothing |
| CaseHistory.CaseRowsAreOwned | internal/caseflow/repository.go:148-163 | every case row was ensured or has a flow, and every ensured case or case of a flow has its row |
| CaseHistory.StatusIsOfItsOwnOperations | internal/caseflow/repository.go:257-359 | after any serial run a flow is COMPLETED exactly when its MarkCompleted followed its first record, STARTING exactly when neither that nor its MarkStarted did, and STARTED otherwise |
| CaseSerializability.StatementExclusive | internal/caseflow/repository.go:137-147 | a statement that nothing blocks leaves its transaction's locks compatible with those of every other |
| CaseSerializability.CommitUndisturbs | internal/caseflow/repository.go:132-182 | a commit changes nothing that the locks of another open transaction protect |
| CaseSerializability.EveryScheduleKeepsInv | internal/caseflow/repository.go:102-359 | every interleaving of statements, with rollbacks anywhere, keeps the committed rows consistent, each open transaction in step with them and the locks exclusive |
| CaseSerializability.CommitIsAtomic | internal/caseflow/repository.go:102-359 | the writes a transaction commits are those of its operation run at that moment on the committed rows |
| CaseSerializability.CommitsAreSerial | internal/caseflow/repository.go:102-359 | the committed rows of every schedule are those of running its committed operations one after another in commit order |
| CaseSerializability.CaseLabelIsRight | internal/caseflow/service.go:11-14 | in every committed state of every schedule a case is FINISHED exactly when it has a flow and all its flows are COMPLETED |
| CaseSerializability.CommittedRowsFoldInserts | internal/caseflow/repository.go:132-204 | the committed flows, cases, names and parties of every schedule are the fold of the flows in the order they were first committed, each flow row holding what its insert carried |
| CaseSerializability.CommittedCasesAreOwned | internal/caseflow/repository.go:148-163 | in every schedule a case row is committed exactly when an EnsureCase of it has committed or it has a committed flow |
| CaseSerializability.CommittedStatusFollows | internal/caseflow/repository.go:257-359 | in every schedule the status of a committed flow is what the committed operations naming it make it |
| CaseSerializability.SchedulesMoveForward | internal/caseflow/repository.go:257-359 | from any point of any schedule to any later one no committed row disappears, no flow changes its identity and no status moves back |
| CaseSerializability.MissesExactlyTheUnknown | internal/caseflow/repository.go:257-340 | a status change misses exactly when its workflow ID has no committed flow at the statement that looks it up |
| CaseSerializability.LeftOutWritesNothing | internal/caseflow/repository.go:257-277 | in every schedule a MarkStarted or MarkCompleted of an unknown flow commits without changing a row |
| CaseDeadlock.WaitsForHigherRank | internal/caseflow/repository.go:132-182 | a transaction only ever waits for one that is further along in the one lock order |
| CaseDeadlock.NoWaitCycle | internal/caseflow/repository.go:132-357 | no reachable state has a cycle of transactions waiting for each other |
| CaseDeadlock.SomeoneCanMove | internal/caseflow/repository.go:132-357 | while any transaction is open, one of them can take its next statement |
| CaseDeadlock.EveryTransactionCanCommit | internal/caseflow/repository.go:132-357 | from every reachable state the open transactions can all be run to their end with no rollback |
| CaseOrder.OrderAndForeignKeyAreNeeded | internal/caseflow/repository.go:137-143 | reopening before the insert, or inserting with no foreign key check, each has a schedule that commits a FINISHED case with a pending flow |
| CaseRepository.Repository.EnsureCase | internal/caseflow/repository.go:95-105 | inserts the case row if absent and nothing else |
| CaseRepository.Repository.Record | internal/caseflow/repository.go:107-183 | statement by statement, fails exactly when a statement it reaches fails, and then commits nothing; otherwise commits the whole first-insert record, whose flow row is STARTING with the case, template, version and payload given; a repeat changes no row |
| CaseRepository.Repository.MarkStarted | internal/caseflow/repository.go:257-277 | moves a STARTING row to STARTED, leaves any other, and reports an unknown flow |
| CaseRepository.Repository.MarkCompleted | internal/caseflow/repository.go:329-359 | completes the flow and finishes the case once all its flows are completed; false exactly for an unknown flow |
| FlowStartSafety.StartsAgree | internal/caseflow/service.go:136-179 | any two engine starts of one workflow ID, across retries, requests and deploys, carry the same definition and the same variables: the row's case ID and version under core's two names, and under every other name what the row recorded |
| FlowStartSafety.RowIsTheFirstInsert | internal/caseflow/repository.go:60-65 | the case, template, version and payload of a recorded flow never change after its first insert |
| FlowStartSafety.ApplyKeepsInv | internal/caseflow/service.go:110-189 | every call, crash, completion, deploy and engine step keeps: every request in flight holds its row's own identity and definition, and every start carries what its row says |
| FlowStartSource.RowsComeFromRequests | internal/caseflow/service.go:84-155 | in every execution the rows are those of running whole operations one after another, each record as a valid request had it: its case, template, variables, owner and case info, on a version that was current |
| FlowStartSource.StartsCarryARequest | internal/caseflow/service.go:228-253 | in every execution each engine start has the definition of the template some valid request asked for, on a version that was current, and the variables of that request with its case ID and that version |
| FlowStartAccepted.StartedMeansAccepted | internal/caseflow/repository.go:21-27 | in every execution a row past STARTING is of a workflow the engine has accepted |
| FlowStartRuns.NoLaterStart | internal/caseflow/service.go:167-171 | once a flow is STARTED or COMPLETED no request begun later reaches the engine for it |
| FlowStartRuns.AtMostOneRun | internal/caseflow/service.go:157-189 | a workflow ID gets at most one run in every execution in which no request holds a STARTING read of it across the end of its run |
| FlowStartRuns.EndIsFinalIff | internal/caseflow/service.go:167-171 | the end of the one run of a workflow ID is final exactly when no request holds a STARTING read of it at that moment |
| FlowStartSecondRun.StaleReadIsReached | internal/caseflow/service.go:167-171 | an execution reaches a run about to end, its completion recorded, while another request holds a STARTING read |
| FlowStartSecondRun.SecondRunHappens | internal/caseflow/service.go:167-171 | some execution gives one workflow ID a second run, so the side condition of AtMostOneRun cannot be dropped |
| FlowStartRuns.RequestIsAnswered | internal/caseflow/service.go:123-189 | whatever else interleaves, a request whose calls succeed is answered within seven calls |
| FlowStartRuns.RetryEndsStarted | internal/caseflow/service.go:117-122 | from any state crashed attempts leave, one more StartFlow with the recorded case and template whose calls succeed returns the recorded flow as started, with the row STARTED or COMPLETED and the workflow accepted by the engine |
| FlowStartRuns.StartEndsStartedOrConflict | internal/caseflow/service.go:123-155 | any valid request whose template stays known returns the recorded flow as started, with its workflow accepted by the engine, or ends with a conflict exactly when the row that won has another case or template |
| FlowStartRuns.RepeatWithOtherDetailsChangesNothing | internal/caseflow/service.go:159-166 | a request that disagrees with the recorded row changes no row and starts nothing, at whichever call it is |
| FlowStartRuns.RepeatWithOtherDetailsIsRefused | internal/caseflow/service.go:159-166 | and with a workflow ID of its own choosing it is refused at its first call |
| FlowService.Service.Start | internal/caseflow/service.go:231-253 | issues one engine start, after which the workflow is running and a new run only if it was not before; its variables are the row's case ID and version under core's two names and, under every other name, exactly what the row recorded |
| FlowService.Service.Resume | internal/caseflow/service.go:157-189 | issues the one start of the recorded row exactly when the row agrees, is STARTING, its template loads and the call succeeds, marks it STARTED only after that, changes nothing otherwise, and says which of these it was |
| FlowService.Service.RecordAndResume | internal/caseflow/service.go:138-155 | records exactly the requested flow on the current version with its owner and case info, and resumes what is then recorded; a failed call in between leaves that record and starts nothing |
| FlowService.Service.StartFlow | internal/caseflow/service.go:123-155 | with any of its calls failing: it records the flow with the case, template, variables, owner and case info asked for, on the current version, when it gets that far, and then issues exactly the start of the recorded row, with its definition and variables; it returns only a flow the engine has been given; a repeat with other details or of a started flow changes and starts nothing; a request without a case or template or with a slash in its ID, or for an unknown template, leaves no rows; with all calls succeeding the started row is returned |
| FlowService.Service.CompletionHandler | internal/caseflow/service.go:267-281 | marks the flow COMPLETED and the case by its label, or errs and changes nothing |
| ForceParkSafety.ApplyKeepsInv | internal/workflowadmin/force_park.go:68-123 | every call of every handler and every engine or task step keeps steps distinct, closed tasks stopped and what each handler relies on |
| ForceParkSafety.ClosedOnlyAfterStopping | internal/workflowadmin/force_park.go:45-47 | a task is closed by force-park only after its step stopped accepting its completion, and it never accepts it again |
| ForceParkSafety.ParkedAtMostOnce | internal/workflowadmin/force_park.go:88-95 | no step is ever force-parked twice |
| ForceParkSafety.ForceParkedMeansClosed | internal/workflowadmin/force_park.go:33-47 | a force-park of a task node that succeeded leaves its step stopped and its task not open |
| ForceParkSafety.RepeatFinishesTheClose | internal/workflowadmin/force_park.go:64-67 | repeating the call while the step is still parked finishes with the task closed and parks nothing again, whatever happens between its calls |
| ForceParkSafety.RepeatAfterTheStepIsRefused | internal/workflowadmin/force_park.go:108-123 | once the step is over or replaced a repeat is refused and changes neither table |
| ForceParkSafety.StepParkLeavesTheTask | internal/workflowadmin/force_park.go:49-62 | parking a step of a task workflow never closes a task and never adopts an earlier park |
| ForceParkSafety.SignalActsOnParkedOnly | internal/workflowadmin/engine_status.go:262-277 | a resolve signal acts only on a step that is parked when it lands, and only once |
| ForceParkSafety.GatewayIsNeverCompleted | internal/workflowadmin/engine_status.go:295-297 | a COMPLETE never changes a gateway, however late its signal lands |
| ForceParkSafety.OnlyTasksAreForceParked | internal/workflowadmin/force_park.go:108-115 | only a task node is ever force-parked |
| ForceParkCalls.ResolveIsCheckedFirst | internal/workflowadmin/engine_status.go:291-298 | a resolve of a current step is refused exactly when it is not parked, or is a parked gateway to be completed, and is signalled otherwise; the check changes nothing |
| ForceParkCalls.ResolveOfNoRunIsRefused | internal/workflowadmin/engine_status.go:306-318 | a resolve of the empty step, or of one that is no current run, is refused as not parked |
| ForceParkCalls.SignalResolvesParked | internal/workflowadmin/force_park.go:19-24 | the signal of a RETRY gives a still parked step a new run under a new step with a new open task; that of a COMPLETE or ABORT ends the node |
| ForceParkCalls.LateSignalIsDropped | internal/workflowadmin/engine_status.go:269-277 | the signal for a step no longer parked changes nothing and is still answered with success |
| ForceParkCalls.ParkIsCheckedFirst | internal/workflowadmin/force_park.go:108-123 | a force-park goes on exactly for a waiting TASK, or to the close of one already force-parked if it closes; any other step is refused, for its type or for not waiting |
| ForceParkCalls.ParkOfNoRunIsRefused | internal/workflowadmin/force_park.go:104-112 | a force-park of the empty step, or of one that is no current run, is refused as not waiting |
| ForceParkCalls.ParkTakesEffect | internal/workflowadmin/force_park.go:88-95 | the park takes effect exactly if the step still waits at that moment, and is refused otherwise |
| ForceParkCalls.CloseEndsTheTask | internal/workflowadmin/force_park.go:36-46 | the close ends an open task, takes any other as closed, and touches nothing else |
| ForceParkCalls.CompletionIsAcceptedIff | internal/workflowadmin/force_park.go:29-42 | a task's completion is accepted exactly while its step is running; one that comes after the park is rejected |
| ForceParkCalls.ParkOfWaiting | internal/workflowadmin/force_park.go:29-47 | force-parking a waiting TASK with nothing in between leaves its step parked and its open task closed |
| ForceParkCalls.RetryOfParked | internal/workflowadmin/force_park.go:19-24 | and resolving it with RETRY ends with the node running under a new step with a new open task |
| ForceParkHandlers.NodeTable.FindNodeByStep | internal/workflowadmin/force_park.go:126-136 | the scan in map order finds a node of the step if there is one, and none for the empty step |
| ForceParkHandlers.NodeTable.FindParkedNode | internal/workflowadmin/engine_status.go:306-318 | the scan in map order finds a parked node of the step if there is one, and none for the empty step |
| ForceParkHandlers.ForceParkStep | internal/workflowadmin/force_park.go:68-103 | parks first and closes after; refused exactly when the step names no waiting task node nor one it may finish, as unsupported exactly for another node type, with nothing changed; a success leaves the step parked and closes its open task and no other; a failed close leaves the step parked |
| ForceParkHandlers.ResolveAdminIntervention | internal/workflowadmin/engine_status.go:278-304 | refused exactly when the step names no parked run, or a parked gateway to be completed; a success sends one signal, for the parked node of the step and with the action asked for, and anything else sends none |
| ClaimTakeoverSafety.OnlyTheHolderReadLosesTheClaim | internal/tasks/claim_handler.go:122-138 | under any interleaving of users a claim or takeover changes only a free claim or that of the holder it read |
| ClaimTakeoverSafety.PreviousIsTheHolderRead | internal/tasks/claim_handler.go:122-125 | the holder a takeover acts on is another user whom the record named when it was read open |
| ClaimTakeoverSafety.NoContentMeansHeld | internal/tasks/claim_handler.go:140-145 | a 204 is given only if ClaimTask left the caller holding the open task's claim |
| ClaimTakeoverSafety.AuditSaysWhatWasReleased | internal/tasks/claim_handler.go:308-324 | in every takeover audit record, previous_claim_released is exactly whether its ReleaseTask succeeded, also when the claim then failed |
| ClaimTakeoverSafety.ReleasedTakeoverIsAuditedIff | internal/tasks/claim_handler.go:126-144 | a takeover that has released the previous claim and is about to make its own will be audited exactly when the manager does not fail and the task is still there |
| ClaimTakeoverSafety.ReleasedTakeoverIsAuditedByAnswer | internal/tasks/claim_handler.go:188-211 | in every execution an answered takeover that released the previous claim has a record exactly when its answer was 204 or 409 |
| ClaimTakeoverRun.FailureLeavesAReleaseUnaudited | internal/tasks/claim_handler.go:126-144 | two executions from the start, one in which the manager fails at the claim (500) and one in which the task is removed before it (404), end with a released claim that no record tells of |
| ClaimTakeoverSafety.ReleaseIsOnesOwn | internal/tasks/claim_handler.go:154-167 | a release removes only its caller's own claim and is answered 204 exactly when it succeeded |
| ClaimTakeoverSafety.NamelessIsUnauthorized | internal/tasks/claim_handler.go:206-229 | a caller without a user ID is answered 401, and nothing changes or is audited |
| ClaimHandlers.TaskManager.Claim | internal/tasks/claim_handler.go:90-95 | the manager's atomic claim: a failure changes nothing, and a success leaves the open task with the caller |
| ClaimHandlers.TaskManager.Release | internal/tasks/claim_handler.go:90-95 | the manager's atomic release of a named holder: a success leaves the task free and took it from nobody else |
| ClaimHandlers.ClaimHandler.HandleClaimTask | internal/tasks/claim_handler.go:109-145 | claim or takeover on a record read earlier: when each of 204, 404, 409 and 500 is answered, in terms of the record read and the task now; the exact claims afterwards, a takeover's release standing when its claim fails; and one record for a 204 or 409, none otherwise, saying whether that release succeeded |
| ClaimHandlers.ClaimHandler.HandleReleaseTask | internal/tasks/claim_handler.go:147-211 | when each of 204, 403, 404, 409 and 500 is answered; only the caller's claim is freed; and one record for an applied or refused release, none for a missing task or a failure |
| CallbackTable.EveryRunKeepsInv | external-integration/customs/asycuda/retry.go:67-87 | every interleaving of schedule calls and goroutine steps, panics included, keeps the table and the wait group in step with the live retries |
| CallbackTable.PendingIffLive | external-integration/customs/asycuda/retry.go:53-58 | a key is pending exactly while one retry of it is live, and never two |
| CallbackTable.GroupCountsRetries | external-integration/customs/asycuda/retry.go:115-116 | the wait group counts the retries not yet ended, and is zero exactly when there is none |
| CallbackTable.AppliedAtMostOnce | external-integration/customs/asycuda/retry.go:94-99 | a retry applies its callback successfully at most once and then stops |
| CallbackTable.RedeliveryJoins | external-integration/customs/asycuda/retry.go:64-73 | a redelivery joins exactly when another live retry has its callback, and otherwise starts one |
| CallbackTable.FailingForNowGoesOn | external-integration/customs/asycuda/retry.go:100-113 | an attempt that fails for now ends nothing: the retry goes on with its key held and counted |
| CallbackTable.EveryEndingReleases | external-integration/customs/asycuda/retry.go:77-86 | however the last attempt ends, a panic included, the key is given back and the group counts down, and the callback has been applied exactly if the attempt succeeded |
| CallbackRetry.Retry | external-integration/customs/asycuda/retry.go:89-113 | the loop ends for positive settings, whatever the attempts take; each wait is the capped doubling, the first sleep begins when the callback is held and each later one when the attempt before it is over, every one but the first ends within the window, and it ends applied, permanently failed, or given up because the next wait would not |
| CallbackRetry.WaitIsCappedDoubling | external-integration/customs/asycuda/retry.go:104 | the wait before attempt n is min(Initial * 2^(n-1), Max) when Initial is at most Max |
| CallbackRetry.DoublingFits | external-integration/customs/asycuda/retry.go:104 | doubling a wait never leaves a 64-bit duration while both settings are below 2^62 nanoseconds |
| CallbackRetry.DefaultAttemptsBound | external-integration/customs/asycuda/retry.go:32-36 | the waits of n attempts fit the default window exactly when n is at most 149 |
| CallbackRetry.PermanentIsNotEarly | external-integration/customs/asycuda/retry.go:118-151 | what ends a retry for good is never what has a callback held for it: each error is early, permanent or a fault of the moment, and only one of these |
| CallbackRetry.RetryByDefault | external-integration/customs/asycuda/retry.go:89-113 | by default a callback is tried at most 149 times and given up only when the waits and delays so far leave no room for the next wait in a day; exactly 149 times when only waiting takes time and it stays early |
| GovPayCipher.UnpadInLoop | external-integration/payment/govpay/crypto.go:269-284 | the loop over the claimed padding stays in bounds and decides what Unpad says |
| GovPayCipher.UnpadInvertsPad | external-integration/payment/govpay/crypto.go:263-284 | for block sizes up to 255, Unpad gives d exactly for Pad of d: it accepts the images of Pad and nothing else |
| GovPayCipher.PaddingIsUndoneIff | external-integration/payment/govpay/crypto.go:263-284 | for every block size, padding is undone exactly when its length fits a byte |
| GovPayCipher.XorTwice | external-integration/payment/govpay/crypto.go:222 | exclusive or with the same block twice is the block |
| GovPayCipher.XorIs | external-integration/payment/govpay/crypto.go:222 | a bit of the exclusive or of two texts is set exactly when it is set in one of them and not in both |
| GovPayCipher.BitsDetermine | external-integration/payment/govpay/crypto.go:222 | numbers of n bits with the same bits are the same, so the bits say what the exclusive or is |
| GovPayCipher.CbcBlockIs | external-integration/payment/govpay/crypto.go:222 | each ciphertext block is the cipher of the text block exclusive-or the ciphertext block before it, the IV before the first |
| GovPayCipher.EncryptIs | external-integration/payment/govpay/crypto.go:213-224 | an encrypted field is the base64 of the CBC encryption, block by block, of the text padded with n bytes n, under the digest of the transaction key and with its first 16 bytes as IV |
| GovPayCipher.CbcRoundTrip | external-integration/payment/govpay/crypto.go:215-242 | CBC decryption undoes CBC encryption for any number of blocks and any permutation cipher |
| GovPayCipher.CbcRoundTripBack | external-integration/payment/govpay/crypto.go:215-242 | and encryption undoes decryption |
| GovPayCipher.DecryptUndoesEncrypt | external-integration/payment/govpay/crypto.go:215-242 | every text encrypts under a 32-byte key and decrypts to itself |
| GovPayCipher.DecryptAcceptsOnlyEncrypted | external-integration/payment/govpay/crypto.go:227-242 | a field decrypts to a text exactly when it is, up to its base64 spelling, that text's encryption under a 32-byte key |
| GovPayParams.DecryptInPlace | external-integration/payment/govpay/crypto.go:145-166 | decrypts the rows in place; on an error the row is left half done and the later rows as they came |
| GovPayParams.PassIsDetermined | external-integration/payment/govpay/crypto.go:145-166 | what the pass leaves, rows and error, is determined by what it was given |
| GovPayParams.PassSucceedsIff | external-integration/payment/govpay/crypto.go:145-166 | it succeeds exactly when every field of every row decrypts and every value is a string, and otherwise stops at the first row that does not |
| GovPayParams.StoppedRowIs | external-integration/payment/govpay/crypto.go:145-166 | in the row a pass stopped in the fields before the one at fault are decrypted, that one is empty unless it is a value that is no string, and those after it are as they came; the error is that field's |
| GovPayParams.RequestIsReadBack | external-integration/payment/govpay/crypto.go:138-144 | a request encrypted field by field is read back whole |
| GovPayWalk.EncryptStrings | external-integration/payment/govpay/crypto.go:176-211 | the walk encrypts every reachable string once for each way of reaching it, leaves everything else and the shape, and fails exactly when there is a string and the key cannot be used |
| GovPayWalk.CellsAreLedTo | external-integration/payment/govpay/crypto.go:168-175 | the strings the walk reaches are exactly those some way down through set pointers, elements and exported fields leads to |
| GovPayWalk.WalkIsUndone | external-integration/payment/govpay/crypto.go:168-175 | decrypting each string as often as it was reached restores the response; an unshared string was encrypted exactly once |
| GovPayWalk.EncryptResponse | external-integration/payment/govpay/crypto.go:168-178 | under the real cipher the walk fails exactly when the key is not 32 bytes and there is a string to encrypt, and then leaves every string; otherwise each string decrypts to what it was |
| ConsignmentSearch.EscapeIsOnePass | internal/consignment/service.go:408-410 | the three replacements in turn escape each special character of the query exactly once |
| ConsignmentSearch.LikeIsContainment | internal/consignment/service.go:407-413 | a text matches the pattern exactly when its lower case contains the lower-cased query literally |
| ConsignmentSearch.UnescapedAreWildcards | internal/consignment/service.go:404-413 | an unescaped underscore would match any one character and an unescaped percent sign any text |
| ConsignmentSearch.EscapeCharacterLastWouldBeWrong | internal/consignment/service.go:408-410 | escaping the escape character last would make a query of one percent sign miss itself |
| ConsignmentSearch.SelectIs | internal/consignment/service.go:398-416 | the selected rows are exactly those of the trader or agent company asked for that the filters and the literal query want, each as often as it is there and in order; an empty query filters nothing |
| ConsignmentSearch.CallerRoles | internal/consignment/service.go:474-487 | trader is among the roles exactly when the caller is the company of the trader filter, cha exactly when of the agent filter, nothing else is, and trader comes first |
| ConsignmentSearch.List | internal/consignment/service.go:394-472 | the limit rows of the selected ones from the offset on, and a total that is their number whether or not it was counted; every listed row names a role the caller holds |
| StaticSearch.ParseRows | internal/staticdata/search.go:56-75 | reads every entry that decodes in order, null as an empty option, and fails exactly when one has no const or no title, at the first such; what does not decode is passed over |
| StaticSearch.RowsAreTheDecoded | internal/staticdata/search.go:56-75 | the rows read are the entries that decode, each as often as it is there and in the order of the artifact |
| StaticSearch.FilterByParent | internal/staticdata/search.go:41-54 | the rows whose parents list the parent, in order; an empty parent keeps every row |
| StaticSearch.ScopedKeeps | internal/staticdata/search.go:41-54 | every row whose parents list the parent stays as often as it is there and in order, and no other; an empty parent keeps every row |
| StaticSearch.WordBoundary | internal/staticdata/search.go:135-148 | whether a word after the first starts with the query |
| StaticSearch.LaterWordIs | internal/staticdata/search.go:132-148 | that is: the query holds no separator and stands right after one with a word before it |
| StaticSearch.MatchesIffContains | internal/staticdata/search.go:115-130 | despite four tiers and word splitting a row matches exactly when its lower-cased title or const contains the query |
| StaticSearch.ScoreIsFirstTier | internal/staticdata/search.go:77-79 | the score is the first tier the row meets: title or const equal to the query, starting with it, the query at a later word of the title, the query anywhere in either |
| StaticSearch.RankingIsUnique | internal/staticdata/search.go:98-106 | two orderings of the same matches by score, title bytes, const and place are the same |
| StaticSearch.MatchesAre | internal/staticdata/search.go:90-97 | the matches are the matching rows, each with its score and once for each place |
| StaticSearch.RankIsListedInOrder | internal/staticdata/search.go:77-113 | every row listed stands before the later ones for its earlier tier, then its shorter title in UTF-8 bytes, then its smaller lower-cased const, then its place in the artifact |
| Text.LessIffByteOrder | internal/staticdata/search.go:105 | comparing texts by code points is comparing their UTF-8 bytes |
| Text.AsciiSpaceIsTrimmed | internal/staticdata/search.go:81 | trimming takes off the blanks, tabs and line ends around a text that begins and ends with something that shows, and nothing else |
| StaticSearch.RankRows | internal/staticdata/search.go:77-113 | the loops and the sort give that ranking; an empty query keeps the order |
| StaticSearch.RankIsTheStableSort | internal/staticdata/search.go:98-113 | the ranking is the one stable sort of the matches: any other list so ordered is it |
| StaticSearch.Search | internal/staticdata/search.go:30-39 | the limit rows from the offset on of the ranking of the parent's rows, and the ranking's length as the total |
| StaticSearch.PagesConcatenate | internal/staticdata/search.go:150-159 | for any positive limit the successive pages concatenate to the whole list |
| StaticSearch.SearchFinds | internal/staticdata/search.go:21-29 | a row is found exactly when its lower-cased title or const contains the trimmed lower-cased query |
| StaticSearch.SearchTotal | internal/staticdata/search.go:30-39 | the total is the number of matching entries of the artifact |
| HscodeSplit.ResolveTemplates | internal/trade/plugin_hscode_split.go:113-139 | succeeds exactly when every item is a mapped code with no empty workflow, and gives the first occurrences of what they ask for; otherwise names the first item that is not, and why |
| HscodeSplit.DedupIsFirstOccurrences | internal/trade/plugin_hscode_split.go:114-137 | that list has no repeats and is in first-occurrence order |
| HscodeSplit.ValidateReplaces | internal/trade/plugin_hscode_split.go:141-163 | in any map order, accepts exactly the rules in which no replaced workflow is empty or replaces others |
| HscodeSplit.ApplyReplaces | internal/trade/plugin_hscode_split.go:165-181 | keeps, in order, the workflows that none of the list replaces |
| HscodeSplit.NoneKeptWithItsReplacement | internal/trade/plugin_hscode_split.go:12-18 | no workflow is kept together with one it replaces |
| HscodeSplit.DroppedHasKeptReplacer | internal/trade/plugin_hscode_split.go:12-18 | for an accepted rule every dropped workflow has a replacer that is kept |
| HscodeSplit.SplitIsNotEmpty | internal/trade/plugin_hscode_split.go:165-181 | an accepted rule never drops everything |
| HscodeSplit.UncheckedRuleMayLeaveNothing | internal/trade/plugin_hscode_split.go:141-143 | a rule the check rejects may drop everything |
| HscodeSplit.ApplyingAgainChangesNothing | internal/trade/plugin_hscode_split.go:165-181 | reapplying the rule to what it left changes nothing |
| HscodeSplit.SplitIsInFirstOccurrenceOrder | internal/trade/plugin_hscode_split.go:113-181 | the split has no repeats and is in the order the codes first asked for it |
| HscodeSplit.SplitDependsOnTheSetOfCodes | internal/trade/plugin_hscode_split.go:113-181 | which workflows start does not depend on the order or repetition of the codes |
| HscodeSplit.Build | internal/trade/plugin_hscode_split.go:42-97 | writes one branch for each workflow of the split, under its own ID and with every input but the codes that is not nil, and nothing else, exactly when config, rule, codes and record allow; on an error it writes nothing |
| SlpaPairing.Rows | external-integration/slpa/consolidation/payload.go:117-133 | the named containers not yet consolidated, sorted by number by a sort that promises nothing about equal numbers |
| SlpaPairing.AlreadyConsolidated | external-integration/slpa/consolidation/payload.go:135-146 | the numbers of the named containers already paired, sorted |
| SlpaPairing.CapContainerNumbers | external-integration/slpa/consolidation/payload.go:167-186 | the numbers of the named containers left to pair, sorted |
| SlpaPairing.NamedContainersAreSplit | external-integration/slpa/consolidation/payload.go:117-146 | counting repeats, every named container is on exactly one of the two sides |
| SlpaPairing.NumbersHas | external-integration/slpa/consolidation/payload.go:135-186 | a number is on a side exactly when a container with that number, trimmed and not blank, is |
| SlpaPairing.OpenRowsHas | external-integration/slpa/consolidation/payload.go:117-133 | a row to be paired is the trimmed number and sqid of a named container not yet consolidated |
| SlpaPairing.PairedIs | external-integration/slpa/consolidation/payload.go:58-63 | a container is paired exactly when what the CMS gave for its pair is not nil and does not print blank |
| SlpaPairing.NormaliseIs | external-integration/slpa/consolidation/payload.go:161-165 | two numbers are taken as one exactly when they differ in nothing but case and surrounding white space |
| SlpaPairing.RowsAreTheOfferedNumbers | external-integration/slpa/consolidation/payload.go:117-186 | the numbers of the rows equal the offered numbers as lists, however ties are sorted |
| SlpaPairing.LookupOutcome | external-integration/slpa/consolidation/interpreter.go:134-152 | ready while a named container is left to pair, done when all named ones are paired, blocked when there is none |
| SlpaReadBack.RowsOf | external-integration/slpa/fields/fields.go:78-96 | the records of a list in either shape it arrives in, other entries skipped |
| SlpaReadBack.RecordsAreKept | external-integration/slpa/fields/fields.go:78-96 | every record of a stored list is read, as often as it is there and in order, and entries of another kind are not |
| SlpaReadBack.ReadThroughStorage | external-integration/slpa/fields/fields.go:66-77 | a list of records comes back from storage as it was |
| SlpaReadBack.KnownCapContainers | external-integration/slpa/consolidation/interpreter.go:298-312 | the pre-advised side as its records hold it |
| SlpaReadBack.KnownSoContainers | external-integration/slpa/consolidation/interpreter.go:314-326 | the order's side as its records hold it |
| SlpaReadBack.RecordIsReadBack | external-integration/slpa/consolidation/interpreter.go:251-326 | what the lookup records is read back container by container with its texts trimmed and its pairing as it was |
| SlpaReadBack.PairOne | external-integration/slpa/consolidation/payload.go:188-226 | the loops give the first container the choice names and the first of the order the branch names, or say which is missing |
| SlpaReadBack.FindCapIs | external-integration/slpa/consolidation/payload.go:202-211 | the container chosen is the first that carries the sqid |
| SlpaReadBack.PairIsOfTheAnswer | external-integration/slpa/consolidation/payload.go:194-226 | a pair is of the first container of the answer with the chosen sqid and the first of the order with a sqid and the branch's number up to case and white space; it holds their sqids and the number of the chosen one |
| SlpaReadBack.PairIsMade | external-integration/slpa/consolidation/payload.go:194-226 | a pair is made whenever the answer holds both |
| SlpaReadBack.RefusalsAre | external-integration/slpa/consolidation/payload.go:194-226 | a pair is refused because nothing was chosen, else because the answer has no such container, else because the order has none |
| SlpaReadBack.PairingSurvivesTheRecord | external-integration/slpa/consolidation/interpreter.go:281-296 | pairing against what was read back gives the pair or refusal of pairing against the answer itself |
| SlpaReadBack.ListsSurviveTheRecord | external-integration/slpa/consolidation/interpreter.go:298-312 | what was read back is on the same sides as in the answer |
| SlpaReadBack.RecordLookup | external-integration/slpa/consolidation/interpreter.go:101-153 | the lookup accepts exactly when a container is named, and is ready exactly when a number is offered; what it records is read back as the answer in either shape, and its two lists of numbers are together those of the named containers |
| SlpaReadBack.BuildRequest | external-integration/slpa/consolidation/interpreter.go:162-184 | the save step sends the one pair of the choice and the branch among its inputs, or none when it cannot be made |
| SlpaReadBack.NumbersAreTakenAsText | external-integration/slpa/fields/fields.go:19-35 | a field given as a number is taken as the text that prints it |
| SlpaReadBack.SaveSendsThePairOfTheAnswer | external-integration/slpa/consolidation/interpreter.go:171-184 | for every answer, recorded and read back in either shape, that pair is the one of the answer |
| EphytoItems.ExcludedItemIds | external-integration/ephyto/build.go:341-360 | the ids an entry of the picker deselects |
| EphytoItems.AnyItemIncluded | external-integration/ephyto/build.go:362-377 | whether an entry is not deselected |
| EphytoItems.BuildItems | external-integration/ephyto/build.go:414-426 | one numbered item for each commodity that stays |
| EphytoItems.ItemsAreTheOnesNotDeselected | external-integration/ephyto/build.go:414-440 | the items are exactly those of the commodities no entry of the picker names as not included, in form order and numbered from one, with the description, or the common name when it is blank, and the origin |
| EphytoAddress.SplitLosesNothing | external-integration/ephyto/build.go:686-705 | splitting an address and joining it again is the address |
| EphytoAddress.PiecesHoldNoSeparator | external-integration/ephyto/build.go:686-697 | no piece holds the separator |
| EphytoAddress.AddressLines | external-integration/ephyto/build.go:683-705 | the non-blank parts trimmed, the fifth line taking the rest |
| EphytoAddress.FoldingLosesNothing | external-integration/ephyto/build.go:700-703 | at most five lines, the first four parts on lines of their own, which read out with commas are the parts |
| EphytoAddress.BuildAddress | external-integration/ephyto/spscert/convert.go:172-194 | the lines in their slots, no address for no lines |
| EphytoAddress.AddressKeepsEveryPart | external-integration/ephyto/build.go:683-705 | the filled lines of a party read out are the non-blank parts of the text, in order |
| EphytoAddress.EveryPieceStandsInTheAddress | external-integration/ephyto/build.go:683-705 | each non-blank line of the text, or piece between commas if it is one line, stands trimmed in the address |
| EphytoAttachments.CanonicalIsAccepted | external-integration/ephyto/attachments.go:150-175 | the type is one of the four or nothing, and it is one exactly when the stored type or the extension names one |
| EphytoAttachments.CanonicalIs | external-integration/ephyto/attachments.go:126-175 | the type sent is the stored one if it is one of the four or image/jpg, and otherwise that of the extension |
| EphytoAttachments.StoredTypeIs | external-integration/ephyto/attachments.go:164-171 | the stored type is compared in lower case and without its parameters |
| EphytoAttachments.ExtensionIs | external-integration/ephyto/attachments.go:174 | the extension is the end of the last path element from its last dot |
| EphytoAttachments.ResolveAttachments | external-integration/ephyto/attachments.go:59-107 | resolves in place exactly when each can be sent and the base64 fits the certificate; otherwise stops at the first that cannot and says why |
| EphytoAttachments.ResolvedIs | external-integration/ephyto/attachments.go:46-107 | no key remains, given content is left alone, a stored file is sent whole and within its limit, and content goes out under an accepted type |
| EphytoAttachments.RefusedBecause | external-integration/ephyto/attachments.go:59-97 | an attachment is refused exactly for a missing storage, a document that cannot be read, a file over 3 MiB, or content of no accepted type, and for the first of these |
| EphytoAttachments.SentTypeIs | external-integration/ephyto/attachments.go:74-97 | content goes out under the type made of its own, or of storage's if it has none |
| EphytoAttachments.EmbeddedTypeIsAcceptedIff | external-integration/ephyto/attachments.go:85-98 | an embedded document has an accepted type exactly unless it is named and empty and its own type is not accepted |
| EphytoAttachments.EmptyFileGoesOutUntyped | external-integration/ephyto/spscert/convert.go:78-80 | an empty file that goes out under a type the Hub refuses |
| EphytoAttachments.TwentySixFilesFit | external-integration/ephyto/attachments.go:28-41 | up to 26 stored documents never exceed the certificate's limit |
| EphytoAttachments.LargestFilesFitIff | external-integration/ephyto/attachments.go:38-41 | n files of the largest size fit the certificate exactly when n is at most 26 |
| EphytoSubmit.CheckCertificate | external-integration/ephyto/spscert/convert.go:30-38 | refuses a blank number, a blank date, no items, or at the first item that lacks one a description or an origin, and says which |
| EphytoSubmit.BuildEnvelope | external-integration/ephyto/interpreter.go:77-93 | an envelope is built exactly when something is selected, a country named, every document sendable within the limits and the certificate complete |
| EphytoSubmit.EnvelopeItems | external-integration/ephyto/build.go:414-440 | every envelope has at least one item, all described, and its items are exactly those of the commodities not deselected, in order, numbered 1 to n |
| EphytoSubmit.EnvelopeFitsTheLimit | external-integration/ephyto/attachments.go:99-104 | the base64 of every envelope is within 104 MiB |
| EphytoSubmit.EnvelopeDocuments | external-integration/ephyto/attachments.go:46-107 | no key remains, each stored file is sent whole and given content as it came, a document without name and content is left out, and an embedded type is accepted exactly under the stated condition on the attachment and its file |
| EphytoSubmit.EnvelopeAddresses | external-integration/ephyto/build.go:683-705 | no non-blank part of either address is lost |

## Left out

- HTTP decoding, status texts, logging, audit sinks, telemetry, configuration and wiring.
- Who may claim: authentication, read access and whether a template is claimable are decided before the modelled part.
- Postgres beyond row locks and read-committed statements: lock queues, lock upgrades waiting in line, re-evaluation of an UPDATE's condition after a wait other than on the row's new version, timeouts.
- GORM and the SQL planner: the consignment list is a selection from a table in its order; its page and its count are of one table state, as the source does not put them in one transaction.
- Temporal: the engine is a table of running IDs and nodes whose calls are atomic; a run ends only after its completion callback committed.
- Engine starts on a missing workflow manager or a recorded payload that is not an object, which are errors before the engine is reached.
- JSON encoding: payloads, variables and attributes are values, and a definition is what a fixed catalog holds for a version and template. The two core variable names are named after what they hold.
- `ListByCase`, `CaseAttributes` and `SharedAttributes`, timestamps, and `assigned_by`: reads and columns with no property here.
- ForcePark.Action: ABORT is modelled as the node being over; the rest of its workflow failing is not.
- `buildEngineStatusDTO` and `attachTaskWorkflowIDs`: presentation of a status.
- ClaimHandlers.TaskManager.Release: whether a completed task's claim may be released is not visible here and is a parameter.
- The classes of `CaseRepository`, `FlowService`, `ForceParkHandlers` and `ClaimHandlers` run one caller; interference between callers is in the transition systems.
- CallbackTable.PendingIffLive: the key holds a prefix of a SHA-256 sum, taken to be injective.
- CallbackRetry.Retry: durations are unbounded integers; `DoublingFits` gives the settings for which that is the 64-bit arithmetic.
- `isEarly`, `ignore`, `applyAs` and the services behind the callbacks.
- AES, SHA-256, RSA-OAEP, the transaction key header and base64: parameters with the laws stated in `Sound` and `Encodes`.
- GovPayWalk.EncryptStrings: strings held in interface values, which the source cannot set, are not modelled; pointer cycles are not either.
- Unicode case mapping: a function of a character that, where it matters, leaves the three special characters and maps nothing else to them. Text is a sequence of code points.
- SlpaReadBack.RecordLookup: a lookup that failed or cannot be decoded, which is blocked, is not modelled.
- StaticSearch.Search: offset and limit are those the pagination helper resolved, so not negative and not near the largest integer.
- Number formatting of values that reach a text field, and the trader-facing summaries of SLPA and ePhyto.
- The weights, packages, treatments, re-export statements and notes of a certificate, its XML and SOAP text, and withdrawal and polling.
- EphytoAttachments.ResolveAttachments: reading has no timeout, and a document that cannot be read is one the storage parameter does not hold.
