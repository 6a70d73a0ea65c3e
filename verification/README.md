# A verified model of the COH broker

COH is a broker between an untrusted planner and real tools. This project models its hard parts in
Dafny and proves what they are for. `dafny verify dfyconfig.toml` checks everything.

## What is modelled

**Emergency-stop containment** (`StopScope`, `ExecutionTracker`, `NetworkContainment`, `RemoteJobs`, and
`ExecutionTrackerChanges`, `NetworkContainmentChanges`, `RemoteJobChanges`).
Three tables use the same protocol: read the stop store, register under a lock, read the store again.
Each table is a class whose methods are the sections under its lock. Each class method is proved equal
to a function on table values, and a state machine interleaves those functions with store reads, stop
activations and the steps of the controls. The theorems speak about all runs of that machine: what the
controls contain, and what each step does to an entry and to a run of a control. Contexts and timeouts
are choices of the environment.

**The emergency-stop stores** (`EmergencyStopStore`, `EmergencyStopRuns`, `EmergencyStopAnswers`). The
in-memory store and the SQLite transactions are two classes over the same tables; their answers are
compared over all call sequences, and told from the calls that came before.

**Remote workers** (`WorkerStore`, `WorkerAnswers`). Enrollment, rotation, revocation, lease issue and
claim over five tables, with the invariant that a live lease names the current worker, and what each call
answers and changes.

**ES|QL** (`EsqlSyntax`, `EsqlLexer`, `EsqlLexemes`, `EsqlParser`, `EsqlGrammar`, `EsqlPrinter`,
`EsqlPrintedText`, `EsqlRestore`, `EsqlReading`, `EsqlRoundTrip`). Tokenizer, parser object and printer.
The tokenizer is compared with a definition of lexemes, the parser with a grammar, and the printer by the
round trip through the printed text.

**Query DSL** (`QueryDslSyntax`, `QueryDslParser`, `QueryDslCompiler`, `QueryDslMeaning`,
`QueryDslLegal`, `QueryDslLimits`, `QueryDslOrder`, `Sorting`). A definition of the accepted language on
JSON is compared with the parser. One evaluator gives meaning to Query DSL JSON, with the
vendor's defaults where an option is absent; it is applied to the caller's JSON and to the compiled plan
alike.

**Paged export** (`PagedExport`, `PagedExportRuns`, `PagedExportPages`). The vendor's point-in-time result is a fixed,
strictly ordered sequence of hits; searches, closes and decoding may fail at any call.

**Tool routes** (`ToolRoute`, `ToolRouteRuns`, `ToolRouteOutcomes`). Any number of Submit calls for one operation,
interleaved step by step, failing or crashing anywhere. The store port's `save` is taken to be an atomic
compare-and-swap on the prior record.

**Approvals** (`ApprovalLifecycle`, `ApprovalService`, `ApprovalRuns`, `ApprovalAuthority`). The lifecycle
contract, the broker's checks, and runs of concurrent commands with revision-checked commits; who may do
what is told on the fields of actors and principals.

**Kusto helper transport** (`Utf8`, `KustoChunks`, `KustoCanonical`, `KustoCanonicalMeaning`,
`KustoCanonicalForm`, `SyntaxFingerprint`). UTF-8 as section 4 of RFC 3629 defines it, JSON strings as section 7 of RFC 8259
does, and the tree encoding under the fingerprint.

`Wrappers`, `Concatenation`, `Delimited` and `Decimal` are shared helpers.

## Where the code does less than one might expect

- `Finish` removes an entry before it marks it done, so `Apply` can succeed while an admitted execution
  is not marked done. `ApplyClosesExactly` gives the exact condition.
- The durable emergency-stop store refuses an activation whose decision digest is already stored; the
  memory store accepts it. `StoresAgree` shows that this is the only difference.
- A committed export page can be lost when its decoding fails after the job was updated.
  `ReleasedIsPrefixIffNoGap` and `CallersHoldEverything` give the exact conditions.
- A long AND chain is accepted, but its printed form nests deeper than the parser allows.
- A partly used approval can never be expired; `AnApprovalThatCannotExpire` reaches one.
- Near the size limit a request can need a ninth chunk, which the helper has no slot for.
  `SplitIsShortest` tells exactly when, for every request.
- Syntax trees that differ in an unpaired surrogate can share a fingerprint. `DigestedBytesExactly` tells
  exactly when.

## Conventions

Digests are injective values. Times are integers. Regular expressions, IP and timestamp formats,
string unquoting and JSON encoding are function parameters; where a proof needs it, the encoding is
assumed injective. Counters are unbounded integers except where a width decides the outcome
(64-bit literals, the 20-digit buffer, code units and bytes).

## Model

| member | source | states |
|---|---|---|
| StopScope.GuardAgreesWithControls | internal/broker/estop/guard.go:9-42 | The guard refuses a case exactly when some active stop covers it in the sense the controls use for their snapshots. |
| StopScope.ScopeKeyInjective | internal/broker/estop/memory_store.go:172-174 | Scopes whose parts hold no separator have different keys whenever they differ. |
| ExecutionTracker.Tracker.RegisterExecution | internal/broker/executionstop/tracker.go:75-84 | Registration under the lock adds one active entry for an unused identifier, refuses a used one, and keeps the table well formed. |
| ExecutionTracker.Tracker.FinishRemove | internal/broker/executionstop/tracker.go:95-105 | The first half of Finish drops exactly this entry from the active map, never a later one with the same identifier. |
| ExecutionTracker.Tracker.FinishClose | internal/broker/executionstop/tracker.go:105-109 | The second half marks the entry done and changes nothing else. |
| ExecutionTracker.Tracker.OpenRun | internal/broker/executionstop/tracker.go:125-137 | A run is created only when its key is new; otherwise the table is unchanged and the caller waits for the existing run. |
| ExecutionTracker.Tracker.TakeSnapshot | internal/broker/executionstop/tracker.go:144-156 | The snapshot loop picks exactly the active entries in scope and cancels each of them. |
| ExecutionTracker.InvOnRuns | internal/broker/executionstop/tracker.go:68-170 | In every interleaving a run armed by a stored stop still waits for, or has seen removed, every admitted entry in its scope, and what it snapshotted stays cancelled. |
| ExecutionTracker.AdmissionNeedsClearStore | internal/broker/executionstop/tracker.go:85-93 | No step admits an execution in a scope whose stop is stored. |
| ExecutionTracker.NoLateAdmission | internal/broker/executionstop/tracker.go:68-93 | From the moment a stop is stored no further execution in its scope is ever admitted, and nothing already recorded is undone. |
| ExecutionTracker.ApplyContains | internal/broker/executionstop/tracker.go:121-170 | Once Apply has succeeded for a stored stop, then and ever after, every execution in scope that Begin ever admitted was admitted before and its owner has left the active map. |
| ExecutionTracker.SnapshotHappened | internal/broker/executionstop/tracker.go:138-156 | A run that waits or has succeeded took its snapshot at an earlier step. |
| ExecutionTracker.SnapshotOnce | internal/broker/executionstop/tracker.go:125-156 | A run takes its snapshot at one step only. |
| ExecutionTracker.ApplyClosesExactly | internal/broker/executionstop/tracker.go:95-170 | When the run has succeeded every admitted execution in scope is marked done if and only if every Finish that was between its two halves at the snapshot has made its closing step since. |
| ExecutionTracker.QuietSnapshotCloses | internal/broker/executionstop/tracker.go:95-170 | So when no Finish was halfway at the snapshot, success means that every admitted execution in scope is marked done. |
| ExecutionTracker.ApplyCanPassAnUnclosedExecution | internal/broker/executionstop/tracker.go:95-170 | A concrete run in which Apply succeeds while an admitted execution is not yet marked done. |
| ExecutionTrackerChanges.EntryChangesExactly | internal/broker/executionstop/tracker.go:68-170 | In every run an execution is admitted, rolled back, removed and closed by exactly the steps of its own, admitted only when registered and not under a stop, and cancelled exactly by its rollback, its close, or a snapshot over its case while it is in the table. |
| ExecutionTrackerChanges.RegistersExactly | internal/broker/executionstop/tracker.go:75-84 | A registration adds an execution if and only if no other one with its identifier is still in the table, fresh and under the identifier and owner of its caller; no other step adds one. |
| ExecutionTrackerChanges.EntriesWereBegun | internal/broker/executionstop/tracker.go:68-84 | Every execution goes back to an earlier first read, for its identifier and owner, that found no stop over that owner. |
| ExecutionTrackerChanges.RunChangesExactly | internal/broker/executionstop/tracker.go:121-170 | A run opens once, snapshots exactly the unremoved executions in its scope, drops one from its list exactly when it is done, and succeeds exactly with an empty list. |
| ExecutionTrackerChanges.StopsChangeExactly | internal/broker/estop/memory_store.go:52-68 | Only an activation stores a stop, and no step takes one back. |
| NetworkContainment.ContainmentBroker.RegisterLease | internal/broker/ociexecutor/containment_network.go:72-80 | A lease with a listed identifier is turned away; otherwise it becomes active. |
| NetworkContainment.ContainmentBroker.EnterClose | internal/broker/ociexecutor/containment_network.go:170-177 | Only the first caller of close gets to run the cleanup. |
| NetworkContainment.ContainmentBroker.DeleteLease | internal/broker/ociexecutor/containment_network.go:157-168 | The deferred delete removes this lease only, never another one with the same identifier. |
| NetworkContainment.ContainmentBroker.TakeSnapshot | internal/broker/ociexecutor/containment_network.go:117-128 | The snapshot holds exactly the active leases in scope. |
| NetworkContainment.InvOnRuns | internal/broker/ociexecutor/containment_network.go:53-177 | The table stays well formed, cleanups are counted correctly, and an armed run covers every handed-out lease in scope, in every interleaving, closes that a failed run left behind included. |
| NetworkContainment.CleanupAtMostOnce | internal/broker/ociexecutor/containment_network.go:157-177 | In every interleaving of owner close, conflict and Apply the inner cleanup of a lease runs at most once. |
| NetworkContainment.HandOutNeedsClearStore | internal/broker/ociexecutor/containment_network.go:82-92 | No step hands out a lease in a scope whose stop is stored. |
| NetworkContainment.NoLateHandOut | internal/broker/ociexecutor/containment_network.go:53-93 | After a stop is stored no further lease in scope is handed out. |
| NetworkContainment.ApplyCutsEgress | internal/broker/ociexecutor/containment_network.go:94-149 | After a successful Apply for a stored stop the cleanup of every in-scope lease ever handed out has run exactly once, and without failure for the snapshotted ones. |
| NetworkContainmentChanges.StageChangesExactly | internal/broker/ociexecutor/containment_network.go:53-93 | In every run a lease is registered if and only if no listed lease has its identifier and turned away otherwise, and handed out only when registered and not under a stop. |
| NetworkContainmentChanges.PhaseChangesExactly | internal/broker/ociexecutor/containment_network.go:157-177 | A close passes its phases in order; the cleanup is counted exactly by the step that opens the close, and its failure is what the cleanup returned. |
| NetworkContainmentChanges.ClosedByTheEntitled | internal/broker/ociexecutor/containment_network.go:53-177 | A close is begun only by the owner of a lease handed out, by the Acquire that failed, or by a run whose snapshot holds the lease. |
| NetworkContainmentChanges.LeasesAppearExactly | internal/broker/ociexecutor/containment_network.go:53-71 | Each answer of the inner broker becomes one lease for its caller; one without identifier or cleanup is refused and cleaned up at once. |
| NetworkContainmentChanges.LeasesWereAsked | internal/broker/ociexecutor/containment_network.go:53-71 | Every lease goes back to an earlier first read, for its owner, that found no stop over that owner. |
| NetworkContainmentChanges.RunChangesExactly | internal/broker/ociexecutor/containment_network.go:94-149 | A run opens once, snapshots exactly the listed leases in its scope, fails when a cleanup it sees failed, and succeeds exactly when it has seen all of them closed. |
| NetworkContainmentChanges.StopsChangeExactly | internal/broker/estop/memory_store.go:52-68 | Only an activation stores a stop, and no step takes one back. |
| EmergencyStopStore.MemoryStore.AddAudit | internal/broker/estop/memory_store.go:159-166 | An audit identifier is inserted once and the identifier list stays sorted. |
| EmergencyStopStore.MemoryStore.Activate | internal/broker/estop/memory_store.go:37-68 | Replay, conflict, already-active and new activation as one transition of the five tables. |
| EmergencyStopStore.MemoryStore.RecordControl | internal/broker/estop/memory_store.go:99-120 | A stale state is refused, an equal acknowledgement replayed, a different one a conflict, a new one stored with its audit. |
| EmergencyStopStore.MemoryStore.PendingAudits | internal/broker/estop/memory_store.go:122-142 | The walk over the sorted list returns the first `limit` undelivered audits in identifier order, exactly for limits 1 to 1024. |
| EmergencyStopStore.MemoryStore.MarkAuditDelivered | internal/broker/estop/memory_store.go:144-157 | Marks one audit, or reports that it does not exist. |
| EmergencyStopStore.SqliteStore.Activate | internal/broker/estop/sqlite_store.go:77-136 | The transaction publishes its whole copy or nothing. |
| EmergencyStopStore.SqliteStore.RecordControl | internal/broker/estop/sqlite_store.go:176-230 | The same for control acknowledgements. |
| EmergencyStopStore.SqliteStore.PendingAudits | internal/broker/estop/sqlite_store.go:232-264 | The ordered query and row loop return the first `limit` undelivered audits in identifier order. |
| EmergencyStopStore.PendingRowsUnique | internal/broker/estop/sqlite_store.go:232-264 | There is only one such list for a table and a limit. |
| EmergencyStopStore.PendingAgrees | internal/broker/estop/sqlite_store.go:232-264 | Over one table the walk along all ordered identifiers and the ordered query of undelivered rows return the same, for every limit. |
| EmergencyStopRuns.StepsAgree | internal/broker/estop/sqlite_store.go:77-284 | One call of the interface, reading pending audits included: the durable store answers as the memory store does if and only if the call does not reuse a stored decision digest; then the tables agree too. |
| EmergencyStopRuns.StoresAgree | internal/broker/estop/sqlite_store.go:77-284 | For every sequence of calls the answers of the two stores agree if and only if no call reuses a decision digest; the durable store then refines the memory store. |
| EmergencyStopRuns.FailuresLeaveNoTrace | internal/broker/estop/sqlite_store.go:77-284 | Because a transaction of the durable store publishes its whole copy or nothing, which the contracts of its methods state, a run with failed ones leaves the tables, and gives the successful callers the answers, of the run of the committed calls alone. |
| EmergencyStopRuns.ReservedDigestBlocksDurableActivation | internal/broker/estop/sqlite_store.go:371-377 | A concrete pair of calls with a reused digest on which the two stores differ. |
| EmergencyStopRuns.MemoryRunKeeps | internal/broker/estop/memory_store.go:37-166 | Every run of the memory store keeps epochs, requests and audits consistent and never loses a state, request or control. |
| EmergencyStopRuns.SqliteRunKeeps | internal/broker/estop/sqlite_store.go:77-284 | The same for the durable store. |
| EmergencyStopRuns.EffectiveIsStopped | internal/broker/estop/sqlite_store.go:138-156 | Effective finds a state exactly when the scope test says the case is stopped, in both stores. |
| EmergencyStopRuns.StoppedForever | internal/broker/estop/memory_store.go:37-86 | A stopped case stays stopped whatever is called later, in both stores. |
| EmergencyStopRuns.MemoryEpochsIncrease | internal/broker/estop/memory_store.go:55-60 | Over any sequence of calls each new activation takes an epoch above that of every earlier one. |
| EmergencyStopRuns.SqliteEpochsIncrease | internal/broker/estop/sqlite_store.go:94-118 | The same for the durable store. |
| EmergencyStopRuns.ReplayReturnsOriginal | internal/broker/estop/memory_store.go:45-50 | After any later calls a repeated activation returns the record first stored, and one with another digest conflicts, in each store for every activation that store accepted as new. |
| EmergencyStopAnswers.RunOfStore | internal/broker/estop/sqlite_store.go:77-284 | The runs of the next rows are the runs of either store above, with the answers and the tables that those give. |
| EmergencyStopAnswers.ActivateRefusalsExactly | internal/broker/estop/memory_store.go:43-54 | In every run of either store an activation is answered from the earlier activation with its organization, tenant, actor and idempotency key: its record for the same digest, a conflict for another; and it finds its scope already stopped if and only if there is none and an earlier one stopped exactly that scope. |
| EmergencyStopAnswers.ActivatesExactly | internal/broker/estop/memory_store.go:55-67 | Every other activation takes effect, in the durable store unless its audit identifier is taken; the record holds the command, authority, digest and time as given, an epoch one above the number of earlier activations, and a decision over that state. |
| EmergencyStopAnswers.EffectiveExactly | internal/broker/estop/memory_store.go:70-86 | The effective stop of a case is the state recorded by the activation of its tenant, and that of the case itself only where the tenant has none. |
| EmergencyStopAnswers.StaleExactly | internal/broker/estop/memory_store.go:105-108 | An acknowledgement is stale if and only if no earlier activation of the run returned the state it names. |
| EmergencyStopAnswers.AcknowledgedOnce | internal/broker/estop/memory_store.go:109-115 | After the first acknowledgement of a control for a scope the same one again returns its audit and any other conflicts. |
| EmergencyStopAnswers.AcknowledgedFirst | internal/broker/estop/memory_store.go:116-119 | A control not yet acknowledged is recorded with an undelivered audit of its decision, in the durable store unless the identifier is taken. |
| EmergencyStopAnswers.AuditsChangeExactly | internal/broker/estop/memory_store.go:144-170 | Each call adds its own decision, undelivered, unless the identifier is taken, and an audit changes only by the mark that delivers it. |
| EmergencyStopAnswers.MarkFindsExactly | internal/broker/estop/memory_store.go:150-156 | A mark is found exactly when its audit is in the table. |
| WorkerStore.ValidateRotation | internal/broker/remoteworker/memory_store.go:76-98 | A rotation is accepted if and only if it is of the same worker, neither revision falls, a fingerprint or key digest changes exactly with its revision, and an unchanged revision keeps the transport identity and the key identifier. |
| WorkerStore.IssueExpiry | internal/broker/remoteworker/lease.go:56-69 | A lease expires after now, at the earliest of the requested time to live, the maximum and the attestation; it is refused exactly when no such time exists. |
| WorkerStore.MemoryStore.EnrollWorker | internal/broker/remoteworker/memory_store.go:31-74 | Enrollment with replay, conflict and rotation as one transition of the five maps. |
| WorkerStore.MemoryStore.RevokeEnrolled | internal/broker/remoteworker/memory_store.go:113-134 | Revoking a worker deactivates it and revokes its leases. |
| WorkerStore.MemoryStore.Create | internal/broker/remoteworker/memory_store.go:136-161 | Lease creation with its identifier, idempotency-key and token checks as one transition. |
| WorkerStore.MemoryStore.ClaimOnce | internal/broker/remoteworker/memory_store.go:163-188 | The claim and its five refusals as one transition of the five maps; WorkerAnswers.ClaimsExactly says when it succeeds. |
| WorkerStore.MemoryStore.RevokeWorkerLeases | internal/broker/remoteworker/memory_store.go:205-219 | The loop revokes exactly the leases of one worker. |
| WorkerStore.MemoryStore.RevokeLeaseScope | internal/broker/remoteworker/memory_store.go:221-238 | The loop revokes exactly the leases in a stop scope and counts them. |
| WorkerStore.LeasesNameCurrentWorkers | internal/broker/remoteworker/memory_store.go:31-161 | In every state reached by broker calls each unrevoked lease names a worker that is active and equal to the current record. |
| WorkerStore.WorkersOnlyAdvance | internal/broker/remoteworker/memory_store.go:31-134 | Over any run worker, certificate and key revisions never fall and a revoked worker never becomes active again. |
| WorkerStore.RotationRevokesLeases | internal/broker/remoteworker/memory_store.go:31-74 | A successful rotation raises the revision by exactly one and revokes every earlier lease of the worker. |
| WorkerStore.ConsumedForever | internal/broker/remoteworker/memory_store.go:163-188 | A consumed lease stays consumed in every later state. |
| WorkerStore.ClaimedAtMostOnce | internal/broker/remoteworker/memory_store.go:163-188 | Over any run a lease is claimed at most once. |
| WorkerAnswers.ClaimsExactly | internal/broker/remoteworker/memory_store.go:163-188 | In every run a call claims a lease if and only if it names the lease, presents its own token before its expiry, and the lease is neither revoked nor consumed; the token table then leads from that token to that lease. |
| WorkerAnswers.RefusalsExactly | internal/broker/remoteworker/memory_store.go:169-184 | Which refusal a claim gets, the first that applies. |
| WorkerAnswers.LeasesWereCreated | internal/broker/remoteworker/memory_store.go:136-161 | Every lease of the table was put there by an earlier create call, with the identifier, token and expiry it still has. |
| WorkerAnswers.LeasesAreNamedApart | internal/broker/remoteworker/memory_store.go:146-159 | In every run a token names one lease, and so does an organization, actor and idempotency key. |
| WorkerAnswers.CreateAnswersExactly | internal/broker/remoteworker/memory_store.go:142-160 | In every run a lease is denied exactly when it does not name the worker as enrolled now, new exactly when no lease in the table has its identifier, token or idempotency key, and a replay exactly when one with its key was asked for with its digest. |
| WorkerAnswers.MarksExactly | internal/broker/remoteworker/memory_store.go:113-238 | In every run a lease becomes revoked, with the reason of the call, exactly by a rotation or revocation of its worker, its own revocation or a sweep of its scope, and consumed exactly by a claim. |
| WorkerAnswers.EnrollsExactly | internal/broker/remoteworker/memory_store.go:37-61 | In every run an enrollment is new if and only if none was made before under its worker and key, and it follows the current record: the expected revision, active, a valid rotation. |
| WorkerAnswers.EnrollReplaysExactly | internal/broker/remoteworker/memory_store.go:39-48 | A repeated enrollment conflicts exactly for another digest, and is answered with the current record exactly while that is active and at the revision given then. |
| WorkerAnswers.WorkersChangeExactly | internal/broker/remoteworker/memory_store.go:61-134 | In every run the worker table changes only by a new enrollment, to the record given at the next revision, or a revocation, in the worker named alone. |
| RemoteJobs.JobTable.RegisterJob | internal/broker/remoteworker/active_jobs.go:121-130 | Registration stores the job under its lease identifier without testing for another one; the table stays well formed for an identifier never used, and not for one that is still active. |
| RemoteJobs.JobTable.FinishRemove | internal/broker/remoteworker/active_jobs.go:132-138 | The first half of finish drops exactly this job from the table, never a later one with the same identifier. |
| RemoteJobs.JobTable.FinishClose | internal/broker/remoteworker/active_jobs.go:138-140 | The second half marks the removed job done and changes nothing else. |
| RemoteJobs.JobTable.JobsFor | internal/broker/remoteworker/active_jobs.go:143-154 | The loop returns exactly the active jobs in scope. |
| RemoteJobs.ClaimIsNew | internal/broker/remoteworker/dispatch.go:31-66 | A successful claim is of a lease nobody has claimed or registered. |
| RemoteJobs.ClaimsStayDistinct | internal/broker/remoteworker/dispatch.go:31-66 | Over every step claimed leases and registered jobs keep different identifiers. |
| RemoteJobs.RegistrationNeverOverwrites | internal/broker/remoteworker/active_jobs.go:121-130 | So registering a job never replaces another one, although the code does not check. |
| RemoteJobs.StartNeedsClearStore | internal/broker/remoteworker/dispatch.go:50-87 | No step starts a callback in a scope whose stop is stored. |
| RemoteJobs.InvOnRuns | internal/broker/remoteworker/active_jobs.go:64-154 | In every interleaving of claims, registrations, stops and both controls every started callback in scope is settled or still on an armed run's list. |
| RemoteJobs.NoLateStart | internal/broker/remoteworker/dispatch.go:31-87 | After a stop is stored no further callback in scope is started. |
| RemoteJobs.ControlContains | internal/broker/remoteworker/active_jobs.go:64-119 | After a control has run for a stored stop every in-scope callback ever started has a cancelled context or has returned; after the cooperative control it has returned. |
| RemoteJobChanges.JobChangesExactly | internal/broker/remoteworker/active_jobs.go:64-140 | In every run a job is started, refused, returned, cancelled, removed and closed by exactly the steps of its own, and nothing else of it changes. |
| RemoteJobChanges.JobStepsInTurn | internal/broker/remoteworker/dispatch.go:50-87 | Each of those steps comes in its turn: a start only when registered and not under a stop, a removal only after a refusal or a return. |
| RemoteJobChanges.JobsAppearExactly | internal/broker/remoteworker/active_jobs.go:121-130 | A registration adds one fresh job under the identifier and for the case of the lease its caller claimed; no other step adds one. |
| RemoteJobChanges.RegisteredAfterClaim | internal/broker/remoteworker/dispatch.go:31-66 | Every registration goes back to a claim of that lease with its token, in time, neither revoked nor claimed, and to a first read that found no stop over its case. |
| RemoteJobChanges.RunChangesExactly | internal/broker/remoteworker/active_jobs.go:64-119 | A run opens once, takes exactly the unremoved jobs in its scope, succeeds only when it has cancelled all of them, and the cooperative one only when it has seen all of them done. |
| RemoteJobChanges.StopsChangeExactly | internal/broker/estop/memory_store.go:52-68 | Only an activation stores a stop, and no step takes one back. |
| PagedExport.PlanLimits | internal/connector/elasticquerydsl/compiler.go:102-111 | Plan limits are positive, each is the smallest of the limits it comes from, and a zero limit anywhere is exactly what denies the query. |
| PagedExport.SearchResumes | internal/connector/elastic/querydsl_pages.go:100-110 | Searching after the sort tuple of the n-th hit finds exactly the hits from n on. |
| PagedExport.ExportJob.RowsThatFit | internal/connector/elastic/querydsl_pages.go:118-134 | The row loop releases the longest run of rows within the byte limit. |
| PagedExport.ExportJob.SearchPageLocked | internal/connector/elastic/querydsl_pages.go:87-187 | One page attempt with its refusals, failed close and job update as one transition; PagedExportPages.PagesAreExact says what page it commits. |
| PagedExport.ExportJob.PollJob | internal/connector/elastic/querydsl_pages.go:11-49 | A repeated poll answers with the first page and searches nothing. |
| PagedExport.ExportJob.NextJobPage | internal/connector/elastic/querydsl_pages.go:51-85 | A replayed handle answers from the replay map; only the current handle of a bound job searches. |
| PagedExport.ExportJob.CancelJob | internal/connector/elastic/querydsl_pages.go:189-241 | A bound cancel closes the point in time once; a failed close leaves the job as it was. |
| PagedExportRuns.InvOnRuns | internal/connector/elastic/querydsl_pages.go:11-187 | In every run, whatever fails, the job stands exactly after the rows it committed, and its counters, handle and replays describe them. |
| PagedExportRuns.ExportIsPrefix | internal/connector/elastic/querydsl_pages.go:87-187 | In every run the committed pages concatenate to a prefix of the ordered result, and to all of it when the last page has no next handle and is not truncated. |
| PagedExportRuns.ReleasedIsPrefixIffNoGap | internal/connector/elastic/querydsl_pages.go:11-85 | The pages callers received concatenate to a prefix if and only if no committed page with rows was withheld before a delivered page with rows. |
| PagedExportRuns.CallersHoldEverything | internal/connector/elastic/querydsl_pages.go:11-187 | When the export has finished, callers hold the whole ordered result if and only if no committed page with rows was withheld; before that they hold it exactly when it is also all committed. |
| PagedExportRuns.ALostPageLeavesAGap | internal/domain/queryconnector/canonical.go:83-122 | A concrete run of two polls in which the decoder refuses the first page after the job moved on, so the caller only gets the second. |
| PagedExportRuns.ExportStaysInLimits | internal/connector/elastic/querydsl_pages.go:87-187 | In every run rows, bytes and pages stay within the plan, every non-final page holds exactly PageRows rows, and the point in time is closed once the last page is out. |
| PagedExportRuns.ExportLimitUnreachable | internal/connector/elastic/querydsl_pages.go:95-99 | While the point in time is open the export-limit refusal cannot occur. |
| PagedExportRuns.ReplayAnswersFirstPage | internal/connector/elastic/querydsl_pages.go:51-60 | Whatever happened since, a replayed handle answers with the page first released under it. |
| PagedExportPages.PagesAreExact | internal/connector/elastic/querydsl_pages.go:112-187 | In every run each committed page holds the longest run of rows its room and the byte limit admit, counts rows and bytes exactly, and is marked exactly so: byte limit when the next row had room and would pass the limit, else row limit when rows are left and that limit is reached, else page limit likewise; it has a next handle exactly when rows are left and it is unmarked. |
| PagedExportPages.CompleteExactly | internal/connector/elastic/querydsl_pages.go:129-171 | In every run a last page without a handle is unmarked if and only if the committed rows are the whole result. |
| PagedExportPages.LongestUnique | internal/connector/elastic/querydsl_pages.go:112-134 | There is only one such run of rows. |
| PagedExportPages.AttemptCommitsExactly | internal/connector/elastic/querydsl_pages.go:87-187 | A page attempt commits if and only if the job is open and current, the vendor answers, and it also confirms the close of a last page. |
| PagedExportPages.PollAnswersExactly | internal/connector/elastic/querydsl_pages.go:11-49 | When a poll answers, with which page, and when it commits one. |
| PagedExportPages.PageAnswersExactly | internal/connector/elastic/querydsl_pages.go:51-85 | When a page request answers: a served handle with its own page, else only the current handle of a bound job under its limits. |
| PagedExportPages.CancelExactly | internal/connector/elastic/querydsl_pages.go:189-241 | A cancel closes exactly a bound, open job whose point in time the vendor closes, and changes nothing else. |
| PagedExportPages.ClosedForever | internal/connector/elastic/querydsl_pages.go:87-99 | Once a job is closed no call commits a page and it stays closed. |
| EsqlLexer.CloseString | internal/connector/elasticesql/tokenize.go:110-130 | The escape-skipping loop finds the closing quote of the string. |
| EsqlLexer.NextToken | internal/connector/elasticesql/tokenize.go:35-103 | The token at an offset, for every character class and every refusal. |
| EsqlLexer.Tokenize | internal/connector/elasticesql/tokenize.go:10-108 | The loop returns the tokens of the whole input and an end marker, or the first refusal, with its token limit. |
| EsqlLexemes.ScanExactly | internal/connector/elasticesql/tokenize.go:35-130 | The token at the front of a text is exactly the longest lexeme there, for words, integers, strings, operators and marks. |
| EsqlLexemes.TokenizesExactly | internal/connector/elasticesql/tokenize.go:10-108 | The tokenizer returns these tokens if and only if the input is their lexemes and spaces, in at most 65536 bytes and 4096 tokens, with nothing behind the last token that the limit allows. |
| EsqlParser.Parser.OrExpression | internal/connector/elasticesql/parse.go:92-100 | The loop parses the left-associated OR chain, leaves position and depth as the grammar function says, and gives its reasons on denial. |
| EsqlParser.Parser.AndExpression | internal/connector/elasticesql/parse.go:102-110 | The same for AND chains; EsqlGrammar.ParsesExactly says which trees the loops give. |
| EsqlParser.Parser.NotExpression | internal/connector/elasticesql/parse.go:112-135 | Negation, parentheses and comparisons with the depth counter restored. |
| EsqlParser.Parser.ComparisonExpression | internal/connector/elasticesql/parse.go:137-156 | Field, operator and typed literal, each with its own denial. |
| EsqlGrammar.ParsesExactly | internal/connector/elasticesql/parse.go:92-156 | For every token list and limit the parser returns a tree if and only if the tokens are a sentence of the grammar that means it and nests within the limit: AND binds tighter than OR, both associate to the left, and a comparison names a filterable field as the table spells it with a literal of its type. |
| EsqlGrammar.SentenceIsRead | internal/connector/elasticesql/parse.go:92-156 | Every sentence is parsed to its own tree exactly when its nesting fits, and refused otherwise. |
| EsqlGrammar.ListsParseToFolds | internal/connector/elasticesql/parse.go:92-110 | Operands joined by AND inside lists and by OR between them, with no parentheses, parse to the left fold of OR over the left folds of AND. |
| EsqlGrammar.LiteralExactly | internal/connector/elasticesql/parse.go:223-245 | Which tokens are literals of a type, and which value each denotes. |
| EsqlGrammar.KeywordsInAnyCase | internal/connector/elasticesql/parse.go:256-262 | A keyword is matched whatever the case of each of its letters, and nothing else is. |
| EsqlPrinter.AcceptedIsGood | internal/connector/elasticesql/parse.go:112-156 | Every accepted tree compares filterable fields with literals of their type and never names a field spelled like NOT. |
| EsqlPrinter.Printer.CanonicalExpression | internal/connector/elasticesql/compiler.go:161-196 | The recursive printer with its shared parameter list. |
| EsqlPrinter.PrintSucceeds | internal/connector/elasticesql/compiler.go:161-225 | Printing succeeds if and only if every literal passes its type check and the comparisons fit the parameter limit; the parameters are then the literals from left to right. |
| EsqlPrinter.LimitIsOnComparisons | internal/connector/elasticesql/compiler.go:165-167 | For well-typed literals the parameter limit denies exactly the trees with more than 256 comparisons. |
| EsqlPrintedText.PrintedLexes | internal/connector/elasticesql/compiler.go:161-196 | The tokenizer reads the printed text, with its marks, as exactly the tokens of the printed tree. |
| EsqlRestore.RestoreGivesWritten | internal/connector/elasticesql/compiler.go:161-196 | Putting the parameters back in order and the vendor names back gives the tree written out in full. |
| EsqlReading.WrittenIsWhole | internal/connector/elasticesql/parse.go:92-156 | A tree written in full parses to itself if and only if its nesting fits the depth limit, for every limit. |
| EsqlRoundTrip.RoundTrip | internal/connector/elasticesql/compiler.go:161-225 | Lexing the printed text, restoring it and parsing again gives the same tree up to timestamp normalisation if and only if the printed nesting fits the limit. |
| EsqlRoundTrip.AcceptedRoundTrip | internal/connector/elasticesql/parse.go:92-156 | The same for every tree the parser accepts, at the compiler's depth limit of 16. |
| EsqlRoundTrip.LongChainsAreAccepted | internal/connector/elasticesql/parse.go:102-110 | An unparenthesised chain of any number of ANDs is accepted at depth 0 but nests once per AND when printed, so 17 of them do not fit again. |
| EsqlRoundTrip.PrintedKeepsTruth | internal/connector/elasticesql/compiler.go:84-225 | On every document the printed text with its parameters has the truth value of the parsed tree. |
| EsqlRoundTrip.MarksMatchParameters | internal/connector/elasticesql/compiler.go:161-196 | The k-th mark in the text stands behind the field and operator of the k-th comparison, and the k-th parameter is its literal. |
| QueryDslParser.QueryParser.Node | internal/connector/elasticquerydsl/parse.go:38-74 | Counts the clause, applies both limits and dispatches on the one key. |
| QueryDslParser.QueryParser.BoolBody | internal/connector/elasticquerydsl/parse.go:199-238 | The bool body with its section order, minimum_should_match rule and emptiness check. |
| QueryDslParser.QueryParser.NodeArray | internal/connector/elasticquerydsl/parse.go:240-254 | The array loop stops at the first denied clause, with its reason and the shared counter. |
| QueryDslParser.TypedScalar | internal/connector/elasticquerydsl/parse.go:270-314 | An accepted scalar is what its JSON denotes, and integers fit in 64 bits. |
| QueryDslLimits.LimitsAreExact | internal/connector/elasticquerydsl/parse.go:42-45 | A query that parses somewhere parses from any depth and count under any limits if and only if its clauses and its depth fit them; otherwise it is denied as too complex. |
| QueryDslLegal.AcceptedExactly | internal/connector/elasticquerydsl/parse.go:38-254 | For every JSON, depth and count a query is accepted if and only if it is a sentence of the language, stated on the JSON, and its clauses and depth fit the limits; it is then charged exactly its clauses. |
| QueryDslLegal.TermsExactly | internal/connector/elasticquerydsl/parse.go:76-110 | Terms are accepted if and only if they are 1 to 256 literals of an exact field's type whose texts are pairwise different. |
| QueryDslLegal.RangeExactly | internal/connector/elasticquerydsl/parse.go:112-154 | A range is accepted if and only if the field allows it, each side has at most one bound of its type, and the bounds leave room between them, or one value that both include. |
| QueryDslLegal.TextExactly | internal/connector/elasticquerydsl/parse.go:172-197 | A text clause is accepted if and only if the field is searchable, the query is allowed, and its one option asks for all words or for no slop. |
| QueryDslMeaning.ParseKeepsMeaning | internal/connector/elasticquerydsl/parse.go:38-254 | On every document an accepted query's parsed tree matches exactly when the caller's JSON does, whose minimum_should_match, operator and slop the evaluator reads. |
| QueryDslMeaning.CanonicalKeepsMeaning | internal/connector/elasticquerydsl/compiler.go:141-185 | On every document the canonical vendor JSON, with the minimum_should_match, operator and slop it writes, matches exactly when the tree does. |
| QueryDslMeaning.FiltersMean | internal/connector/elasticquerydsl/compiler.go:126-139 | The mandatory filters hold exactly in the half-open time range, read under the format they write, and for the configured tenant and source. |
| QueryDslMeaning.PlanMatchesExactly | internal/connector/elasticquerydsl/compiler.go:75-139 | A document matches the compiled plan if and only if it matches the caller's JSON, lies in the time range and carries the tenant and source where configured. |
| QueryDslOrder.TermsForgetOrder | internal/connector/elasticquerydsl/parse.go:94-110 | Accepted terms in any order parse to the same node. |
| QueryDslOrder.OrderForgotten | internal/connector/elasticquerydsl/compiler.go:141-185 | Two accepted queries that differ only in the order of bool clauses or terms, at any depth, have the same canonical form. |
| QueryDslOrder.ReorderingIsAccepted | internal/connector/elasticquerydsl/parse.go:38-254 | Every reordering of an accepted query is accepted from the same depth and count under the same limits, with the same clause count and the same canonical form. |
| Sorting.SortedUnique | internal/connector/elasticquerydsl/compiler.go:174-185 | With an injective key there is only one sorted arrangement, so any correct sort gives it. |
| ToolRoute.RouteStore.Begin | internal/broker/toolroute_types.go:64-68 | The store port as the runs below use it: Begin stores the candidate only when there is no record, and otherwise returns the stored one as a replay. |
| ToolRoute.RouteStore.Save | internal/broker/toolroute_types.go:64-68 | The port's compare-and-swap, which is the swap of every step below: the next record is stored exactly when the store still holds the prior one. |
| ToolRouteRuns.StoreInvPreserved | internal/broker/toolroute_validate.go:91-135 | Every step keeps the stored history legal and only appends to it. |
| ToolRouteRuns.NewSender | internal/broker/toolroute_authority.go:138-168 | A Submit becomes a sender only by winning the swap to a dispatching record whose audit event was appended. |
| ToolRouteRuns.InvOnRuns | internal/broker/toolroute_authority.go:13-251 | All invariants hold in every interleaving of Submits with failures and crashes at any point, also when a save took effect and its caller saw an error. |
| ToolRouteRuns.DispatchedAtMostOnce | internal/broker/toolroute_authority.go:115-181 | In every run the connector is called at most once per operation, for a record stored as dispatching with its audit id. |
| ToolRouteRuns.DispatchNeedsSavedRecord | internal/broker/toolroute_authority.go:164-172 | When the call is made its record is already stored and audited and no call was made before. |
| ToolRouteRuns.ReturnedIsStored | internal/broker/toolroute_authority.go:207-251 | Any receipt a Submit returns is the stored terminal receipt, then and at every later time. |
| ToolRouteRuns.ReceiptsAgree | internal/broker/toolroute_authority.go:13-113 | Any two Submits that return a receipt return the same one. |
| ToolRouteOutcomes.AnsweredForItsIntent | internal/broker/toolroute_authority.go:39-52 | In every run a Submit that returns a receipt finds the stored record bound to its own intent. |
| ToolRouteOutcomes.AnsweredForItsBinding | internal/broker/toolroute_authority.go:84-105 | In every run a Submit that went on to begin and returns a receipt finds the stored record bound to its whole candidate binding. |
| ToolRouteOutcomes.DispatchedForItsIntent | internal/broker/toolroute_authority.go:115-181 | In every run the connector is called for a record of the intent of the Submit that calls it. |
| ToolRouteOutcomes.LookupAnswersExactly | internal/broker/toolroute_authority.go:35-56 | What a lookup leads to: a terminal record of the own intent answers with its receipt, a dispatching one ends as uncertain, a record of another intent is an error, any other goes on. |
| ToolRouteOutcomes.BeginAnswersExactly | internal/broker/toolroute_authority.go:88-112 | The same for a begin, by the whole binding of the candidate. |
| ToolRouteOutcomes.RouteEndsAsTold | internal/broker/toolroute_authority.go:171-251 | In every run a finished route names its intent, outcome and completion audit; it succeeds only by the connector's receipt, once dispatched it ends by that receipt or as uncertain, and otherwise as neither. |
| ToolRouteOutcomes.EndsByItsCause | internal/broker/toolroute_authority.go:171-251 | In every run a terminal save that wins writes the status and reason of the refusal, answer or missing receipt that ended its Submit, and returns the receipt it wrote, beside an error exactly when that refusal asked for one; one that loses changes nothing. |
| ToolRouteOutcomes.DispatchCarriesItsGrant | internal/broker/toolroute_authority.go:138-168 | In every run a dispatching record carries the decision, revision and fingerprint the gate gave that Submit and the audit appended for it. |
| ToolRouteOutcomes.RefusalKeepsItsGrant | internal/broker/toolroute_authority.go:142-144 | A route refused after its grant ends with that grant in its record. |
| ToolRouteOutcomes.SavesExactly | internal/broker/toolroute_authority.go:117-170 | What the authorizing and the dispatching save write where they win, field by field; where they lose they change nothing. |
| ToolRouteRuns.TerminalForever | internal/broker/toolroute_validate.go:124-135 | A terminal record never changes in any run. |
| ToolRouteRuns.HistoryIsLegal | internal/broker/toolroute_validate.go:91-135 | Over any run revisions rise by one per save, the binding is constant, time does not go back and only the last record is terminal. |
| ToolRouteRuns.ProvenanceTellsHistory | internal/broker/toolroute_validate.go:185-197 | The stored provenance stands for exactly the records stored so far, in order. |
| ApprovalLifecycle.DuplicateGrant | internal/domain/approvallifecycle/validate.go:122-136 | The scan reports a duplicate exactly when two grants share an actor or a principal. |
| ApprovalLifecycle.ConsumedExactlyAtMaximum | internal/domain/approvallifecycle/validate.go:104-120 | A valid record is consumed exactly when its uses equal the maximum. |
| ApprovalService.ValidateGrantAuthorities | internal/broker/approval_transition.go:170-185 | The loop accepts exactly when there is one current, eligible authority per grant, in order; ApprovalAuthority says on fields who is eligible. |
| ApprovalService.Service.Transition | internal/broker/approval_transition.go:33-94 | A command is replayed, refused without any change and with the first reason that applies, or stored; it is stored if and only if every broker check and the lifecycle contract accept it. |
| ApprovalService.ProposalAccepted | internal/domain/approvallifecycle/transition.go:6-80 | The lifecycle contract accepts what the broker proposes if and only if time has not gone back, a grant comes from a new approver, and an expiry is of an approval with no uses. |
| ApprovalService.PartlyUsedCannotExpire | internal/domain/approvallifecycle/validate.go:104-120 | An approval with some uses spent can never be expired. |
| ApprovalRuns.AnApprovalThatCannotExpire | internal/domain/approvallifecycle/validate.go:104-120 | A concrete run reaches such an approval: granted, one of two uses spent, past its validity, and its expiry passes the broker and is refused by the lifecycle contract. |
| ApprovalService.MatchIsFieldEquality | internal/broker/approval_transition.go:187-193 | Comparing the concatenated fingerprint texts is comparing every field, when all but the last have fixed widths. |
| ApprovalService.UintText | internal/broker/approval_commit.go:87-99 | The digit loop over the 20-byte buffer yields the decimal text of every 64-bit value. |
| ApprovalRuns.InvOnRuns | internal/broker/approval_transition.go:33-94 | In every run of concurrent commands the history and every pending proposal stay legal. |
| ApprovalRuns.CommitsSerialise | internal/broker/approval_commit.go:13-31 | Although commits only compare revisions, each stored record is its command applied to the record stored just before it. |
| ApprovalRuns.ConsumesBounded | internal/broker/approval_transition.go:195-217 | In every run the committed consumes equal the use count, never exceed the maximum, and reach it exactly when the record is consumed. |
| ApprovalRuns.GrantedByOthers | internal/broker/approval_service.go:86-105 | A granted or consumed record holds exactly the grants its tier requires, all from different approvers, none from the requestor's actor or principal. |
| ApprovalRuns.TerminalForever | internal/domain/approvallifecycle/transition.go:25-27 | A rejected, expired, consumed or revoked approval never changes again in any run. |
| ApprovalRuns.UsesAreAuthorised | internal/broker/approval_transition.go:96-157 | Every committed use was by the action's owner, on a granted and current approval, with valid authorities and proof. |
| ApprovalLifecycle.ContractExactly | internal/domain/approvallifecycle/transition.go:6-80 | The contract permits exactly the next revision of a valid record with the same binding, no earlier in time, by one more grant, one more use, or an end that keeps what was granted and used, with the state the two thresholds demand. |
| ApprovalAuthority.CommitsAreAuthorised | internal/broker/approval_transition.go:33-217 | In every run, for every committed command, on the fields of its actor and principal: a grant or use came within the validity and with a proof, the actor was in scope, active and held the permission of the operation (approval.decide for grant, reject and revoke, service.invoke for expire, action.request for consume), a granting principal was human, enrolled and bound to the actor at its revision with the approver role and not the requestor, and the same holds of the authority behind each grant of a use; and the record changed exactly as that command says. |
| ApprovalAuthority.GrantsAreHuman | internal/broker/approval_authority.go:48-61 | In every run each grant of a stored record goes back to a command by such a human approver, and records its actor, principal, both revisions and time. |
| ApprovalAuthority.CarriedOutExactly | internal/broker/approval_transition.go:71-92 | On a valid record a command is carried out if and only if it is authorised in this sense, names the stored revision, does not go back in time, grants by a new approver, and expires only what was never used. |
| ApprovalAuthority.BrokerAllowsExactly | internal/broker/approval_transition.go:96-157 | The broker's own checks pass if and only if the command is authorised and names the stored revision. |
| ApprovalAuthority.ReplaysAreOfTheLastCommit | internal/broker/approval_transition.go:64-66 | In every run a command is taken for a replay if and only if it has the digest and the expected revision of the last commit. |
| ApprovalAuthority.RequestsAreSound | internal/broker/approval_service.go:86-105 | A request makes a valid first record if and only if its validity is not empty and its grant and use counts are 1 to 16 and 1 to 1000. |
| KustoChunks.SplitUtf8 | internal/connector/kustovalidator/native_helper.go:106-123 | For every accepted input the loops return the split below, and the zero-length error is unreachable. |
| KustoChunks.SplitIsExact | internal/connector/kustovalidator/native_helper.go:106-123 | Chunks are non-empty, valid UTF-8, at most 61440 bytes, and join to the input. |
| KustoChunks.ChunkEndIsFurthest | internal/connector/kustovalidator/native_helper.go:106-123 | Each chunk ends at the last character boundary that the size allows. |
| KustoChunks.SplitIsShortest | internal/connector/kustovalidator/native_helper.go:106-123 | For every request and every k the sender needs at most k chunks if and only if some list of at most k non-empty, valid, bounded chunks joins to the request: no other split beats it. |
| KustoChunks.SplitFits | internal/connector/kustovalidator/native_helper.go:106-123 | Equivalently, if and only if the request can be cut at character boundaries into at most k pieces of the allowed size. |
| KustoChunks.SmallRequestsFit | internal/connector/kustovalidator/native_helper.go:106-123 | Every valid request of at most 8 times 61437 bytes uses at most 8 chunks. |
| KustoChunks.LargestRequestsFit | internal/connector/kustovalidator/native_helper.go:106-123 | The case of a request of exactly the sender's size limit: 8 chunks suffice if and only if every multiple of 61440 is a character boundary. |
| KustoChunks.ARequestCanNeedNine | internal/connector/kustovalidator/native_helper.go:106-123 | A concrete accepted request that needs a ninth chunk. |
| KustoChunks.Reassemble | helpers/kusto-language/Transport.cs:51-80 | The slot loop accepts exactly gapless, non-empty, bounded chunks whose text has an allowed size, returns its UTF-8 bytes, and tells a bad chunk from a bad size. |
| KustoChunks.ReassemblesExactly | helpers/kusto-language/Transport.cs:51-80 | What the sender splits into at most 8 chunks the helper accepts and reassembles byte for byte. |
| Utf8.CutsAtBoundaries | internal/connector/kustovalidator/native_helper.go:112-115 | Cutting a valid text leaves valid parts exactly at character boundaries. |
| Utf8.GetBytesOfUnits | helpers/kusto-language/Transport.cs:80 | Encoding the decoded UTF-16 string gives the original bytes, and the string is never longer than them. |
| Utf8.GetBytesExactly | helpers/kusto-language/SyntaxFingerprint.cs:9-14 | Two UTF-16 strings encode to the same bytes if and only if they agree after every unpaired surrogate is replaced. |
| KustoCanonical.RewriteBytes | helpers/kusto-language/Transport.cs:91-133 | The writing loop with its flags is the left-to-right rewrite. |
| KustoCanonical.LowerEscapes | helpers/kusto-language/Transport.cs:134-158 | The in-place loop lower-cases exactly the digits of every escape its parity test finds. |
| KustoCanonical.CanonicalBytes | helpers/kusto-language/Transport.cs:91-160 | The two passes together. |
| KustoCanonicalMeaning.ParityAgrees | helpers/kusto-language/Transport.cs:141-149 | On every lexically valid JSON text a backslash ends an odd run exactly when the left-to-right scanner takes it as the start of an escape. |
| KustoCanonicalMeaning.LowerAgrees | helpers/kusto-language/Transport.cs:134-158 | On such text the position-by-position second pass is the left-to-right scan. |
| KustoCanonicalMeaning.CanonicalKeepsMeaning | helpers/kusto-language/Transport.cs:91-160 | The result is lexically valid and every string decodes to what it did before. |
| KustoCanonicalMeaning.CanonicalIsIdempotent | helpers/kusto-language/Transport.cs:91-160 | Applying the rewrite twice changes nothing more. |
| KustoCanonicalForm.CanonicalExactly | helpers/kusto-language/Transport.cs:91-160 | On every lexically valid text the two passes write exactly this form: in strings <, >, & and the two line separators as lower-case escapes, every escape in lower case, and every other byte as it was. |
| SyntaxFingerprint.Builder.Append | helpers/kusto-language/SyntaxFingerprint.cs:16-37 | The recursive writer appends exactly the encoding of the tree. |
| SyntaxFingerprint.EncodingIsPrefixFree | helpers/kusto-language/SyntaxFingerprint.cs:16-37 | A tree and what follows it can be read back from the encoded text in one way only, even when token values contain the delimiters. |
| SyntaxFingerprint.EncodingIsInjective | helpers/kusto-language/SyntaxFingerprint.cs:16-37 | Two trees with the same encoded text, in UTF-16 units as the source counts them, are the same tree. |
| SyntaxFingerprint.EncodingSample | helpers/kusto-language/SyntaxFingerprint.cs:16-37 | The text of a node with a token and a missing child, written out. |
| SyntaxFingerprint.DigestedBytesExactly | helpers/kusto-language/SyntaxFingerprint.cs:9-37 | Two trees give the digest the same UTF-8 bytes if and only if they are the same tree once every unpaired surrogate in a token value is replaced. |
| SyntaxFingerprint.PairedTreesDiffer | helpers/kusto-language/SyntaxFingerprint.cs:9-37 | So the digested bytes tell any two trees without unpaired surrogates apart. |
| SyntaxFingerprint.LoneSurrogatesCollide | helpers/kusto-language/SyntaxFingerprint.cs:9-14 | A concrete pair of different trees, with the token values 0xD800 and 0xFFFD, that share their digested bytes. |

## Left out

- HTTP clients, TLS pinning, vendor response decoding and the securityonion connector: network plumbing.
- The sandbox, Docker runtime, artifact staging and everything under cmd/: operating-system calls and wiring.
- SemanticAnalyzer.cs, AstBounder.cs and SchemaSymbols.cs: their meaning rests on the Kusto.Language library.
- Credential leases and the workflow guard: their stores are separate from the ones modelled; the protocols are those proved here for worker leases and for the three tables.
- The emergency-stop controller's goroutines and deadlines, and evidence digests of the controls.
- SQLite rows that fail to decode when read back, and wrap-around of 64-bit epochs and revisions.
- Formats of identifiers, digests and reason codes: such checks only refuse more.
- Lease capacity and tier checks: single comparisons made before a lease is created; they only refuse more.
- ES|QL KEEP, SORT, LIMIT and command order, and the definition check, of which only its promises about names are used.
- EsqlLexer.Tokenize: string unquoting and UTF-8 validity are parameters, because they belong to the language library.
- The Query DSL evaluator: options that the compiler neither accepts nor writes, such as percentages in minimum_should_match, fuzziness or analyzers, have no meaning in the model, and a query that uses one matches nothing.
- QueryDslParser.ParseRange: when two bounds are both wrong the code reports whichever its map iteration meets first; the model reports them in a fixed order.
- The Query DSL field lookup: names are looked up in a map; the binary search over the sorted field list is the library's.
- QueryDslOrder.OrderForgotten: takes JSON encoding to be injective, as does ReorderingIsAccepted.
- PagedExport: one job; several jobs in one runtime and the timers that expire them are not modelled, expiry itself is an event of the runs.
- ToolRoute: the contents of audit events and the mapping of errors to codes; an error and a crash both end a Submit without a receipt.
- ApprovalService.Service.Transition: the reason reported by a refused `validateOperation` is one token, because only acceptance matters to the proofs.
- ApprovalService.MatchIsFieldEquality: the fixed widths come from the formats of digests, identifiers and timestamps.
- KustoChunks.ReassemblesExactly: the JSON envelope between sender and helper carries the chunks unchanged.
- KustoCanonicalMeaning.CanonicalKeepsMeaning: an escape decodes to the UTF-8 bytes of its code unit, so surrogate pairs are kept pairwise rather than joined.
- SyntaxFingerprint.EncodingIsInjective: speaks about the encoded text; DigestedBytesExactly speaks about its bytes. The hash over those bytes is not modelled.
