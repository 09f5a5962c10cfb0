# Account quotas and role rules, modelled and proved

kiosk gives every account a budget. An AccountQuota limits resources over all namespaces
of an account; an admission plugin charges each request against it, a controller recounts
usage from scratch, and both write the same status object under optimistic concurrency.
kiosk also resolves role bindings to policy rules and compares rule lists. This project
models those parts in Dafny and proves what they keep over all inputs, all interleavings
and all runs.

Quantities are exact integers. A name that is absent from a resource list counts as zero
in sums, but presence is tracked, because admission refuses a quota without usage numbers.
An empty list and a nil list read back alike, because both are omitted when stored.

## Modules

| module | part of the system |
|---|---|
| `Names`, `Sums`, `Objects` | byte order on names, sums over lists, cluster objects |
| `ResourceLists` | the resource arithmetic shared by everything else |
| `Evaluators` | one evaluator's recount, the merge of all evaluators, the registry |
| `Pods`, `PodUsage`, `CoreEvaluators` | quality-of-service class, pod charges, the concrete evaluators |
| `PodScopes` | when the recount of pods reads a quota's scopes as admission does |
| `Admission` | the decision about one request |
| `Batches`, `QuotaEvaluator` | a batch of waiters: specification and imperative form |
| `Passes`, `Looks` | a batch as a series of passes, and one quota through them |
| `Retries`, `RetryRuns` | what retries do to the answers of a batch: exact conditions, and concrete runs |
| `WorkBuckets` | the per-namespace work queue as a state machine of goroutine steps |
| `AccountQuotas`, `AccountQuotaAccessor`, `WriteProtocol` | the stored object, the accessor that writes it, all writers interleaved |
| `Resync` | the recount of a whole account |
| `Ledger`, `LedgerBatches`, `LiveRecount`, `LedgerRuns` | live objects against recorded usage against limits, over whole runs of batches and resyncs |
| `Locks` | one lock per quota name, taken in name order |
| `Monitors` | the set of resource monitors and their stop channels |
| `Rules`, `PolicyComparator`, `Coverage`, `PolicyCompact` | policy rules: what they allow, cover and compact to |
| `Resolver` | authorization through bindings, listed in full or through the subject index |
| `Parameters` | the template variable scanner |

## Main results

1. Over every run of batches, failed requests, deletions, shrinking objects and resyncs, also with
   failing evaluators, live usage <= recorded usage <= limit, per namespace and in total
   (`LedgerRuns.LiveWithinUsedWithinHard`), starting from an account without objects
   (`LedgerRuns.StartsInOrder`) or any other state in order. A batch is the code's own: the account has
   any number of quotas, reads may be stale, writes may conflict and be retried any number of times.
   The one thing assumed of it is that it forgets no refusal, and that is exact: what a batch lets
   through is stored with its weight in a quota if and only if no refusal of it was forgotten there
   (`LedgerBatches.ThroughIsStoredExactly`). With one quota in the account, or when the first writes
   succeed, nothing is forgotten (`LedgerBatches.OneQuotaForgetsNothing`,
   `LedgerBatches.NoFailureForgetsNothing`). A resync happens when nothing that was let through is
   still on its way (`LedgerRuns.ForgottenCharge` says what is lost otherwise) and reads the quota's
   scopes as admission does (see below).
2. Incremental charging agrees with the recount (`LedgerRuns.ChargesEqualRecount`), and a resync without
   failing evaluators leaves exactly what lives, in total and per namespace (`LedgerRuns.ResyncRestores`).
3. No charge is lost under any interleaving of workers, informer, cache, resync and edits
   (`WriteProtocol.NoLostCharges`, `WriteProtocol.TotalIsEveryCharge`).
4. Per-namespace slices add up to the total in every stored version (`WriteProtocol.EveryVersionConserved`).
5. No waiter is lost, doubled or reordered (`WorkBuckets.ArrivalsAreServedInOrder`); every waiter is
   answered and notified once (`QuotaEvaluator.CheckAttributes`); batching is transparent
   (`Batches.BatchingIsTransparent`); locking is deadlock free and every batch
   finishes (`Locks.NoDeadlock`, `Locks.EveryBatchFinishes`).
6. The exact answer of every waiter, through any number of retries and whatever the API server does,
   read off its delta and the quotas each pass looks at (`Passes.AnswersExactly`,
   `Retries.OutcomeExactly`, `Retries.AnswerByGuards`), and exactly what the batch leaves in the store
   (`Looks.StoredExactly`).
7. Coverage of rules is sound and its verdict is characterized exactly, for all rules
   (`Coverage.CoversSound`, `Coverage.CoversExactly`);
   breaking down and compacting rules keep their meaning; the subject index decides as the full scan does.
8. Escaping a template and parsing it gives the text back (`Parameters.EscapeRoundTrip`).

## Where the code does not do what is expected of it

- A retry after a failed status write looks only at the quotas whose write failed, so it can
  overturn the refusal of another quota (`RetryRuns.RetryForgetsADenial`). It does so exactly when some
  later pass lets the request pass, because none of the failed quotas applies to it or limits what
  it adds (`Retries.RefusalOverturnedExactly`). With one quota in the account whoever is let through
  was admitted by a read of that quota (`Retries.OneQuotaAllowsOnlyAdmitted`).
- A waiter can be refused and charged all the same (`RetryRuns.RefusedYetCharged`): exactly when an
  earlier pass refused it and all passes since then only charged it
  (`Retries.RefusedThoughWrittenExactly`).
- A waiter can be let through while its charge is not stored, for instance when the quota's limits
  change between two passes (`RetryRuns.ChangedTermsLoseACharge`): exactly when an earlier pass let it
  pass and all passes since then only charged it (`Retries.LetThroughUnwrittenExactly`). With one
  quota whose terms stay it cannot happen (`Retries.AllowedIsStored`).
- A second resync on an unchanged cluster writes again exactly when no limited resource can be measured,
  or was recorded, in any namespace of the account, because the stored status then reads back as unset
  (`Resync.ResyncIdempotentExactly`, `Resync.NeverSettles`).
- The recount asks about plain scopes without an operator. With the plain priority class among the
  scopes of a quota, its recount of any pods is empty, without an error (`PodScopes.PriorityClassForgotten`).
  The recount of pods is what admission charges for them exactly when the priority class is not a
  plain scope or no pod is in the quota's scope (`PodScopes.PodRecountAgreesExactly`).
- A service that keeps its type and changes the number of its node ports changes its charge, and no
  recount is asked for (`CoreEvaluators.UnnoticedServiceUpdatesExactly`).
- A status write over a base object older than the stored one keeps the slices adding up but books
  the charge of one namespace under another (`AccountQuotas.StaleBaseMisattributes`, exactly when in
  `AccountQuotas.ChargesOnlyExactly`). While cache entries live until the informer has caught up this
  never happens (`WriteProtocol.WriteIsExact`).
- Coverage wants a resource name that ends right after its slash covered, and ignores a URL owner rule
  with resource names, although neither matters to any request (`Coverage.TrailingSlashUncovered`,
  `Coverage.NamedUrlRuleUncovered`); `Coverage.CoversExactly` says that this is all it gets wrong.

The quality-of-service class compares sums over containers, not containers. For the pods the API server
validates that is the same (`Pods.GuaranteedPointwise`); for all lists of containers
`Pods.SumsDisagreeExactly` says when it would not be.

## Model

| member | source | states |
|---|---|---|
| `LedgerRuns.LiveWithinUsedWithinHard` | kube/plugin/pkg/admission/resourcequota/controller.go:212-567 | over every run, in every quota and for every limited, measured resource: usage of live objects <= slice in each namespace, and <= recorded total <= limit; any number of quotas, conflicts and retries, as long as no batch forgets a refusal |
| `LedgerRuns.ChargesEqualRecount` | kube/pkg/quota/v1/generic/evaluator.go:148-226 | from books that agree with a recount, batches of creates that charge only what they let through and all of whose objects arrive leave a total equal to recounting every namespace |
| `LedgerRuns.StepKeepsInv` | kube/plugin/pkg/admission/resourcequota/controller.go:212-567 | every step, also a whole batch with its conflicts and retries and a resync with failing evaluators, keeps: live plus pending usage is recorded in each namespace's slice, slices add up, and the total is within the limit |
| `LedgerRuns.ForgottenCharge` | pkg/manager/quota/controller/controller.go:372-444 | a resync that misses an admitted object leaves live usage above the record by exactly the object's weight |
| `LedgerRuns.SmoothBatchChargesThrough` | kube/plugin/pkg/admission/resourcequota/controller.go:220-287 | a batch without a failed write charges nobody whom it does not let through |
| `LedgerBatches.ThroughIsStoredExactly` | kube/plugin/pkg/admission/resourcequota/controller.go:212-326 | for any quotas, reads, conflicts and retries: what is let through is stored in a quota with its weight exactly when the last pass that looked at that quota did not refuse it, or the quota does not count it |
| `LedgerBatches.OneQuotaForgetsNothing` | kube/plugin/pkg/admission/resourcequota/controller.go:299-325 | with one quota in the account no batch forgets a refusal |
| `LedgerBatches.NoFailureForgetsNothing` | kube/plugin/pkg/admission/resourcequota/controller.go:278-287 | a batch whose first writes all succeed forgets no refusal |
| `LedgerBatches.BatchCovers` | kube/plugin/pkg/admission/resourcequota/controller.go:220-326 | what a batch lets through weighs, in every quota, at most what it stored there, and exactly that if everyone charged there is let through |
| `LedgerBatches.StoresAreTheLog` | kube/plugin/pkg/admission/resourcequota/controller.go:262-326 | what the ledger writes for a quota is exactly what the batch leaves in the store under its name |
| `Looks.StoredExactly` | kube/plugin/pkg/admission/resourcequota/controller.go:262-326 | through any number of retries the store receives exactly the quotas that the last pass looking at them changed and could write, as that pass left them |
| `Looks.LooksAgainExactly` | kube/plugin/pkg/admission/resourcequota/controller.go:299-325 | a quota that reads find is looked at again exactly when its write failed |
| `LedgerBatches.ChargedGrows` | pkg/manager/quota/accessor.go:63-101 | the stored quotas grow by exactly the batch's charge, in its namespace's slice and in the total, within the limits |
| `PodScopes.PodRecountAgreesExactly` | kube/pkg/quota/v1/generic/evaluator.go:195-225 | the recount of a list of pods is what admission charges for them, for every resource, exactly when the priority class is not a plain scope or no listed pod is in the quota's scope |
| `PodScopes.PodReadableExactly` | kube/pkg/quota/v1/generic/evaluator.go:196-214 | the recount reads a pod's scopes without an error and as admission does, exactly when no plain scope is the priority class and all selectors parse |
| `PodScopes.PriorityClassForgotten` | kube/pkg/quota/v1/generic/evaluator.go:196-204 | for every quota with the priority class among its plain scopes the recount of any pods is empty and error-free |
| `Ledger.CreateCharges` | kube/plugin/pkg/admission/resourcequota/controller.go:480-567 | an admitted create charges every quota of the account exactly the new object's weight |
| `Ledger.UpdateCharges` | kube/plugin/pkg/admission/resourcequota/controller.go:492-509 | an admitted update charges exactly the growth in weight, never a negative amount |
| `LiveRecount.RecountIsLiveUsage` | pkg/manager/quota/controller/controller.go:395-424 | namespaces times evaluators of the recount add up to the usage of the live objects |
| `LiveRecount.CellsAddUp` | kube/pkg/quota/v1/resources.go:249-290 | splitting live items by namespace and kind loses nothing and counts nothing twice |
| `WriteProtocol.NoLostCharges` | pkg/manager/quota/accessor.go:63-101 | under every interleaving a status write is accepted exactly when its batch read the stored quota; it then adds exactly the batch's charges to the stored total and to its own slice, within the limits, whether or not its worker hears of it |
| `WriteProtocol.WriteIsExact` | pkg/manager/quota/accessor.go:63-121 | a write is accepted exactly when its quota was read from the stored object; the base it was computed from is then the stored one |
| `WriteProtocol.TotalIsEveryCharge` | pkg/manager/quota/accessor.go:63-143 | with only admission writing, the total is the initial one plus every accepted charge once, and a limit that held keeps holding |
| `WriteProtocol.EveryVersionConserved` | pkg/manager/quota/accessor.go:63-101 | in every reachable state every stored version has distinct namespaces whose slices add up to the total |
| `WriteProtocol.OneHolder` | kube/plugin/pkg/admission/resourcequota/controller.go:192-197 | two workers are never both between taking and giving back the quota's lock |
| `WriteProtocol.StepKeepsInv` | pkg/manager/quota/accessor.go:63-143 | every step of workers, informer, cache, resync and owner keeps the protocol invariant |
| `AccountQuotas.UpdatedConserves` | pkg/manager/quota/accessor.go:71-91 | a status write keeps slices adding up to the total whichever version its base is |
| `AccountQuotas.ChargesOnlyExactly` | pkg/manager/quota/accessor.go:71-91 | the charge lands in its own slice only, exactly when the base agrees with the store on all other slices |
| `AccountQuotas.StaleBaseMisattributes` | pkg/manager/quota/accessor.go:63-91 | a base one version old books another namespace's charge under this one |
| `AccountQuotas.InsertedFinds` | pkg/manager/quota/util.go:35-52 | inserting a slice changes what is found under its own namespace and nothing else |
| `AccountQuotas.GetResourceQuotasStatusByNamespace` | pkg/manager/quota/util.go:25-33 | returns the first slice of the namespace, or an empty status and not found |
| `AccountQuotas.InsertResourceQuotasStatus` | pkg/manager/quota/util.go:35-52 | replaces in place, or appends when the namespace is new |
| `AccountQuotaAccessor.Accessor.UpdateQuotaStatus` | pkg/manager/quota/accessor.go:63-101 | succeeds exactly when the new quota carries the stored version; then store and look-aside cache hold the updated object |
| `AccountQuotaAccessor.Accessor.CheckCache` | pkg/manager/quota/accessor.go:108-121 | returns whichever of read and cached object has the larger version, and drops the cache entry exactly when the read object is at least as new |
| `AccountQuotaAccessor.ReadsOwnWrite` | pkg/manager/quota/accessor.go:63-143 | after a successful write every read finds the written usage under the next version while the informer is behind, and the informer's object once it is ahead |
| `WriteProtocol.ReadsAreTheAccessors` | pkg/manager/quota/accessor.go:108-121 | the version a protocol step reads and the cache it leaves are those of CheckCache |
| `AccountQuotaAccessor.Accessor.GetQuotas` | pkg/manager/quota/accessor.go:123-143 | every quota of the namespace's account once, each as fresh as informer and cache know it |
| `AccountQuotaAccessor.Accessor.WaitForAccount` | pkg/manager/quota/accessor.go:145-182 | the first poll that is not a missing namespace decides: its account, or an error if the poll or the listing fails; without one it is an error |
| `Resync.SyncAccountQuota` | pkg/manager/quota/controller/controller.go:372-444 | when the namespaces could be listed it writes the recomputed status, unless total and limits already are what the recount finds and neither is empty; it reports an error exactly when the listing, some namespace or the write failed |
| `Resync.SettledIsRecount` | pkg/manager/quota/controller/controller.go:424-443 | after a run the stored total is the recount under the owner's limits, whether or not it wrote |
| `LedgerRuns.ResyncRestores` | pkg/manager/quota/controller/controller.go:372-444 | after a resync without failing evaluators the total is exactly the usage of what lives, and so is every namespace's slice |
| `Resync.SyncedConserves` | pkg/manager/quota/controller/controller.go:395-434 | a resync leaves distinct namespaces adding up to the total whatever was recorded before |
| `Resync.SyncedSlice` | pkg/manager/quota/controller/controller.go:395-422 | measured resources get their measured value, failed ones keep the last record, unlimited ones disappear |
| `Resync.ResyncIdempotentExactly` | pkg/manager/quota/controller/controller.go:373-443 | a second run on an unchanged cluster writes exactly when no limited resource is measurable or recorded in any namespace of the account |
| `Resync.NeverSettles` | pkg/manager/quota/controller/controller.go:380-443 | an account without namespaces is written by every run |
| `Resync.SyncedIsReady` | kube/plugin/pkg/admission/resourcequota/controller.go:703-714 | after a resync write admission finds usage numbers for every limited resource measured in some namespace |
| `WorkBuckets.ArrivalsAreServedInOrder` | kube/plugin/pkg/admission/resourcequota/controller.go:624-674 | under every interleaving arrivals equal batches taken, then both buckets, then the waiter being added; whoever waits will be collected |
| `WorkBuckets.NeverStuck` | kube/plugin/pkg/admission/resourcequota/controller.go:145-164 | while someone waits some worker or adder can take a step |
| `WorkBuckets.StepKeepsInv` | kube/plugin/pkg/admission/resourcequota/controller.go:624-674 | every step of every goroutine keeps the bucket invariant |
| `WorkBuckets.ServedAsOftenAsNeeded` | kube/plugin/pkg/admission/resourcequota/controller.go:624-674 | a namespace added while it is served is handed out once more afterwards, one that is not is not |
| `WorkBuckets.QuotaEvaluatorQueue.AddWork` | kube/plugin/pkg/admission/resourcequota/controller.go:624-639 | queues the namespace and appends the waiter to the bucket that is not being served |
| `WorkBuckets.QuotaEvaluatorQueue.CompleteWork` | kube/plugin/pkg/admission/resourcequota/controller.go:641-649 | the dirty bucket becomes the work bucket and the namespace may be handed out again |
| `WorkBuckets.QuotaEvaluatorQueue.GetWork` | kube/plugin/pkg/admission/resourcequota/controller.go:656-674 | hands out one namespace with its whole bucket and marks it in progress; on an empty queue nothing changes and the call goes on waiting |
| `QuotaEvaluator.CheckAttributes` | kube/plugin/pkg/admission/resourcequota/controller.go:168-198 | every waiter leaves decided and closed exactly once more, with at most four reads: refused when the quotas cannot be read, let through when there are none, and otherwise with the answer of the passes that start from the quotas in name order with three retries |
| `QuotaEvaluator.CheckQuotas` | kube/plugin/pkg/admission/resourcequota/controller.go:212-326 | results, writes and reads are those of the batch specification, through every retry |
| `QuotaEvaluator.CheckWaiters` | kube/plugin/pkg/admission/resourcequota/controller.go:220-251 | answers or charges the waiters in order against the running quotas |
| `QuotaEvaluator.WriteQuotas` | kube/plugin/pkg/admission/resourcequota/controller.go:262-276 | writes exactly the quotas whose usage changed and remembers the failures |
| `RetryRuns.ConflictsThenSuccess` | kube/plugin/pkg/admission/resourcequota/controller.go:262-326 | a request that its quota charges in every pass survives as many conflicts as there are retries and is then stored once; with one more it is refused and nothing is stored |
| `RetryRuns.ThreeConflictsSurvived` | kube/plugin/pkg/admission/resourcequota/controller.go:192-198 | so with the three retries a batch starts with it survives three conflicts and not four |
| `QuotaEvaluator.SelectFailed` | kube/plugin/pkg/admission/resourcequota/controller.go:316-324 | keeps the re-read quotas that carry the name of a failed one |
| `Batches.BatchingIsTransparent` | kube/plugin/pkg/admission/resourcequota/controller.go:212-287 | with successful writes a batch gives the answers and the stored quotas of checking its waiters one by one |
| `Batches.EveryoneAnswered` | kube/plugin/pkg/admission/resourcequota/controller.go:212-326 | no waiter keeps the default answer and each retry reads at most once |
| `Batches.StoredWithinHard` | kube/plugin/pkg/admission/resourcequota/controller.go:212-326 | whatever is stored is a quota that was read, grown only where limited and within the limit |
| `Batches.RunningSameQuotas` | kube/plugin/pkg/admission/resourcequota/controller.go:220-251 | through a batch the running quotas stay index-aligned and only grow, within their limits |
| `Batches.RunningIsCharge` | kube/plugin/pkg/admission/resourcequota/controller.go:220-251 | the quota to be written is the one that was read plus the charges of the admitted requests |
| `Passes.AnswersExactly` | kube/plugin/pkg/admission/resourcequota/controller.go:212-326 | for any number of retries the answer is that of the last pass that decided; if none did, allowed exactly when the last writes all succeeded |
| `Retries.OutcomeExactly` | kube/plugin/pkg/admission/resourcequota/controller.go:220-251 | a request passes freely exactly when no quota faults and its delta is known and zero or touches none of them; it is charged exactly when it fits and touches one; a dry run that would be charged passes |
| `Retries.AnswerByGuards` | kube/plugin/pkg/admission/resourcequota/controller.go:212-326 | dry runs included, any retries: the last pass that does not charge a waiter decides, by what its quotas say; one that all passes charge is let through exactly when the last writes all succeed |
| `Retries.RefusalOverturnedExactly` | kube/plugin/pkg/admission/resourcequota/controller.go:246-326 | after any number of retries a refusal by any pass, also of a dry run, is overturned exactly when a later pass, looking only at quotas whose write failed before it, lets the waiter pass and all passes after that only charge it |
| `Retries.LetThroughUnwrittenExactly` | kube/plugin/pkg/admission/resourcequota/controller.go:239-307 | a waiter charged by the last pass, some of whose writes fail, is let through exactly when an earlier pass let it pass and the passes since only charged it |
| `Retries.RefusedThoughWrittenExactly` | kube/plugin/pkg/admission/resourcequota/controller.go:239-287 | a waiter charged by the last pass, all of whose writes succeed, is refused exactly when an earlier pass refused it and the passes since only charged it |
| `Retries.AllowedIsStored` | kube/plugin/pkg/admission/resourcequota/controller.go:262-307 | with one quota whose terms stay, any retries and any conflicts: whoever is let through was not charged by the last pass or is part of what it stored |
| `RetryRuns.RefusedYetCharged` | kube/plugin/pkg/admission/resourcequota/controller.go:239-326 | for any positive number of retries: a conflict and a retry can charge a waiter whose refusal stands |
| `RetryRuns.ChangedTermsLoseACharge` | kube/plugin/pkg/admission/resourcequota/controller.go:239-307 | for any positive number of retries: a quota rewritten between two passes can leave a waiter let through without a stored charge |
| `Passes.AllowedByLastPass` | kube/plugin/pkg/admission/resourcequota/controller.go:299-325 | whoever is let through was admitted by the quotas of the last pass |
| `Retries.OneQuotaAllowsOnlyAdmitted` | kube/plugin/pkg/admission/resourcequota/controller.go:299-325 | with one quota in the account whoever is let through was admitted by it as it was last read |
| `RetryRuns.RetryForgetsADenial` | kube/plugin/pkg/admission/resourcequota/controller.go:246-325 | with two quotas a conflict on one lets a request through that the other refused |
| `Admission.CheckRequest` | kube/plugin/pkg/admission/resourcequota/controller.go:398-567 | the decision about one request, fault by fault and quota by quota |
| `Admission.AdmittedExactly` | kube/plugin/pkg/admission/resourcequota/controller.go:435-567 | admitted exactly when no quota is faulty, the delta is known, and it is zero or fits every quota that applies |
| `Admission.AdmittedGrowsWithinHard` | kube/plugin/pkg/admission/resourcequota/controller.go:543-566 | an admitted request changes nothing but usage, which grows only where limited and within the limit |
| `Admission.ScreenExactly` | kube/plugin/pkg/admission/resourcequota/controller.go:430-467 | how a quota stands to an object, from the evaluator's own answers: unreadable scope, skipped, missing constraints, missing usage numbers, or applying |
| `Admission.DeltaExactly` | kube/plugin/pkg/admission/resourcequota/controller.go:480-509 | a create adds its usage, an update of a stored object what the usage rose by under every name; negative or unreadable usage and a missing previous object are refused |
| `Admission.RefusedExactly` | kube/plugin/pkg/admission/resourcequota/controller.go:430-567 | the reason of a refusal: the first faulty quota, else the unknown delta, else the first quota that a nonzero delta would exceed |
| `Admission.Matches` | kube/pkg/quota/v1/generic/evaluator.go:148-166 | a quota applies when some limited resource is measured and every scope matches; a scope error is an error |
| `Evaluators.CalculateUsage` | kube/pkg/quota/v1/resources.go:249-290 | a resource appears exactly when some evaluator measures it and none that does failed, with the summed value |
| `Evaluators.UsageInAnyOrder` | kube/pkg/quota/v1/generic/registry.go:55-78 | the usage and its failures do not depend on the order in which the registry's map is listed |
| `Evaluators.CalculateUsageStats` | kube/pkg/quota/v1/generic/evaluator.go:182-226 | zeros for every tracked resource plus the recount; a scope error ends the count silently |
| `Evaluators.MatchesScopes` | kube/pkg/quota/v1/generic/evaluator.go:197-214 | all scope checks are evaluated; one error is an error |
| `Evaluators.RecountIsSum` | kube/pkg/quota/v1/generic/evaluator.go:195-225 | with parsing selectors the recount is the sum over matching objects |
| `Evaluators.SimpleRegistry.constructor` | kube/pkg/quota/v1/generic/registry.go:31-35 | one evaluator per kind, the later one winning |
| `Evaluators.SimpleRegistry.Add` | kube/pkg/quota/v1/generic/registry.go:37-41 | replaces the evaluator of its kind and no other |
| `Evaluators.SimpleRegistry.Remove` | kube/pkg/quota/v1/generic/registry.go:43-47 | removes the evaluator of its kind and no other |
| `Evaluators.SimpleRegistry.List` | kube/pkg/quota/v1/generic/registry.go:55-78 | lists every evaluator once, in some order |
| `ResourceLists.Equals` | kube/pkg/quota/v1/resources.go:27-43 | same names with same quantities |
| `ResourceLists.LessThanOrEqual` | kube/pkg/quota/v1/resources.go:47-59 | compares the common names and lists exactly those that exceed |
| `ResourceLists.Max` | kube/pkg/quota/v1/resources.go:62-79 | the larger quantity for every name of either list |
| `ResourceLists.Add` | kube/pkg/quota/v1/resources.go:82-97 | sums over the names of both lists |
| `ResourceLists.SubtractWithNonNegativeResult` | kube/pkg/quota/v1/resources.go:101-123 | differences cut off at zero; a name only in the second list is zero |
| `ResourceLists.Subtract` | kube/pkg/quota/v1/resources.go:126-143 | differences over the names of both lists |
| `ResourceLists.Mask` | kube/pkg/quota/v1/resources.go:146-155 | keeps exactly the named entries |
| `ResourceLists.Intersection` | kube/pkg/quota/v1/resources.go:187-200 | the common names, each once, in increasing order |
| `ResourceLists.Difference` | kube/pkg/quota/v1/resources.go:203-213 | the names only in the first list, each once, in increasing order |
| `ResourceLists.IsZero` | kube/pkg/quota/v1/resources.go:216-224 | every quantity is zero |
| `ResourceLists.IsNegative` | kube/pkg/quota/v1/resources.go:227-236 | exactly the names with a negative quantity |
| `ResourceLists.PlusLaws` | kube/pkg/quota/v1/resources.go:82-97 | adding usages is commutative and associative, down to which names are present |
| `ResourceLists.MinusThenPlus` | pkg/manager/quota/accessor.go:77-86 | adding back a difference restores the target; a cut-off difference restores the larger of both |
| `Pods.GetPodQOS` | kube/pkg/quota/v1/evaluator/core/pods.go:380-443 | the class by sums of positive cpu and memory over all containers |
| `Pods.GuaranteedPointwise` | kube/pkg/quota/v1/evaluator/core/pods.go:380-443 | with requests within limits, Guaranteed exactly when there is a container and each one's limits are positive and equal its requests |
| `Pods.BestEffortPointwise` | kube/pkg/quota/v1/evaluator/core/pods.go:380-443 | BestEffort exactly when no request or limit for cpu or memory is positive |
| `Pods.SumsCanHideDifferences` | kube/pkg/quota/v1/evaluator/core/pods.go:380-443 | without that validation two unequal containers balance out |
| `Pods.SumsDisagreeExactly` | kube/pkg/quota/v1/evaluator/core/pods.go:380-443 | for all container lists the class differs from the pointwise meaning exactly when all limits are set, both sums balance, and some request is above its limit |
| `PodUsage.PodUsageFunc` | kube/pkg/quota/v1/evaluator/core/pods.go:324-361 | a pod counts once, plus its effective compute while it is not terminal |
| `PodUsage.PodComputeUsageHelper` | kube/pkg/quota/v1/evaluator/core/pods.go:248-286 | under each name the amount that can be read off the name itself |
| `PodUsage.EffectiveAmount` | kube/pkg/quota/v1/evaluator/core/pods.go:336-358 | the effective amount is the app containers' sum or some init container's amount, and at least each of them; a name is there when some container has it |
| `PodUsage.UsageAccepted` | kube/pkg/quota/v1/evaluator/core/pods.go:169-183 | every name a pod charges is a name its evaluator measures |
| `PodUsage.ExtendedStaysExtended` | kube/pkg/quota/v1/evaluator/core/pods.go:75-93 | a prefixed extended resource is never mistaken for a native name |
| `PodUsage.UsageNeverGrows` | kube/pkg/quota/v1/evaluator/core/pods.go:511-528 | as time passes a pod is never charged more |
| `PodUsage.PodCharges` | kube/pkg/quota/v1/evaluator/core/pods.go:324-361 | a failed, succeeded or overdue pod counts as an object only; any other pod also for what its requests and limits amount to, name by name |
| `PodUsage.FixedAmounts` | kube/pkg/quota/v1/evaluator/core/pods.go:248-271 | cpu, memory and ephemeral storage count by request under two names and by limit under one, and every pod once |
| `PodUsage.PrefixedAmounts` | kube/pkg/quota/v1/evaluator/core/pods.go:272-284 | huge pages count by request under two names, extended resources by request under the prefixed name |
| `PodUsage.ExtendedExactly` | kube/pkg/quota/v1/evaluator/core/pods.go:75-93 | which names are extended resources, for containers and for quotas |
| `PodUsage.PodAcceptsExactly` | kube/pkg/quota/v1/evaluator/core/pods.go:169-183 | the names by which a quota can limit pods |
| `PodUsage.ConstraintsExactly` | kube/pkg/quota/v1/evaluator/core/pods.go:125-147 | a quota on cpu or memory obliges every container to request it, one on their limits to limit it, and other names oblige nobody |
| `PodUsage.ScopeSelects` | kube/pkg/quota/v1/evaluator/core/pods.go:300-320 | Terminating selects the pods with a deadline that is not negative, NotTerminating the others, the best-effort scopes by quality of service, unknown scopes none |
| `PodUsage.PriorityClassSelects` | kube/pkg/quota/v1/evaluator/core/pods.go:452-509 | the priority class by the pod's class name, operator by operator, and which selectors are errors |
| `PodScopes.QuotaSelectsPods` | kube/pkg/quota/v1/generic/evaluator.go:148-166 | which pods admission holds a quota against, scope by scope and selector by selector |
| `PodScopes.PodSkippedExactly` | kube/pkg/quota/v1/generic/evaluator.go:148-166 | without a scope error a quota is skipped exactly when the pod is out of scope or it limits nothing of pods |
| `PodUsage.BestEffortScope` | kube/pkg/quota/v1/evaluator/core/pods.go:363-365 | the best-effort scope is the best-effort class |
| `CoreEvaluators.DefaultEvaluatorsValid` | kube/pkg/quota/v1/evaluator/core/registry.go:33-46 | every registered evaluator handles creates and meets the interface obligations |
| `CoreEvaluators.PodValid` | kube/pkg/quota/v1/evaluator/core/pods.go:115-229 | the pod evaluator meets the interface obligations |
| `CoreEvaluators.ClaimValid` | kube/pkg/quota/v1/evaluator/core/persistent_volume_claims.go:72-190 | the claim evaluator meets them, also for names by storage class |
| `CoreEvaluators.ClaimMatchingResources` | kube/pkg/quota/v1/evaluator/core/persistent_volume_claims.go:118-141 | exactly the plain names and the names with a storage class suffix |
| `CoreEvaluators.ClaimUsageFunc` | kube/pkg/quota/v1/evaluator/core/persistent_volume_claims.go:158-185 | a claim and its storage count under the plain names and under the claim's class |
| `CoreEvaluators.ClaimCharges` | kube/pkg/quota/v1/evaluator/core/persistent_volume_claims.go:143-185 | the charge of a claim, name by name; the class of the annotation comes before the one of the spec |
| `CoreEvaluators.ServiceCharges` | kube/pkg/quota/v1/evaluator/core/services.go:104-128 | the charge of a service, name by name and type by type |
| `CoreEvaluators.ObjectCountMeans` | kube/pkg/quota/v1/generic/evaluator.go:243-296 | one per object under the count of its kind and its alias, charged on create, in no scope |
| `CoreEvaluators.HandlesExactly` | kube/pkg/quota/v1/evaluator/core/pods.go:155-161 | pods are charged on create, services and claims also on update; and by which names |
| `CoreEvaluators.ServiceUsageFunc` | kube/pkg/quota/v1/evaluator/core/services.go:104-128 | node ports and load balancers by type, counts always |
| `CoreEvaluators.UnnoticedServiceUpdatesExactly` | pkg/manager/quota/controller/monitor.go:134-138 | an update changes a service's charge without asking for a recount exactly when a node port or load balancer service keeps its type and changes the number of its ports |
| `Locks.LockFactory.GetLock` | pkg/util/locks.go:38-55 | one lock per key, other keys keep theirs |
| `Locks.OneLockPerKey` | pkg/util/locks.go:38-63 | racing callers hold the same lock exactly when they asked for the same key |
| `Locks.LockFactory.LockAquisition` | pkg/manager/quota/admission.go:103-112 | takes distinct locks of the quotas in name order, all of them or up to the first one that another batch holds |
| `Locks.LockFactory.Release` | pkg/manager/quota/admission.go:114-118 | gives back every lock that was taken |
| `Locks.SortedNames` | pkg/manager/quota/admission.go:106-107 | the names are taken in strictly increasing order, each quota's name once |
| `Locks.NoDeadlock` | pkg/manager/quota/admission.go:103-119 | in every reachable state with an unfinished batch some batch can proceed |
| `Locks.StepsAreCounted` | pkg/manager/quota/admission.go:103-119 | in every run the batches that have begun take exactly as many steps as are left to them: each lock taken, the check, each lock given back |
| `Locks.EveryBatchFinishes` | pkg/manager/quota/admission.go:103-119 | unless new batches begin, after exactly that many steps every batch is done, and until then some batch can make one |
| `Locks.SharedQuotaExcludes` | pkg/manager/quota/admission.go:103-119 | two batches that share a quota never check it at the same time |
| `Monitors.QuotaMonitor.SyncMonitors` | pkg/manager/quota/controller/monitor.go:181-234 | monitors exactly the wanted resources, keeps running ones, closes exactly the channels of dropped ones |
| `Monitors.QuotaMonitor.Divide` | pkg/manager/quota/controller/monitor.go:192-222 | what stays or is new, what is left over, and which kinds get an evaluator |
| `Monitors.QuotaMonitor.StartMonitors` | pkg/manager/quota/controller/monitor.go:241-264 | while running every current monitor is started and started ones keep their channel |
| `Monitors.QuotaMonitor.Run` | pkg/manager/quota/controller/monitor.go:290-301 | makes starting possible and starts what is there |
| `Monitors.ChannelsKept` | pkg/manager/quota/controller/monitor.go:181-264 | what every method keeps: no stop channel is closed twice or shared, and one is open exactly as long as a current monitor has it |
| `Rules.RuleAllows` | pkg/authorization/rbac/authorizer.go:117-132 | what a rule allows |
| `Rules.ListMatches` | kube/pkg/apis/rbac/v1/evaluation_helpers.go:28-52 | the star or the name is listed |
| `Rules.ResourceMatches` | kube/pkg/apis/rbac/v1/evaluation_helpers.go:54-80 | the star, the combined name, or the wildcard for the subresource, although tested by length, prefix and suffix |
| `Rules.ResourceNameMatches` | kube/pkg/apis/rbac/v1/evaluation_helpers.go:82-94 | no names or the name is listed |
| `Rules.NonResourceURLMatches` | kube/pkg/apis/rbac/v1/evaluation_helpers.go:96-110 | the star, the path, or a prefix before trailing stars |
| `PolicyComparator.Covers` | kube/pkg/registry/rbac/validation/policy_comparator.go:24-51 | returns exactly the atoms no owner rule covers |
| `PolicyComparator.CoversAllMeans` | kube/pkg/registry/rbac/validation/policy_comparator.go:24-51 | covered exactly when every atom of every servant rule is covered by a single owner rule |
| `PolicyComparator.BreakdownRule` | kube/pkg/registry/rbac/validation/policy_comparator.go:55-81 | the list of atoms, in order |
| `PolicyComparator.AtomsAre` | kube/pkg/registry/rbac/validation/policy_comparator.go:55-81 | the atoms are all combinations of the rule's parts and nothing else |
| `PolicyComparator.BreakdownMeans` | kube/pkg/registry/rbac/validation/policy_comparator.go:55-81 | breaking a rule down changes nothing about what is allowed |
| `PolicyComparator.RuleCoversSub` | kube/pkg/registry/rbac/validation/policy_comparator.go:155-170 | an owner rule covers an atom in each of its five parts |
| `PolicyComparator.ResourceCoversAll` | kube/pkg/registry/rbac/validation/policy_comparator.go:105-128 | the star, or each resource by name or by wildcard for its subresource |
| `PolicyComparator.NonResourceURLsCoversAll` | kube/pkg/registry/rbac/validation/policy_comparator.go:130-151 | each URL is covered by some owner URL |
| `PolicyComparator.HasEvery` | kube/pkg/registry/rbac/validation/policy_comparator.go:92-103 | every name is in the owning list |
| `Coverage.CoversSound` | kube/pkg/registry/rbac/validation/policy_comparator.go:24-170 | covered servant rules allow no proper request that the owner rules do not allow |
| `Coverage.CoversExactly` | kube/pkg/registry/rbac/validation/policy_comparator.go:24-170 | for all rules: covered exactly when every proper request a servant rule allows is allowed by an owner rule (for a URL, one without resource names) and every resource name nobody can ask for is covered too |
| `Coverage.TrailingSlashUncovered` | kube/pkg/registry/rbac/validation/policy_comparator.go:105-128 | a name ending right after its slash is never asked for, and covered exactly by an owner rule without resource names that has its verb, its group and a star, the same name or the bare wildcard |
| `Coverage.NamedUrlRuleUncovered` | kube/pkg/registry/rbac/validation/policy_comparator.go:161-167 | a URL owner rule with resource names allows the same but does not cover |
| `PolicyCompact.CompactRules` | kube/pkg/registry/rbac/validation/policy_compact.go:31-58 | same requests allowed, no more rules, no two simple rules with one key |
| `PolicyCompact.IsSimpleResourceRule` | kube/pkg/registry/rbac/validation/policy_compact.go:61-86 | the key of a rule with one group, one resource, at most one name and a nil URL list |
| `PolicyCompact.MergeVerbs` | kube/pkg/registry/rbac/validation/policy_compact.go:38-44 | joining the verbs of two rules with one key allows what either allowed |
| `Resolver.Authorize` | pkg/authorization/rbac/authorizer.go:63-115 | allowed exactly when a cluster role binding, or a role binding of the namespace, grants the request, indexed or not; the reason names such a binding of the cluster and the subject; a denial reports an error exactly when a list or an applicable binding's role could not be read |
| `Resolver.ListBindings` | pkg/authorization/rbac/resolver.go:137-211 | with the index or without, every applicable binding of the namespace is listed and nothing from elsewhere |
| `Resolver.VisitBindings` | pkg/authorization/rbac/resolver.go:84-134 | stops at the first allowing rule and counts the applicable bindings before it whose role cannot be resolved |
| `Resolver.IndexFindsApplicable` | pkg/manager/controllers/controller_indices.go:36-69 | the index finds a binding under a key of the user exactly when the binding applies |
| `Resolver.SubjectMeans` | pkg/authorization/rbac/resolver.go:248-305 | a user subject is the user of its name, a group subject the group's members, a service account subject the account of its name in its own namespace or else the binding's, any other subject nobody |
| `Resolver.GrantMeans` | pkg/authorization/rbac/resolver.go:84-134 | a binding grants through one of its subjects and one rule of its role, found in the binding's namespace or as a cluster role; otherwise it is unresolved |
| `Resolver.KeyMeansApplies` | pkg/authorization/rbac/resolver.go:248-305 | a subject applies exactly when its key is one of the user's keys |
| `Resolver.IndexBySubjects` | pkg/manager/controllers/controller_indices.go:36-49 | the nonempty keys of all subjects |
| `Resolver.AppliesTo` | pkg/authorization/rbac/resolver.go:239-246 | finds a subject that applies, if any |
| `Resolver.AuthorizingVisitor.Visit` | pkg/authorization/rbac/authorizer.go:51-61 | stops exactly on an allowing rule and records its source |
| `Resolver.IsUserPartOfAccount` | pkg/apiserver/registry/util/helper.go:12-26 | part of an account exactly when a cluster-wide binding to its subjects would apply |
| `Parameters.ParseString` | pkg/util/parameters/parameters.go:18-70 | a whole expression is decoded, otherwise variables are replaced and escapes shortened; an error of replace is an error |
| `Parameters.AssembleIsSubstitute` | pkg/util/parameters/parameters.go:36-67 | finding all matches first and copying around them is reading from left to right |
| `Parameters.ExpressionExactly` | pkg/util/parameters/parameters.go:11-12 | only one doubly braced name from end to end is an expression |
| `Parameters.DecodedExactly` | pkg/util/parameters/parameters.go:18-33 | a whole expression is decoded or fails with replace, and nothing else is ever decoded |
| `Parameters.VariableReplaced` | pkg/util/parameters/parameters.go:36-67 | after text without a dollar a variable is replaced by name or is an error, one with more dollars loses one, and the rest is read alike |
| `Parameters.EscapeRoundTrip` | pkg/util/parameters/parameters.go:18-70 | escaping every variable and parsing gives any string back without asking replace |
| `Parameters.UnknownUnchangedExactly` | pkg/manager/controllers/templateinstance_controller.go:289-314 | with unknown names a string is unchanged exactly when it is no expression and escapes nothing |

## Left out

- Queue shutdown, timers, the ten-second timeout of `Evaluate` and its fallback evaluator for unknown kinds: plumbing around the modelled parts.
- Eviction from the accessor's bounded cache: the cache is unbounded, and what a lost entry can do is shown for any stale base.
- The configuration of limited resources in `CheckRequest`: kiosk passes an empty one.
- The separate scope-matching call of `CheckRequest` appears only through its error, which is the one of the match itself.
- Error texts, log lines and quantity formatting: results carry a reason instead.
- The syntax checks for qualified names and label values are parameters; the libraries are not part of this model.
- Reading the replaced text of an expression as YAML: the result carries the text.
- Object metadata other than name, version, namespace and account.
- Time within one run of the ledger: the clock a pod's usage depends on stands still; that time only lowers usage is proved apart.
- A version counts the writes of one object; the store's resource versions only grow, which is all that is used.
- What starts a resync: its queues, the replenishment callback and the discovery loop; a resync is a step that can happen at any time.
- In the ledger the writes of a batch, of all its passes and to all its quotas, are one step; that no other batch works on the same quotas meanwhile is `Locks.SharedQuotaExcludes`, a resync between them is like one that misses an object on its way, and that an accepted write was computed from the stored object is `WriteProtocol.WriteIsExact`.
- LedgerRuns.LiveWithinUsedWithinHard: does not cover batches that forget a refusal, because what they let through is then not stored (`RetryRuns.RetryForgetsADenial`), nor edits of limits and scopes, because they change what counts before any resync has caught up; `WriteProtocol` has them.
- Shutting down the monitors, informers and their synchronization; watching an object kind either works or does not.
- Monitors are values in a map, not shared objects: every monitor is held by one map entry, and sharing is not modelled.
- QuotaEvaluator.Accessor: the environment of the batch methods, whose answers are fixed in advance; the accessor itself is `AccountQuotaAccessor.Accessor`.
- Helm, patches, conversions, account validation, space limits and subject synchronization: they would add easy members only.
