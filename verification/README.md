# Fulfillment execution, verified

A Dafny model of a pull-dispatch task service: stations claim tasks under leases, renew and complete them, a sweep frees
what ran out, and everything that happens is published through a transactional outbox into an analytics read model. The
service's promises are distributed ones, so most main results quantify over whole runs: every interleaving of racing
claimers, every sequence of relay passes with failures and crashes, every schedule of requests that share an
idempotency key, every delivery sequence with duplicates.

`dafny verify dfyconfig.toml` checks the project.

## How it is laid out

Code that changes state is a class or a method proved against a function of the old state; what the system promises is
then proved about those functions, as invariants over runs and as lemmas.

| file | what it holds |
|---|---|
| `Task.dfy`, `TaskRepo.dfy`, `TaskUseCases.dfy` | the task aggregate, the in-memory store beside its SQL counterpart, and the use cases over them |
| `ClaimProtocol.dfy`, `ClaimSafety.dfy`, `ClaimLeases.dfy`, `ClaimRace.dfy` | racing `ClaimNext` calls as a state machine, what every history satisfies, how long a lease protects, and how a race ends |
| `ClaimCalls.dfy` | the use cases' own calls carry out the steps of those runs |
| `SweepTransparency.dfy` | runs with and without the lease sweep |
| `Interleaving.dfy` | folds over streams, redeliveries, and merges of partitions |
| `OutboxPublisher.dfy`, `OutboxRelay.dfy`, `OutboxVisibility.dfy` | what the publisher enqueues; the relay, with failed and ambiguous sends, failed marks, crashes and lost commits; rows that become visible in any order |
| `MemoryStore.dfy`, `PostgresProjection.dfy`, `ThroughputLaws.dfy` | the two throughput read models and how they relate |
| `AnalyticsPipeline.dfy`, `MessageProjection.dfy`, `PartitionedPipeline.dfy` | the analytics consumer, which message moves which row, and the pipeline from outbox to read model, over one partition and over several |
| `UnitOfWork.dfy`, `Idempotency.dfy` | nested transaction scopes, and the idempotency-key middleware |
| `WorkReleased.dfy` | claim-once, retry and dead-letter of the WorkReleased consumer |
| `Rebin.dfy` | the fan-in of an order's lines and its PACK task |
| `PathCatalogue.dfy`, `CatalogueConsumer.dfy` | longest-prefix lookup, and the replayed catalogue with its readiness flag |
| `PackageScan.dfy`, `SealPackage.dfy`, `SealRace.dfy` | hazard-class segregation, sealing one package per task, and racing calls that seal |

## What turned out to need a condition

Each of these is what the code does; the model keeps it, and a lemma states exactly when the expected property holds.

- The two read models agree only while no claim is used by two completions (`ThroughputLaws.StoresAgreeExactlyWhen`),
  and only over claims whose joined keys differ
  (`ThroughputLaws.KeysMustBeApart`): two (type, station) pairs can share a key exactly when one's stem begins with the
  other's (`ThroughputLaws.StemsCollideExactlyWhen`), which names without the separator rule out.
- The analytics consumer marks before it applies, and its reader commits past errors. A delivered event counts exactly
  when the first delivery that recorded its id was told so and its apply took effect
  (`AnalyticsPipeline.CountsExactlyWhen`): a failed apply loses it, and so does a mark that errs after recording the id,
  or one that errs and is never delivered again.
- A joined unit of work does not roll back on its own error; under the idempotency middleware an encoding error commits
  the aggregate without all its events, while a statement error still rolls everything back
  (`Scopes.SaveIffPublishUnderMiddleware`).
- The WorkReleased consumer creates a second task exactly when a commit errs after taking effect and a retry commits
  again (`WorkReleased.DuplicatesExactlyWhen`). It loses an event when no claiming delivery leaves a task and no delivery
  that gives up gets its letter stored (`WorkReleased.UnaccountedExactlyWhen`): by a claim blocked by its own ambiguous
  record, by a process that dies after claiming, or by a missing or failing dead-letter sink. Redelivery then helps only
  if its claim is never answered (`WorkReleased.RedeliveryHelpsExactlyWhen`).
- Without a transactional scope, a failure to announce the completing arrival or to save the PACK task strands the order
  for good (`Rebin.StrandedExactlyWhen`, `Rebin.StuckForGood`).
- The catalogue lookup depends on the order of the declarations exactly when two different ones are equally long answers
  (`PathCatalogue.OrderFreeExactlyWhenUnambiguous`); the replayed catalogue walks a map, so there the order is random.
- The replayed cache is independent of how partitions interleave exactly when the partitions that mention a path end
  alike (`CatalogueReplay.OrderFreeExactlyWhenEndingsAgree`), and its readiness flag is exact exactly when the offset
  just below each watermark holds a message (`CatalogueReplay.FlagExactlyWhenSlotsTaken`).
- A sealed package guarantees the segregation of recorded classes. Items whose lookup gave no class ride along, so the
  goods themselves are compatible exactly when no clashing pair contains such an item
  (`Sealing.TrulyCompatibleExactlyWhen`).
- A completion, renewal or release that is a find and a later blind save is safe exactly when the row found at the save
  still allows it (`ClaimSafety.BlindSaveLawfulExactlyWhen`); even an unchanged row does not if the lease has run out
  meanwhile (`ClaimSafety.UnchangedRowIsSafe`).
- Outbox ids order what the sink sees only as far as visibility does: an older row that commits late is overtaken
  (`OutboxVisibility.LateCommitOvertaken`), rows of one key committed one after the other are not
  (`OutboxVisibility.KeyOrder`).
- Sealing looks at the lease's owner and not at its expiry, so it is the one caller that can tell whether the sweep has
  run (`Sealing.SealNoticesSweep`).
- A renewal replaces the lease, also by a shorter one: a lease protects its holder to its expiry unless the holder's own
  renewal ends sooner (`ClaimLeases.LeaseProtects`, `ClaimLeases.RenewalCutsExactlyWhen`).
- One package per task holds under races because of the unique index alone; over the memory store two calls that both
  look before either saves seal the task twice (`SealingRace.TwoPackagesExactlyWhen`). The comment on the migration
  speaks of `ON CONFLICT DO NOTHING`; the statement updates on a conflicting id and leaves a conflicting task id to the
  index, and the model follows the statement.
- The memory `SaveClaim` stores a row that was not there, the SQL `UPDATE` does not
  (`TaskStore.MemoryCasRefinesSql` says when the two agree).

## Model

| member | source | states |
|---|---|---|
| Tasks.Task.Claim | internal/domain/task/task.go:190-205 | claiming: refused on completed, held or beyond the station's capabilities; a due lease is given up first, also when the claim is then refused |
| Tasks.Task.RenewLease | internal/domain/task/task.go:210-228 | only the owner of an unexpired lease extends it; an expired lease falls back to Pending |
| Tasks.Task.Complete | internal/domain/task/task.go:232-250 | only the owner of an unexpired lease completes; an expired lease falls back to Pending |
| Tasks.Task.ExpireLeaseIfDue | internal/domain/task/task.go:179-186 | a due lease, and no other, is given up |
| TaskStore.TaskRepo.Save | internal/adapters/outbound/memory/task_repo.go:52-59 | the row is stored and its snapshot keeps agreeing with it |
| TaskStore.TaskRepo.SaveClaim | internal/adapters/outbound/memory/task_repo.go:61-70 | the compare-and-set on the persisted snapshot; in every reachable store it is a test of the stored row |
| TaskStore.TaskRepo.FindById | internal/adapters/outbound/memory/task_repo.go:72-80 | a fresh copy of the stored row, or nothing |
| TaskStore.TaskRepo.FindClaimableByType | internal/adapters/outbound/memory/task_repo.go:82-99 | fresh copies of exactly the available rows of the type, earliest CPT first |
| TaskStore.TaskRepo.FindAllClaimed | internal/adapters/outbound/memory/task_repo.go:101-114 | fresh copies of exactly the claimed rows |
| TaskStore.MemoryCasRefinesSql | internal/adapters/outbound/postgres/task_repo.go:86-101 | the memory CAS and the SQL `UPDATE` give the same verdict and the same table if and only if the row exists with the same fixed columns (or is not available) |
| TaskStore.SqlRoundTrip | internal/adapters/outbound/postgres/task_repo.go:156-188 | storing a row in its nullable columns and reading it back changes nothing |
| TaskUseCases.TaskService.ClaimNext | internal/application/usecases/claim_next.go:33-72 | alone, it tries to claim a task of least CPT among all available tasks the station can do, and reports that there is none exactly when there is none; a failed read changes nothing, and its one scope decides what of the claim and its event stays; the lease runs for the configured duration, or five minutes when that is not positive |
| TaskUseCases.SomePickExists | internal/application/usecases/claim_next.go:42-72 | what that choice promises can always be met: some task may be picked, or nothing fits |
| TaskUseCases.TaskService.PersistClaim | internal/application/usecases/claim_next.go:81-92 | the claim is announced exactly when the compare-and-set won and its scope lands; a lost one has nothing to announce |
| TaskUseCases.TaskService.CreateTask | internal/application/usecases/create_task.go:29-42 | the new task is stored Pending and announced, or neither, or as the failing scope leaves it |
| TaskUseCases.TaskService.RenewLease | internal/application/usecases/renew_lease.go:20-38 | an accepted renewal stores a lease of the configured duration, or five minutes, from its own instant; a refused one stores nothing, although the private copy may have changed; a failed read or save is reported |
| TaskUseCases.TaskService.CompleteTask | internal/application/usecases/complete_task.go:24-50 | a refused completion stores and announces nothing; a failing scope rolls both back unless it commits in spite of the error |
| TaskUseCases.TaskService.ExpireLeases | internal/application/usecases/expire_leases.go:26-50 | without an error exactly the due leases are freed, each announced once and counted; the first failing scope stops the sweep, with the count of those freed before it |
| ClaimProtocol.TryEffect | internal/application/usecases/claim_next.go:55-72 | one turn of the loop wins only a row that is Pending or whose current lease has run out by the clock, whatever the call read before |
| ClaimProtocol.HistoryStep | internal/application/usecases/claim_next.go:55-92 | every step of every interleaving keeps the store and its history in agreement and the history lawful |
| ClaimProtocol.CallsStep | internal/application/usecases/claim_next.go:42-72 | every step keeps all calls in flight in order: what they passed over was unclaimable at their own compare-and-set |
| ClaimSafety.NoDoubleAssignment | internal/adapters/outbound/memory/task_repo.go:61-70 | two calls that won the same task did so with the earlier lease, as last renewed, expired in between |
| ClaimSafety.WinsAreSeparated | internal/domain/task/task.go:190-205 | between two wins of a task the last lease set on it runs out |
| ClaimSafety.CompletionIsFinal | internal/domain/task/task.go:232-250 | no entry about a task follows its completion |
| ClaimSafety.CompletedRowStays | internal/domain/task/task.go:190-193 | no step from a reachable state changes a Completed row |
| ClaimSafety.EarliestDeadlineFirst | internal/application/usecases/claim_next.go:42-72 | under races, every fitting candidate of earlier CPT that a winner skipped, and every one a loser skipped, was unclaimable at its own compare-and-set |
| ClaimSafety.SqlTakesSameTurn | internal/adapters/outbound/postgres/task_repo.go:86-101 | in every reachable state the SQL update takes the turn the memory store takes |
| ClaimSafety.BlindSaveLawfulExactlyWhen | internal/application/usecases/complete_task.go:24-46 | a find and a later blind save of a completion, renewal or release keep the history lawful exactly when the row found at the save still allows the operation |
| ClaimSafety.UnchangedRowIsSafe | internal/application/usecases/renew_lease.go:20-38 | a save that finds the row it read is lawful: always for a release, for a renewal or completion exactly while the lease still runs at the save |
| ClaimSafety.StaleSaveReopens | internal/application/usecases/expire_leases.go:35-47 | and otherwise not: a blind save of a stale copy puts a completed task back |
| ClaimLeases.WinLasts | internal/application/usecases/claim_next.go:42-72 | in every run a call that wins gets a lease of its configured duration, or five minutes, counted from the instant the call began, whenever its compare-and-set came |
| ClaimLeases.RenewalLasts | internal/application/usecases/renew_lease.go:20-38 | from every reachable state a renewal by the holder of a running lease lasts its configured duration, or five minutes, from its own instant; any other changes nothing |
| ClaimLeases.LeaseProtects | internal/domain/task/task.go:179-228 | in every lawful history, before a lease set by a win or a renewal runs out, no call wins the task and no release frees it, unless its own holder renewed it to an earlier expiry |
| ClaimLeases.WinnerKeepsTask | internal/domain/task/task.go:179-228 | so in every run in which renewals ask for no less than the win, the winner keeps the task for the whole of its lease |
| ClaimLeases.RenewalCutsExactlyWhen | internal/domain/task/task.go:210-228 | a renewal gives up the rest of the old lease exactly when its own duration runs out sooner |
| ClaimCalls.CreateStep | internal/application/usecases/create_task.go:29-42 | a created task is the protocol's step |
| ClaimCalls.ReadStep | internal/application/usecases/claim_next.go:42-46 | what the repository lists is a candidate list the protocol allows |
| ClaimCalls.TryStep | internal/application/usecases/claim_next.go:55-72 | the private claim and the compare-and-set leave the rows of the protocol's turn, and win when it wins |
| ClaimCalls.RenewStepCall | internal/application/usecases/renew_lease.go:20-38 | a renewal leaves the rows of the protocol's step, and is accepted when that is recorded |
| ClaimCalls.CompleteStepCall | internal/application/usecases/complete_task.go:24-50 | the same for a completion |
| ClaimCalls.ReleaseStep | internal/application/usecases/expire_leases.go:35-47 | the same for the sweep's treatment of one task |
| ClaimRace.RaceOutcome | internal/application/usecases/claim_next.go:55-72 | N stations race for M pending tasks with no lease expiring: exactly min(N, M) win, each another task, and nobody is sent away while a task is unclaimed |
| SweepTransparency.SweepsAreUnobservable | internal/application/usecases/expire_leases.go:26-50 | taking every sweep out of a run changes no other call's result, and the stores end the same once due leases are given up |
| SweepTransparency.SweepPlacementIsIrrelevant | internal/domain/task/task.go:153-250 | the same calls with sweeps put anywhere else get the same results |
| ClaimCalls.CarryOut | internal/application/usecases/expire_leases.go:26-50 | every call of such runs, carried out by the use cases, reports a result the run allows and leaves the run's rows |
| OutboxRelay.OutboxRelay.Publish | internal/adapters/outbound/postgres/outbox_publisher.go:71-95 | one unpublished row per message, in order, up to the first encoder, header or insert error |
| Outbox.PublishesExactlyWhen | internal/adapters/outbound/postgres/outbox_publisher.go:71-95 | publishing reports success exactly when every encoder encodes and every message is stored |
| OutboxRelay.OutboxRelay.RelayOnce | internal/adapters/outbound/postgres/outbox_relay.go:104-128 | one pass: what commits and what the sink has, under each failure |
| OutboxRelay.OutboxRelay.PublishBatch | internal/adapters/outbound/postgres/outbox_relay.go:171-188 | rows are sent and marked one by one up to the first that cannot be |
| OutboxRelay.OutboxRelay.ClaimBatch | internal/adapters/outbound/postgres/outbox_relay.go:134-165 | the oldest unpublished rows, in id order |
| OutboxRelay.OutboxRelay.FailRow | internal/adapters/outbound/postgres/outbox_relay.go:190-200 | after a failed send exactly the rows sent before it become published, the failed one keeps its error and stays claimable, all others are untouched; or, if the note or the commit fails, the table is as before the pass |
| OutboxRelay.PassKeepsInv | internal/adapters/outbound/postgres/outbox_relay.go:104-200 | any pass keeps: published rows are a growing prefix, marked means sent, first occurrences at the sink are in id order |
| OutboxRelay.DrainsInOrder | internal/adapters/outbound/postgres/outbox_relay.go:96-200 | so over every run of publishing and passes |
| OutboxRelay.CleanPassPublishes | internal/adapters/outbound/postgres/outbox_relay.go:104-130 | after any failures a clean pass publishes the next batch in full |
| OutboxVisibility.OlderSeenFirst | internal/adapters/outbound/postgres/outbox_relay.go:134-188 | with rows becoming visible in any order: of two rows, the older visible before the younger is, the sink sees the older first, whatever the passes meet |
| OutboxVisibility.KeyOrder | internal/adapters/outbound/postgres/outbox_relay.go:96-104 | the order the relay promises: a row committed before the next one of its key is inserted is seen first, whatever else commits when |
| OutboxVisibility.LateCommitOvertaken | internal/adapters/outbound/postgres/outbox_relay.go:134-165 | without that the ids decide nothing: a younger row that commits first is sent first |
| Throughput.MemoryStore.ApplyTaskClaimed | internal/adapters/outbound/analyticsstore/memory_store.go:89-98 | a new id remembers the claim and moves no counter |
| Throughput.MemoryStore.ApplyTaskCompleted | internal/adapters/outbound/analyticsstore/memory_store.go:102-116 | a new id counts one completion, with the claim's duration if one is remembered; the claim stays |
| Throughput.MemoryStore.ApplyLeaseExpired | internal/adapters/outbound/analyticsstore/memory_store.go:118-127 | a new id counts one expiry |
| Throughput.MemoryStore.ApplyWeightDiscrepancy | internal/adapters/outbound/analyticsstore/memory_store.go:131-140 | a new id counts one divert |
| Throughput.MemoryStore.ApplyPackageManifested | internal/adapters/outbound/analyticsstore/memory_store.go:146-161 | a new id counts one package, on time or late |
| Throughput.MemoryStore.QueryRows | internal/adapters/outbound/analyticsstore/memory_store.go:165-195 | exactly the rows of the window, path and station asked for, each once, with its totals and its average in seconds |
| Throughput.MemoryStore.FreshnessLag | internal/adapters/outbound/analyticsstore/memory_store.go:200-212 | the lag behind the latest event, never negative |
| Throughput.WindowsPartition | internal/adapters/outbound/analyticsstore/memory_store.go:165-180 | neighbouring query windows split the rows of the joined window |
| Projection.PostgresProjection.Apply | internal/adapters/outbound/analyticsstore/postgres_projection.go:46-234 | one transaction per event: its whole effect with its id, or nothing |
| ThroughputLaws.RedeliveriesVanish | internal/adapters/outbound/analyticsstore/memory_store.go:67-75 | both stores end as if every event id had come once |
| ThroughputLaws.SameHourExactlyWhen | internal/adapters/outbound/analyticsstore/memory_store.go:60-62 | two instants share a row exactly when they lie in the same UTC hour |
| ThroughputLaws.InHourExactlyWhen | internal/adapters/outbound/analyticsstore/memory_store.go:60-62 | an instant counts under an hour exactly when it lies within it |
| ThroughputLaws.OneRowPerHour | internal/adapters/outbound/analyticsstore/memory_store.go:165-195 | in both stores the query for one path, one station and one hour finds at most one row, which counts exactly the distinct events of that hour |
| ThroughputLaws.CountersCountIds | internal/adapters/outbound/analyticsstore/memory_store.go:102-161 | in every row, completions, lease expiries, diverts and the three manifest counters are the numbers of distinct event ids of their kind |
| ThroughputLaws.AveragesClaimToComplete | internal/adapters/outbound/analyticsstore/memory_store.go:102-195 | a row's average is over its completions with an earlier claim of the same joined key, of the time since the latest such claim |
| ThroughputLaws.OnTimePlusLate | internal/analytics/report/throughput.go:58-60 | on time plus late is manifested, in every row after any events |
| ThroughputLaws.TotalIsConserved | internal/adapters/outbound/analyticsstore/memory_store.go:102-116 | completions over all rows are the distinct completion ids |
| ThroughputLaws.StoresAgreeExactlyWhen | internal/adapters/outbound/analyticsstore/postgres_projection.go:83-133 | on streams whose different claims have different joined keys, the memory store and the Postgres projection hold the same rows if and only if no claim is used by two completions |
| ThroughputLaws.KeysMustBeApart | internal/adapters/outbound/analyticsstore/memory_store.go:56-58 | the stores agree on every stream without reuse over some claims if and only if no two of those claims share a joined key |
| ThroughputLaws.OnceMeansNoReuse | internal/adapters/outbound/analyticsstore/memory_store.go:102-116 | completing at most once per type, station and task is enough for that |
| ThroughputLaws.SameFreshness | internal/adapters/outbound/analyticsstore/postgres_report.go:78-95 | both report the same latest event |
| ThroughputLaws.StemsCollideExactlyWhen | internal/adapters/outbound/analyticsstore/memory_store.go:56-58 | two (type, station) pairs make one joined key for some tasks exactly when one stem, the type and the station each followed by the separator, begins with the other |
| ThroughputLaws.SameStemSameTask | internal/adapters/outbound/analyticsstore/memory_store.go:56-58 | for one type and station the joined key tells the tasks apart, whatever the names hold |
| ThroughputLaws.ClaimKeyInjective | internal/adapters/outbound/analyticsstore/memory_store.go:56-58 | in particular the joined key identifies a claim when type and station hold no separator |
| ThroughputLaws.JoinedKeysCollide | internal/adapters/outbound/analyticsstore/memory_store.go:102-116 | any two claims that share a key have a stream without reuse on which the two stores differ |
| AnalyticsPipeline.AnalyticsConsumer.HandleMessage | internal/adapters/inbound/kafka/analytics_consumer.go:156-205 | the id is marked before the event is applied, under every failure of either |
| MessageProjection.ProjectsByItsFields | internal/adapters/inbound/kafka/analytics_consumer.go:156-205 | a new message without a fault moves the row of its payload's path (SLAM for a divert), its station and the hour of its instant, by the counter of its type; an unresolved manifest moves nothing; the id is marked in every case |
| MessageProjection.OthersMoveNothing | internal/adapters/inbound/kafka/analytics_consumer.go:156-183 | undecodable data is marked and moves nothing; other types and non-events leave no trace |
| MessageProjection.RowsCountMessages | internal/adapters/inbound/kafka/analytics_consumer.go:156-205 | over any deliveries and faults each counter of a row is the number of distinct ids whose recording delivery landed with a message of its kind, path, station and hour, manifests only when resolved |
| AnalyticsPipeline.AtMostOnce | internal/adapters/inbound/kafka/analytics_consumer.go:156-205 | the read model is the fold of distinct events, each admitted once, whatever fails |
| AnalyticsPipeline.CountsExactlyWhen | internal/adapters/inbound/kafka/analytics_consumer.go:156-205 | an id is in the read model exactly when the first delivery that recorded it was told it is new, carried an event, and had its transaction take effect |
| AnalyticsPipeline.ExactlyOnceExactlyWhen | internal/adapters/inbound/kafka/analytics_consumer.go:97-205 | the read model folds distinct events, and every delivered event is among them if and only if each one's recording delivery landed so |
| AnalyticsPipeline.AdmittedAllCountExactlyWhen | internal/adapters/inbound/kafka/analytics_consumer.go:156-205 | every event past the gate counts if and only if no apply failed |
| AnalyticsPipeline.RewindsRepeat | internal/adapters/inbound/kafka/analytics_consumer.go:97-115 | reading the log with rewinds adds only repetitions |
| AnalyticsPipeline.EndToEnd | internal/adapters/outbound/postgres/outbox_relay.go:104-200 | outbox, relay, log with rewinds and consumer composed: the read model folds exactly those of the first n outbox rows whose recording delivery landed, each once; in outbox order if every mark answered or recorded, and all n if the consumer met no fault |
| AnalyticsPipeline.EitherStoreEndToEnd | internal/adapters/outbound/postgres/outbox_relay.go:104-200 | fed without a gate, either store ends as if each sent outbox row had come once, in outbox order |
| AnalyticsPipeline.PartitionOrderIsIrrelevant | internal/adapters/outbound/analyticsstore/postgres_projection.go:60-133 | with events keyed by task, the order in which partitions are read does not matter |
| PartitionedPipeline.EndToEndByPartition | internal/adapters/outbound/postgres/outbox_relay.go:104-200 | the pipeline over a topic keyed by task, each partition read in its own order with rewinds, partitions interleaved anyhow: the read model folds, in outbox order, exactly the rows read whose recording delivery landed; without consumer faults and with everything read, all rows sent |
| Interleaving.MergeOrderIsIrrelevant | internal/adapters/inbound/kafka/analytics_consumer.go:97-115 | two merges of the same partitions fold to the same state when events of different partitions commute |
| Scopes.UnitOfWork.Execute | internal/adapters/outbound/postgres/unit_of_work.go:63-91 | the owner commits or rolls back; a joined call leaves that to the owner |
| Scopes.AllOrNothing | internal/adapters/outbound/postgres/unit_of_work.go:63-91 | for every tree of scopes that propagates errors and panics: one transaction, and all writes or none |
| Scopes.NestedScopesJoin | internal/adapters/outbound/postgres/unit_of_work.go:63-66 | taking inner scopes away changes nothing |
| Scopes.Publishes | internal/adapters/outbound/postgres/outbox_publisher.go:71-95 | in a scope: what is enqueued before the first failure, and that exactly a statement error aborts the transaction |
| Scopes.SaveIffPublish | internal/application/usecases/unit_of_work.go:13-18 | on its own a use case saves exactly when it publishes, for every encoder, header, statement, begin and commit failure |
| Scopes.SaveIffPublishUnderMiddleware | internal/adapters/inbound/http/idempotency.go:210-268 | under the middleware a statement error still takes everything with it, and a use case that reported an error commits in part exactly when the error was an encoder's or a header's and the commit took effect |
| Scopes.MiddlewareCommitsExactlyWhen | internal/adapters/inbound/http/idempotency.go:210-258 | nothing commits exactly when the handler panicked, a statement failed or the commit did not take effect |
| Idempotency.Middleware.Serve | internal/adapters/inbound/http/idempotency.go:75-135 | one request in one go: its reply, and that exactly a first execution that answers, is recorded and commits leaves its key row with the handler's response and writes |
| Idempotency.Middleware.ReplayCached | internal/adapters/inbound/http/idempotency.go:149-200 | the answer to a retry |
| Idempotency.Middleware.RunFresh | internal/adapters/inbound/http/idempotency.go:210-268 | handle, record, commit, and only then reply; the handler's response and writes commit together or not at all |
| Idempotency.StepKeepsInv | internal/adapters/inbound/http/idempotency.go:20-74 | every database statement of every interleaving keeps the table in agreement with the committed executions |
| Idempotency.CommittedRowsCarryOutcomes | internal/adapters/inbound/http/idempotency.go:27-50 | no committed row lacks its outcome |
| Idempotency.OneExecutionPerKey | internal/adapters/inbound/http/idempotency.go:52-74 | exactly one handler execution has committed per key with a row, and none for any other key |
| Idempotency.WritesCommitWithTheResponse | internal/adapters/inbound/http/idempotency.go:210-258 | over every run a request whose execution committed has left exactly the domain writes, with exactly the response on its key, that its own handler gave in a sound transaction |
| Idempotency.NothingWithoutCommit | internal/adapters/inbound/http/idempotency.go:210-258 | and every other request has left none |
| Idempotency.ShownOnlyAfterCommit | internal/adapters/inbound/http/idempotency.go:256-268 | a response is shown only after the execution that gave it committed, and as the handler's own only to the request that ran it |
| Idempotency.SameAnswerForAll | internal/adapters/inbound/http/idempotency.go:149-200 | any two requests of a key that were answered had the same body and got the same response |
| Idempotency.RetryReads | internal/adapters/inbound/http/idempotency.go:149-200 | a retry gets the recorded response exactly when its body is the recorded one; the "no outcome" branch is never met |
| Idempotency.RecordsAreFinal | internal/adapters/inbound/http/idempotency.go:27-50 | a recorded key never changes |
| Idempotency.RollbacksLeaveNothing | internal/adapters/inbound/http/idempotency.go:210-258 | taking out requests whose execution did not commit leaves a run with the same database and the same replies: panics, lost commits and deaths leave no trace |
| Idempotency.NeverStuck | internal/adapters/inbound/http/idempotency.go:52-74 | a waiting request can always move on, or the one it waits for can |
| Idempotency.RequestsAreShort | internal/adapters/inbound/http/idempotency.go:75-135 | each request takes at most six steps |
| Idempotency.FaultFreeAnswers | internal/adapters/inbound/http/idempotency.go:75-135 | when nothing fails, one request per key is answered by its own execution and all others by replay or refusal |
| Idempotency.ServingAloneIsARun | internal/adapters/inbound/http/idempotency.go:75-268 | serving a request in one go is a run of the interleaved protocol |
| WorkReleased.Consumer.Run | internal/adapters/inbound/kafka/consumer.go:177-198 | every message is handled, over deaths and restarts, and every failure a living process sees is handed to the dead-letter path |
| WorkReleased.DeadLettersAreFailures | internal/adapters/inbound/kafka/consumer.go:177-230 | exactly the messages given up by a living process are handed over, in order, and exactly those whose sink stored them arrive |
| WorkReleased.SinksAreInvisible | internal/adapters/inbound/kafka/consumer.go:207-230 | a missing or failing dead-letter sink changes nothing else in the run |
| WorkReleased.Consumer.HandleMessageWithRetry | internal/adapters/inbound/kafka/consumer.go:297-321 | claim once, then up to three attempts, fewer when the context is cancelled |
| WorkReleased.Consumer.MarkProcessedWithRetry | internal/adapters/inbound/kafka/consumer.go:329-339 | the claim's own attempts, up to a limit |
| WorkReleased.Consumer.HandleClaimedEvent | internal/adapters/inbound/kafka/consumer.go:312-368 | the attempts at the work, up to a limit, and the tasks they leave |
| WorkReleased.SucceedsExactlyWhen | internal/adapters/inbound/kafka/consumer.go:312-320 | for any limit on the attempts: it succeeds exactly when one of them commits |
| WorkReleased.FirstDeliveryEnds | internal/adapters/inbound/kafka/consumer.go:297-339 | how a first delivery ends, in numbers: three claims and three attempts at the work, fewer only by cancellation or death, one at least |
| WorkReleased.OneTaskOrError | internal/adapters/inbound/kafka/consumer.go:349-368 | for any limit, with no ambiguous commit: one task and no error, or an error and no task |
| WorkReleased.DuplicatesExactlyWhen | internal/adapters/inbound/kafka/consumer.go:312-368 | for any limit: one event gets two tasks exactly when a commit errs after taking effect and a retry that is reached commits again |
| WorkReleased.LostExactlyWhen | internal/adapters/inbound/kafka/consumer.go:303-311 | a first delivery ends with no error and no task exactly when an attempt recorded the id and erred before the first answer |
| WorkReleased.ClaimedAtMostOnce | internal/adapters/outbound/memory/processed_events_repo.go:20-28 | over any deliveries an event is claimed at most once |
| WorkReleased.TasksComeFromTheClaim | internal/adapters/inbound/kafka/consumer.go:297-321 | an event's tasks are exactly those of its one claiming delivery |
| WorkReleased.TasksExactlyWhen | internal/adapters/inbound/kafka/consumer.go:297-368 | over any deliveries: exactly when an event gets a task, and exactly when it gets two |
| WorkReleased.AtMostOneTask | internal/adapters/inbound/kafka/consumer.go:297-368 | with no ambiguous commit at most one task per event, and one exactly when it was claimed and an attempt committed |
| WorkReleased.ClaimsExactlyWhen | internal/adapters/inbound/kafka/consumer.go:303-311 | a delivery claims its event exactly when it is the first to record the id and is told so by the attempt that did |
| WorkReleased.GivesUpExactlyWhen | internal/adapters/inbound/kafka/consumer.go:297-321 | a delivery is given up exactly when its claim is never answered, or it claims and none of its attempts commits |
| WorkReleased.LetterExactlyWhen | internal/adapters/inbound/kafka/consumer.go:177-230 | an event has a dead letter exactly when a delivery of it that gives up outlives its handling and reaches a sink that stores |
| WorkReleased.TaskExactlyWhen | internal/adapters/inbound/kafka/consumer.go:297-368 | an event has a task exactly when the delivery that claims it leaves one |
| WorkReleased.UnaccountedExactlyWhen | internal/adapters/inbound/kafka/consumer.go:177-230 | so exactly which deliveries, failures and deaths leave an event with neither a task nor a dead letter |
| WorkReleased.RedeliveryHelpsExactlyWhen | internal/adapters/inbound/kafka/consumer.go:297-321 | once an event is recorded and lost, a redelivery brings it back exactly when its own claim is never answered and its dead letter arrives |
| WorkReleased.NothingIsLost | internal/adapters/inbound/kafka/consumer.go:177-198 | an event has its task or a dead letter when its first delivery has honest claim errors, survives and has a sink that stores |
| WorkReleased.ClaimEndsOneWay | internal/adapters/inbound/kafka/consumer.go:177-198 | a claim that ends without an error leaves one task, any other none, and only one given up by a living process is handed over |
| Rebin.OrderConsolidation.RecordArrival | internal/domain/consolidation/order_consolidation.go:88-94 | a known line joins the arrived set once; an unknown one changes nothing |
| Rebin.SizesDecide | internal/domain/consolidation/order_consolidation.go:97-99 | comparing the sizes of the two sets decides their equality |
| Rebin.ArriveAtRebin.Execute | internal/application/usecases/arrive_at_rebin.go:48-104 | one arrival under every failure, inside a transaction or with its writes back to back |
| Rebin.OnePackExactlyWhenComplete | internal/application/usecases/arrive_at_rebin.go:58-103 | over any calls: one PACK task and one announcement exactly when the committed arrivals are the required set, else none |
| Rebin.PackComesWithTheLastLine | internal/application/usecases/arrive_at_rebin.go:86-103 | the PACK task appears in the completing call and carries its values |
| Rebin.ArrivalOrderIsIrrelevant | internal/domain/consolidation/order_consolidation.go:80-99 | order and repetition of arrivals do not matter |
| Rebin.StrandedExactlyWhen | internal/application/usecases/arrive_at_rebin.go:58-103 | over any calls without a transaction: an order is complete without its PACK task exactly when the call that completed it failed to announce the arrival or to save the task; it never gets two |
| Rebin.StrandsExactlyWhen | internal/application/usecases/arrive_at_rebin.go:86-103 | the same for one call from any record |
| Rebin.StuckForGood | internal/application/usecases/arrive_at_rebin.go:65-85 | no later call repairs such an order |
| PathCatalogue.Catalogue.Lookup | internal/domain/pathcatalog/path_definition.go:85-107 | the scan for the longest match |
| PathCatalogue.LookupAnswers | internal/domain/pathcatalog/path_definition.go:77-107 | it fails exactly when nothing matches, and otherwise gives a declared match of greatest length |
| PathCatalogue.FamilyExactlyWhen | internal/domain/pathcatalog/path_definition.go:109-120 | an id belongs to a prefix exactly when it is the prefix, or the prefix, a dash and anything |
| PathCatalogue.OrderFreeExactlyWhenUnambiguous | internal/domain/pathcatalog/path_definition.go:77-107 | every permutation of the declarations answers the same if and only if at most one is a longest match |
| PathCatalogue.EqualLengthMatchesAreEqual | internal/domain/pathcatalog/path_definition.go:109-120 | two equally long prefixes of one id are the same string |
| PathCatalogue.DistinctPrefixesAreOrderFree | internal/domain/pathcatalog/path_definition.go:77-107 | distinct folded prefixes suffice |
| PathCatalogue.BareContinuationDoesNotMatch | internal/domain/pathcatalog/path_definition.go:109-120 | a prefix does not match an id that continues it without a dash |
| CatalogueReplay.Consumer.Run | internal/adapters/outbound/kafkacatalog/consumer.go:330-349 | the cache stays the fold of what was consumed, the flag the absence of unfinished partitions, and its channel is closed once |
| CatalogueReplay.Consumer.Handle | internal/adapters/outbound/kafkacatalog/consumer.go:373-416 | one message's effect on the cache; an undecodable one is reported and skipped |
| CatalogueReplay.Consumer.CheckReady | internal/adapters/outbound/kafkacatalog/consumer.go:351-371 | a partition is done once a message reaches its watermark |
| CatalogueReplay.Consumer.Lookup | internal/adapters/outbound/kafkacatalog/consumer.go:300-308 | for every order of walking the map: a longest match, or none when nothing matches |
| CatalogueReplay.CacheHoldsTheLatest | internal/adapters/outbound/kafkacatalog/consumer.go:400-416 | an entry is what the last event of its upper-cased id declared, and is there exactly when that was not a deactivation |
| CatalogueReplay.InterleavingIsIrrelevant | internal/adapters/outbound/kafkacatalog/consumer.go:330-416 | in particular when each path lives in one partition; the flag is the same for every interleaving |
| CatalogueReplay.OrderFreeExactlyWhenEndingsAgree | internal/adapters/outbound/kafkacatalog/consumer.go:330-416 | the cache is the same for every interleaving of the partitions if and only if, for each path, the partitions that mention it end with the same effect |
| CatalogueReplay.SplitPathDependsOnOrder | internal/adapters/outbound/kafkacatalog/consumer.go:400-416 | two partitions that end differently for a path have two orders of reading with different caches |
| CatalogueReplay.ReadyMeansReplayed | internal/adapters/outbound/kafkacatalog/consumer.go:351-371 | the flag never comes up before everything from before startup has been consumed, gaps or not |
| CatalogueReplay.ReadyExactlyWhenReplayed | internal/adapters/outbound/kafkacatalog/consumer.go:212-250 | with a message just below every watermark the flag is up exactly when every message that was there at startup has been consumed |
| CatalogueReplay.FlagExactlyWhenSlotsTaken | internal/adapters/outbound/kafkacatalog/consumer.go:351-371 | the flag is exact at every point of every replay if and only if the offset just below each watermark holds a message |
| CatalogueReplay.ContiguousTakesSlot | internal/adapters/outbound/kafkacatalog/consumer.go:236-247 | which contiguous offsets guarantee |
| CatalogueReplay.ReadyForGood | internal/adapters/outbound/kafkacatalog/consumer.go:351-371 | the flag never goes down |
| CatalogueReplay.GapDelaysReady | internal/adapters/outbound/kafkacatalog/consumer.go:351-371 | an empty slot below any watermark leaves a reader that has read everything not ready |
| Packages.Symmetric | internal/domain/package/segregation.go:72-91 | the matrix is symmetric |
| Packages.SymmetryHolds | internal/domain/package/segregation.go:93-105 | so the start-up check never panics |
| Packages.DocumentedRules | internal/domain/package/segregation.go:40-54 | the matrix obeys the documented rules for classes 1 and 9 and for like with like |
| Packages.CompatiblePairs | internal/domain/package/segregation.go:72-91 | the matrix itself: which different classes from 2 to 8 may share a package |
| Packages.OutsideClasses | internal/domain/package/segregation.go:107-118 | a class outside 1 to 9 clashes with nothing |
| Packages.Package.ScanItemWithClass | internal/domain/package/package.go:157-173 | an item is added exactly when the package is open and no scanned class clashes with its own |
| Packages.Package.Seal | internal/domain/package/package.go:202-211 | only an open, non-empty package is sealed |
| Packages.Package.Weigh | internal/domain/package/package.go:216-233 | labelled exactly when expected and actual weight lie within the tolerance, else diverted |
| Packages.ScanAcceptsExactlyWhen | internal/domain/package/package.go:157-173 | a list scans if and only if all nonzero classes, old and new, are pairwise compatible |
| Packages.ScanOrderIsIrrelevant | internal/domain/package/package.go:157-200 | acceptance, contents up to order, and the sort lane do not depend on scanning order |
| Packages.LaneByContents | internal/domain/package/package.go:191-200 | the lane of a scanned package, from its items and its fragility |
| Packages.ReachableIsSound | internal/domain/package/package.go:157-233 | every reachable package holds pairwise compatible classes |
| Packages.SealedContentsStay | internal/domain/package/package.go:202-233 | contents are fixed by the seal, and a weighed package never changes |
| Packages.ExplosivesTravelAlone | internal/domain/package/segregation.go:40-47 | a recorded class 1 is the only class on record in its package |
| Sealing.SealPackage.FindByTaskId | internal/adapters/outbound/memory/package_repo.go:46-58 | a package of the task, or none exactly when there is none |
| Sealing.SealPackage.Execute | internal/application/usecases/seal_package.go:67-109 | an existing package is returned unchanged; otherwise one is packed from the items and the classes answered for them, sealed and stored, or nothing changes; failed reads change nothing |
| Sealing.PacksByAnswers | internal/application/usecases/seal_package.go:89-130 | packing succeeds exactly when there is something to pack and every two items answered as known and hazardous are compatible; the package then records exactly the nonzero answered classes, in order |
| Sealing.SealsExactlyWhen | internal/application/usecases/seal_package.go:67-109 | a first call leaves a package exactly when the caller owns the PACK task's lease, there is something to pack, the classes answered for it go together, and the scope commits |
| Sealing.FailsOpen | internal/application/usecases/seal_package.go:116-130 | an item whose lookup failed, found nothing or found it harmless, and every item when no lookup is wired, may join any contents: it changes neither acceptance nor the recorded classes |
| Sealing.TrulyCompatibleExactlyWhen | internal/application/usecases/seal_package.go:67-130 | when every class given is the true one, the true classes in a sealed package are pairwise compatible exactly when no clashing pair contains an item without a class |
| Sealing.SealNoticesSweep | internal/application/usecases/seal_package.go:83-86 | sweeping changes the ownership verdict exactly when the caller's own lease is due |
| Sealing.OnePackagePerTask | internal/application/usecases/seal_package.go:67-72 | over any calls, retries included, a task has at most one package and it stays |
| SealingRace.IndexKeepsOnePerTask | migrations/0011_package_task_id.up.sql:13-14 | over every interleaving of looks and saves a task has at most one package, and all calls that succeeded for it were given that one |
| SealingRace.AloneAnswers | internal/application/usecases/seal_package.go:68-72 | the steps of a call nobody races fail with the look, or answer with a stored package |
| SealingRace.AloneSeals | internal/application/usecases/seal_package.go:67-109 | or do what the use case does: seal the task's first package |
| SealingRace.LateSaverIsRefused | migrations/0011_package_task_id.up.sql:13-14 | a save gets an error and leaves the store alone exactly when the task has a package by then or its scope rolls back |
| SealingRace.TwoPackagesExactlyWhen | internal/application/usecases/seal_package.go:67-109 | without the index a task gets two packages exactly when two of its calls were past their look at one point of the run and both went on through a scope that did not roll back |
| SealingRace.WithoutIndexTwoPackages | internal/adapters/outbound/memory/package_repo.go:23-28 | any two calls that can seal one task have such a run over the memory store |

## Left out

- Completing, renewing and freeing one task are each one atomic step in the interleaved protocol; the source does a find and a blind save. `ClaimSafety.BlindSaveLawfulExactlyWhen` says when that is the same.
- Two relays at once: `SKIP LOCKED` gives them disjoint batches and no order, so nothing is claimed. `OutboxRelay.dfy` takes rows to become visible in id order; `OutboxVisibility.dfy` does not.
- Concurrent arrivals of one order at Rebin: two reads and two blind upserts, about which the source promises nothing.
- TaskStore.TaskRepo.Save: the store holds row values, since the source clones at every boundary; it therefore has no aliasing to get wrong. The memory repositories of consolidations and packages hand out the stored object itself, which this model does not capture.
- TaskStore.TaskRepo.FindClaimableByType: the unstable sort is modelled by insertion, with ties in any order.
- Projection.PostgresProjection.Apply: the five Apply methods differ only in the kind of event and are one method here.
- The waiting between retries; a cancelled context is modelled by how many attempts it allows.
- Idempotency.Served: the method and path stored with a key are never compared by the source and are left out; the body hash is taken to be injective.
- The report query over SQL (`postgres_report.go`), beyond rows and freshness. Averages and weights are exact here; floating-point rounding is not modelled.
- Task, station, order, package and line identifiers are numbers with equality only; strings are kept where their text matters (claim keys, path ids, task types).
- RunSlam's announcements, the CPT-miss sweep, queue depths, station check-in and check-out, and the read-only queries: one-branch facts.
- Kafka, Postgres and HTTP transport, CloudEvents encoding, headers, telemetry, configuration and shutdown.
