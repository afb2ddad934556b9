# Verification of the fraud pipeline

A Dafny model of the transaction pipeline and of its load and evaluation tools, with proofs about all
runs and all inputs. `dafny verify dfyconfig.toml` checks the whole project.

What is modelled:

- **Consumer protocol** (`Consumer`, `AckSafety`, `Provenance`, `Projection`, `Convergence`, `Listener`,
  `CallOutcome`). Every database,
  Redis and topic access of a delivery is one atomic step; any number of workers interleave, records are
  redelivered until acknowledged, and a worker may die between any two steps. `Listener` is the imperative
  class, proved to be a run of that machine.
- **Sliding window** (`RedisWindow`, `WindowStore`, `WindowHistory`, `PartialFailure`, `TtlTransparency`) and the
  **rule engine** (`RuleEngine`, `NeverOverFlags`).
- **Intake and dead-letter recovery** (`Intake`, `IntakeService`, `DltAdmin`, `DltAdminService`): transactions that
  may roll back around a send that cannot, and sends that fail although they were written.
- **The composed system** (`EndToEnd`, `StreamConfig`, `Isolation`): intake, consumers and operators on shared
  tables and topics, and the separation of live from replay.
- **Workload generator** (`Apportionment`, `WorkloadPlan`, `FisherYates`, `Lateness`,
  `LatenessExact`), **evaluator** (`Evaluator`), **replay script**
  (`Replay`) and the **stored rule list** (`RuleCodec`). `Domain`, `Counting` and `Division` are shared helpers.

Reading guide: a `Run` function is a sequence of labelled actions; `Reachable` lemmas carry the invariants; the
main theorems close each file. Methods of classes are proved against the specification functions that the
lemmas are about.

Where code and documentation differ the code is followed. Three findings: the default window ttl is too short
for expiry to be invisible (`TtlTransparency.DefaultsAreNotTransparent`); an out-of-order event can make the
window forget an event that a later window still needs (`WindowHistory.OutOfOrderLosesAnEvent`); the lateness
closed form and the generator agree on all profiles exactly when the numbers of buckets, users and events are
compatible (`LatenessExact.AgreementIff`), which they need not be (`LatenessExact.OddEventsDisagree`).

## Model

| member | source | states |
|---|---|---|
| `AckSafety.AckSafety` | app-consumer/src/main/java/com/example/fraud/consumer/kafka/TransactionEventListener.java:92-164 | In every reachable state of any number of interleaved, crashing workers with arbitrary redelivery, an acknowledged record has exactly one processing-log row and either a result for its event or a DLT row for its offset whose envelope is on the DLT topic. |
| `AckSafety.FirstWriterWins` | app-consumer/src/main/java/com/example/fraud/consumer/fraud/FraudDetectionResultService.java:21-41 | An event has at most one result row; the row describes a record of that event, and no continuation of the run moves or changes it. |
| `Provenance.ResultIsDecided` | app-consumer/src/main/java/com/example/fraud/consumer/fraud/FraudDetectionResultService.java:21-41 | Over every run, a result row holds exactly the evaluation the engine answered in a delivery of its event, and names the user, account and trace of that very message. |
| `Provenance.DltRowIsThrown` | app-consumer/src/main/java/com/example/fraud/consumer/dlt/DeadLetterEventService.java:72-115 | Over every run, a DLT row holds the type and message the engine threw in a delivery of its record: the message cut to 500 characters, or the type for a blank one. |
| `Provenance.LogRowNamesGroup` | app-consumer/src/main/java/com/example/fraud/consumer/processing/EventProcessingLogService.java:27-45 | A log row names the consumer group that serves its topic. |
| `Provenance.EngineMeetsWindow` | app-consumer/src/main/java/com/example/fraud/consumer/kafka/TransactionEventListener.java:131-164 | Over every run, the engine is given the skipped window exactly for a live event that is too late, the degraded one exactly after a failed Redis access, and a window that was read otherwise. |
| `AckSafety.ActKeeps` | app-consumer/src/main/java/com/example/fraud/consumer/kafka/TransactionEventListener.java:92-164 | Every protocol step, crash, failed publish or delivery keeps unique keys in all three tables, rows that tell the truth about records, and the justification of every acknowledgement. |
| `AckSafety.Reachable` | app-consumer/src/main/java/com/example/fraud/consumer/kafka/TransactionEventListener.java:92-164 | That invariant holds after every run from a state that satisfies it. |
| `AckSafety.RunExtends` | app-consumer/src/main/java/com/example/fraud/consumer/processing/EventProcessingLogService.java:20-46 | Rows, envelopes, acknowledgements and records are only ever appended over a whole run. |
| `AckSafety.OneRow` | app-consumer/src/main/java/com/example/fraud/consumer/processing/EventProcessingLogService.java:27-45 | Check-then-insert under the unique offset key leaves exactly one log row per processed offset. |
| `AckSafety.ProceedReaches` | app-consumer/src/main/java/com/example/fraud/consumer/kafka/TransactionEventListener.java:239-247 | After each access the worker knows what the next one relies on: a log row before anything else, the DLT row before its publish, a handled record before the acknowledgement. |
| `Convergence.CrashesLeaveNoTrace` | app-consumer/src/main/java/com/example/fraud/consumer/kafka/TransactionEventListener.java:92-164 | Crash-redelivery convergence of a separated partition: whatever interleavings, crashes at any step (between Redis commands too), failed Redis accesses and failed sends its deliveries meet, and whatever any other partition or stack does, once all its records are acknowledged its tables and Redis part equal those of one crash-free pass; only the DLT topic may repeat an envelope. Asked of its own deliveries only: one open record at a time, one engine, and no insert of a result or DLT row after a failed Redis access. |
| `Convergence.PartitionConverges` | app-consumer/src/main/java/com/example/fraud/consumer/kafka/TransactionEventListener.java:92-164 | The same for one partition on its own, without any separation assumption. |
| `Convergence.StepOnRecord` | app-consumer/src/main/java/com/example/fraud/consumer/kafka/TransactionEventListener.java:92-164 | One access of a redelivered attempt moves the stores only forward along the crash-free handling of its record, never off it. |
| `Convergence.ActOnTrack` | app-consumer/src/main/java/com/example/fraud/consumer/kafka/TransactionEventListener.java:103-164 | Every disciplined action keeps the stores equal to the crash-free run of the finished records plus partial progress on the next one. |
| `Projection.RunProjects` | app-consumer/src/main/java/com/example/fraud/consumer/kafka/TransactionEventListener.java:92-164 | The part of a run that belongs to a region with its own records, events and keys is exactly the run of that region's own actions. |
| `Projection.ActProjects` | app-consumer/src/main/java/com/example/fraud/consumer/kafka/TransactionEventListener.java:92-164 | One action either acts on the region's view as it does on the whole, or leaves the view alone. |
| `Listener.TransactionEventListener.ProcessMessage` | app-consumer/src/main/java/com/example/fraud/consumer/kafka/TransactionEventListener.java:85-164 | The imperative listener leaves the stores and the acknowledgement of the access-by-access specification, for every place an exception can surface. |
| `Listener.TransactionEventListener.UpdateWindowAndDecide` | app-consumer/src/main/java/com/example/fraud/consumer/kafka/TransactionEventListener.java:131-164 | Window update, rule engine and the two sinks agree with the specification, Redis failures answered as degraded. |
| `Listener.TransactionEventListener.SaveResultAndAcknowledge` | app-consumer/src/main/java/com/example/fraud/consumer/fraud/FraudDetectionResultService.java:21-41 | Check, insert under the unique event key and acknowledgement agree with the specification; a row that is added is the first for its event, holds the given evaluation and names the record, and an acknowledged event has one. |
| `Listener.TransactionEventListener.RecordDeadLetterAndAcknowledge` | app-consumer/src/main/java/com/example/fraud/consumer/kafka/TransactionEventListener.java:239-247 | Find or save the DLT row, publish it, acknowledge; a failed publish leaves the record unacknowledged even if it was written. |
| `Listener.TransactionEventListener.RecordFailure` | app-consumer/src/main/java/com/example/fraud/consumer/dlt/DeadLetterEventService.java:42-53 | One DLT row per source offset, found again on redelivery. |
| `Listener.CallIsARun` | app-consumer/src/main/java/com/example/fraud/consumer/kafka/TransactionEventListener.java:85-164 | Every call of the listener is a run of the protocol machine, so all results about runs cover the imperative code. |
| `Listener.RedisPhase` | app-consumer/src/main/java/com/example/fraud/consumer/redis/RedisRecentTransactionWindowStore.java:46-59 | The window store's accesses, taken one by one in the protocol, come to one call of the store. |
| `CallOutcome.CallLeaves` | app-consumer/src/main/java/com/example/fraud/consumer/kafka/TransactionEventListener.java:85-164 | Whatever exceptions surface, one call adds at most a result row with what the engine answered for its record and the window it met, or a DLT row with what the engine threw; neither replaces a row. |
| `CallOutcome.CleanCallSettles` | app-consumer/src/main/java/com/example/fraud/consumer/kafka/TransactionEventListener.java:85-164 | Without exception, Redis failure or failed send a call acknowledges and leaves exactly the stores of the crash-free handling of its record. |
| `Listener.FailsOnce` | app-consumer/src/main/java/com/example/fraud/consumer/redelivery/StatefulRedeliveryFailureInjector.java:22-43 | With fail-once, an enabled drill throws exactly once over any calls that come to its point with its event, unless it has thrown before, and otherwise never. |
| `WindowStore.RedisRecentTransactionWindowStore.RecordAndGetWindow` | app-consumer/src/main/java/com/example/fraud/consumer/redis/RedisRecentTransactionWindowStore.java:62-120 | The imperative store applies the commands in order, stops where the connection fails, and answers the count and sum of its range; a failure is answered as unavailable; a live event is too late if and only if its receipt is more than the allowed lateness after it, and a replayed one is always recorded and answered. |
| `WindowStore.RedisRecentTransactionWindowStore.SumWindow` | app-consumer/src/main/java/com/example/fraud/consumer/redis/RedisRecentTransactionWindowStore.java:98-114 | The loop over the range adds up exactly the amounts whose hash is there. |
| `RedisWindow.GateIff` | app-consumer/src/main/java/com/example/fraud/consumer/redis/RedisRecentTransactionWindowStore.java:117-120 | The lateness gate for every setting: what it skips leaves the keyspace alone, what it lets through leaves its own hash, field by field, and gets a window. |
| `WindowHistory.WindowBounds` | app-consumer/src/main/java/com/example/fraud/consumer/redis/RedisRecentTransactionWindowStore.java:76-114 | Window and eviction in event times: from the event time less the window, rounded down to the millisecond, to the end of its own millisecond; evicted is what lies before, but not before the epoch. |
| `WindowHistory.ExactMembership` | app-consumer/src/main/java/com/example/fraud/consumer/redis/RedisRecentTransactionWindowStore.java:87-94 | After any, also out-of-order, history an event is in a user's set exactly when no delivery at or after its last one has time more than the window later, and its score is its last delivery's. |
| `WindowHistory.AnswerIsSparedWindow` | app-consumer/src/main/java/com/example/fraud/consumer/redis/RedisRecentTransactionWindowStore.java:98-114 | The answer is count and sum of the members of [t-W, t] not evicted since their last delivery, a subset of the full-log window. |
| `WindowHistory.AnswerFullIffNoneEvicted` | app-consumer/src/main/java/com/example/fraud/consumer/redis/RedisRecentTransactionWindowStore.java:94-114 | The answer equals the full-log answer if and only if no event of the window has been evicted. |
| `WindowHistory.InOrderAnswerIsFullWindow` | app-consumer/src/main/java/com/example/fraud/consumer/redis/RedisRecentTransactionWindowStore.java:76-114 | It does when no earlier applied event of the user has a later event time. |
| `WindowHistory.OutOfOrderLosesAnEvent` | app-consumer/src/main/java/com/example/fraud/consumer/redis/RedisRecentTransactionWindowStore.java:94 | A concrete out-of-order history whose answer misses an event the log has. |
| `WindowHistory.HashKept` | app-consumer/src/main/java/com/example/fraud/consumer/redis/RedisRecentTransactionWindowStore.java:87-93 | Every event ever recorded keeps its own amount. |
| `RedisWindow.KeysNeverCollide` | app-consumer/src/main/java/com/example/fraud/consumer/redis/RedisRecentTransactionWindowStore.java:132-138 | Keys of the two namespaces never coincide, equal keys mean equal users or events, and a set key is never a hash key. |
| `PartialFailure.MembersAlwaysHashed` | app-consumer/src/main/java/com/example/fraud/consumer/redis/RedisRecentTransactionWindowStore.java:87-93 | Whatever prefixes of the commands were sent, every set member has its amount hash. |
| `PartialFailure.CompleteCallAbsorbsPartial` | app-consumer/src/main/java/com/example/fraud/consumer/redis/RedisRecentTransactionWindowStore.java:47-59 | After a call that failed anywhere, a complete call for the same message reaches the keyspace and the answer as if the failed call had not happened. |
| `PartialFailure.Redo` | app-consumer/src/main/java/com/example/fraud/consumer/redis/RedisRecentTransactionWindowStore.java:87-96 | A command that was sent already changes nothing when sent again. |
| `PartialFailure.AmountsWithinLog` | app-consumer/src/main/java/com/example/fraud/consumer/redis/RedisRecentTransactionWindowStore.java:98-114 | After any mix of complete and cut-short calls the amounts read are among those the full log gives, each with its logged value. |
| `TtlTransparency.TransparentIff` | app-consumer/src/main/java/com/example/fraud/consumer/redis/RedisRecentTransactionWindowStore.java:95-98 | In live mode expiry changes no answer of any admissible history if and only if ttl > window + lateness + future allowance + lag + 1 ms - 1 ns (the rounding of scores). |
| `TtlTransparency.ExpiryInvisible` | app-consumer/src/main/java/com/example/fraud/consumer/redis/RedisRecentTransactionWindowStore.java:95-114 | Above the bound every answer equals the one without expiry. |
| `TtlTransparency.ShortTtlLosesAnEvent` | app-consumer/src/main/java/com/example/fraud/consumer/redis/RedisRecentTransactionWindowStore.java:95-98 | At or below the bound two admissible deliveries get a different answer. |
| `TtlTransparency.DefaultsAreNotTransparent` | app-consumer/src/main/java/com/example/fraud/consumer/redis/SlidingWindowProperties.java:17-37 | The default ten-minute ttl misses the bound whatever the lag. |
| `NeverOverFlags.NeverMoreThanFullLog` | app-consumer/src/main/java/com/example/fraud/consumer/rule/FraudRuleEngine.java:36-76 | With positive amounts and unique ids, score and decision from the stored, degraded or skipped window never exceed those from the user's full log, after any complete or cut-short calls. |
| `RuleEngine.RuleOrderIsIrrelevant` | app-consumer/src/main/java/com/example/fraud/consumer/rule/FraudRuleEngine.java:25-30 | The injection order of the rules shows in no field of the result. |
| `RuleEngine.ScoreWithinRange` | app-consumer/src/main/java/com/example/fraud/consumer/rule/FraudRuleEngine.java:48-54 | The score is in 0..100 for every message and window. |
| `RuleEngine.UncappedScore` | app-consumer/src/main/java/com/example/fraud/consumer/rule/FraudRuleEngine.java:48-54 | The score is the capped sum of the stateless part and the window part, a degraded or missing window adding nothing. |
| `RuleEngine.MonotoneInWindow` | app-consumer/src/main/java/com/example/fraud/consumer/rule/FraudRuleEngine.java:78-100 | Score and decision are monotone in window count and sum, a degraded window counting as the least. |
| `RuleEngine.ScoreIsExplained` | app-consumer/src/main/java/com/example/fraud/consumer/rule/FraudRuleEngine.java:48-60 | The stored list explains the stored score: the score is the sum of the matched rules' weights, capped at 100. |
| `RuleEngine.MatchedIff` | app-consumer/src/main/java/com/example/fraud/consumer/rule/FraudRuleEngine.java:57-60 | A rule is listed as matched if and only if its own condition holds: injected and amount at least 1000000, local time before six on some day, or location one of three words up to case and surrounding blanks; or count or sum of a normal window at its limit. |
| `RuleEngine.NightIff` | app-consumer/src/main/java/com/example/fraud/consumer/rule/NightTimeTransactionRule.java:14-15 | The hour test holds if and only if by the event's own offset the time is within six hours after some midnight. |
| `RuleEngine.LocalClockDecides` | app-consumer/src/main/java/com/example/fraud/consumer/rule/NightTimeTransactionRule.java:14-15 | Moving the instant back and the offset forward by as much changes nothing in the result. |
| `RuleEngine.LevelFollowsScore` | app-consumer/src/main/java/com/example/fraud/consumer/rule/FraudRuleEngine.java:121-137 | The stored level and decision are LOW and APPROVE exactly below 30, HIGH and BLOCK exactly from 70. |
| `RuleEngine.ReasonIsExplained` | app-consumer/src/main/java/com/example/fraud/consumer/rule/FraudRuleEngine.java:102-119 | The stored reason is the published texts of the listed rules in their order, then what was wrong with the window. |
| `RuleEngine.MatchedInOrder` | app-consumer/src/main/java/com/example/fraud/consumer/rule/FraudRuleEngine.java:25-30 | The matched rules are listed in class-name order, the two window rules last. |
| `RuleEngine.SkippedIff` | app-consumer/src/main/java/com/example/fraud/consumer/rule/FraudRuleEngine.java:61-63 | Exactly a degraded window lists the two window rules as skipped, and never also as matched. |
| `Intake.SecondSendFollowsRollback` | app-api/src/main/java/com/example/fraud/api/transaction/application/TransactionEventIntakeService.java:60-102 | Over any interleaving, sends for an event exceed its rolled-back sends by at most one, and so do messages: a second send always follows a rollback. |
| `Intake.StatusTellsTheTopic` | app-api/src/main/java/com/example/fraud/api/transaction/application/TransactionEventIntakeService.java:84-101 | While no send of the event was rolled back, PUBLISHED means exactly one message, PUBLISH_FAILED at most one, and no committed receipt stays RECEIVED. |
| `Intake.EventIdDeterminesMessage` | app-api/src/main/java/com/example/fraud/api/transaction/application/TransactionEventIntakeService.java:143-153 | Without rolled-back writes two messages with one event id are the same send, and its fields are those of a receipt. |
| `Intake.MessageCarriesRequest` | app-api/src/main/java/com/example/fraud/api/transaction/application/TransactionEventMessageMapper.java:10-50 | Whatever became of the send, the message repeats the request's fields. |
| `Intake.ActKeeps` | app-api/src/main/java/com/example/fraud/api/transaction/application/TransactionEventIntakeService.java:60-102 | Every transaction step keeps the unique receipt key, the status/topic agreement and the balance of sends, receipts and rollbacks. |
| `IntakeService.TransactionEventIntakeService.Accept` | app-api/src/main/java/com/example/fraud/api/transaction/application/TransactionEventIntakeService.java:52-153 | The imperative service with anything done by other transactions between its check and its insert: the database is the run of exactly these actions; duplicate is answered if and only if the key was taken at the check or, for a request let through, at the insert; what is committed is the request's receipt, PUBLISHED after a send that went well and PUBLISH_FAILED with its error cut to 500 characters otherwise. |
| `IntakeService.CallEffect` | app-api/src/main/java/com/example/fraud/api/transaction/application/TransactionEventIntakeService.java:52-153 | A call in closed form over the state the others leave it: a lost race for the key only ends its transaction, otherwise it sends once and leaves one row, in the table or among the rolled-back ones. |
| `DltAdmin.CommittedRows` | app-api/src/main/java/com/example/fraud/api/admin/dlt/DeadLetterEventAdminService.java:71-107 | From fresh rows, no committed row is REPROCESSING and attempts never exceed the maximum. |
| `DltAdmin.CallMovesDown` | app-api/src/main/java/com/example/fraud/api/admin/dlt/DeadLetterEventAdminService.java:71-142 | A call changes at most its own row, never a finished one (REPROCESSED and DISCARDED absorb), and every change strictly lowers attempts left plus one while unfinished. |
| `DltAdmin.FewChanges` | app-api/src/main/java/com/example/fraud/api/admin/dlt/DeadLetterEventAdminService.java:71-142 | Over a whole run a row changes at most maxAttempts + 1 times. |
| `DltAdmin.OneAuditPerCommit` | app-api/src/main/java/com/example/fraud/api/admin/dlt/DeadLetterEventAdminService.java:144-192 | A committed call on an existing row writes exactly one audit row: the row and its new status and attempts, the caller cut to 100 characters or the service's name for a blank one, the reason cut to 500, success told from failure with the word for what came of it; a rolled-back call writes none and changes no row. |
| `DltAdmin.ReprocessOutcome` | app-api/src/main/java/com/example/fraud/api/admin/dlt/DeadLetterEventAdminService.java:72-107 | Each answer of a reprocess call holds if and only if its condition does: not found, attempts used up, conflict, sent, not sent, rolled back; and what each leaves in the row and on the topic. |
| `DltAdmin.DiscardOutcome` | app-api/src/main/java/com/example/fraud/api/admin/dlt/DeadLetterEventAdminService.java:129-142 | Each answer of a discard call holds if and only if its condition does; a row is discarded, with the given reason and its old attempts, exactly when it is PENDING or REPROCESS_FAILED, the reason has text and audit and commit go well; nothing else changes and no record is copied. |
| `DltAdmin.CopiesAreBounded` | app-api/src/main/java/com/example/fraud/api/admin/dlt/DeadLetterReprocessPublisher.java:20-41 | Copies of a row are its own record on its own topic, at most maxAttempts besides those whose transaction rolled back. |
| `DltAdmin.DraftMoves` | app-api/src/main/java/com/example/fraud/api/admin/dlt/DeadLetterEventEntity.java:86-127 | A transaction changes only a retryable row, to REPROCESSED or REPROCESS_FAILED with one attempt more or to DISCARDED with the attempts it had and the given reason; it republishes only the stored record of a supported topic, using up an attempt. |
| `DltAdminService.DeadLetterEventAdminService.Reprocess` | app-api/src/main/java/com/example/fraud/api/admin/dlt/DeadLetterEventAdminService.java:72-114 | The imperative call, with its three catch branches, leaves the database and response of the specification. |
| `DltAdminService.DeadLetterEventAdminService.Discard` | app-api/src/main/java/com/example/fraud/api/admin/dlt/DeadLetterEventAdminService.java:129-142 | The same for discard; a blank reason rolls back without audit. |
| `DltAdminService.DeadLetterEventEntity.StartReprocessing` | app-api/src/main/java/com/example/fraud/api/admin/dlt/DeadLetterEventEntity.java:86-94 | From PENDING or REPROCESS_FAILED the row becomes REPROCESSING with one attempt more; from any other status it refuses and stays. |
| `DltAdminService.DeadLetterEventEntity.DiscardInPlace` | app-api/src/main/java/com/example/fraud/api/admin/dlt/DeadLetterEventEntity.java:112-123 | Discards a retryable row with a non-blank reason, and tells a state conflict from a missing reason otherwise. |
| `EndToEnd.OneResultPerEvent` | app-consumer/src/main/java/com/example/fraud/consumer/fraud/FraudDetectionResultService.java:25-40 | Mixing intake, consumer failures, reprocess calls, timeouts that did write and rollbacks, an event still has at most one result, and it describes a message intake sent. |
| `EndToEnd.CopiesGoHome` | app-api/src/main/java/com/example/fraud/api/admin/dlt/DeadLetterReprocessPublisher.java:20-41 | Every republished record is the record its DLT row was written for and lands on that row's topic and partition; per row at most maxAttempts copies besides rolled-back ones. |
| `EndToEnd.NothingElseIsProduced` | app-api/src/main/java/com/example/fraud/api/admin/dlt/DeadLetterEventAdminService.java:87 | Conservation: a partition holds each message exactly as often as intake sent it there plus operators copied it there; no topic gains anything else. |
| `EndToEnd.NextKeeps` | app-api/src/main/java/com/example/fraud/api/admin/dlt/DeadLetterEventAdminService.java:71-107 | Every event of the composed system keeps the three invariants, the row-by-row link between consumer and admin tables, and an intake origin for every record. |
| `EndToEnd.PartsRunOnTheirOwn` | app-consumer/src/main/java/com/example/fraud/consumer/kafka/TransactionEventListener.java:92-164 | Each part of a composed run is a run of that part alone, so its results carry over. |
| `Isolation.ReplayLeavesLiveAlone` | app-consumer/src/main/java/com/example/fraud/consumer/kafka/FraudStreamConfig.java:29-64 | Non-interference: for any interleaving of validated live and replay stacks with committing intake, the live part of all tables and of Redis is what the live actions alone lead to. |
| `Isolation.LiveRegionIsTheNamespace` | app-consumer/src/main/java/com/example/fraud/consumer/redis/RedisRecentTransactionWindowStore.java:132-138 | That live part is the whole live topic and live namespace and nothing of replay. |
| `Isolation.EventHasOneHome` | app-api/src/main/java/com/example/fraud/api/transaction/application/TransactionEventIntakeService.java:143-153 | While intake commits, all records of an event, reprocessed ones included, are one message on one partition of one topic. |
| `Isolation.PartIsSeparated` | app-consumer/src/main/java/com/example/fraud/consumer/kafka/TransactionEventListener.java:103-107 | Any set of partitions of a topic is separated, with its events and keys, from all other records; derived from record keys, key layout, validation and receipt uniqueness. |
| `Isolation.PartitionsConverge` | app-consumer/src/main/java/com/example/fraud/consumer/kafka/TransactionEventListener.java:92-164 | Convergence of the deployed system: an acknowledged partition ends as one crash-free pass over its log; other partitions and the other stack may fail, overlap or decide as they like. |
| `StreamConfig.StartsIff` | app-consumer/src/main/java/com/example/fraud/consumer/kafka/FraudStreamConfig.java:29-64 | Validation lets a consumer start if and only if topic, group and namespace are those of its mode. |
| `StreamConfig.StartedConsumersAreApart` | app-consumer/src/main/java/com/example/fraud/consumer/kafka/FraudStreamConfig.java:29-64 | Two consumers that passed validation share topic, group or namespace exactly when they run in the same mode. |
| `StreamConfig.ProducerReachesItsMode` | app-api/src/main/java/com/example/fraud/api/kafka/FraudStreamConfig.java:17-27 | A validated producer and a validated consumer are on one topic exactly when they run in one mode. |
| `Apportionment.BuildShareCounts` | scripts/data/verify_v3_phase3_partition_assignment.py:35-47 | The loop computes floors plus hand-out in remainder order, also when the shares do not add up. |
| `Apportionment.CountsAddUp` | scripts/data/verify_v3_phase3_partition_assignment.py:35-47 | The counts sum to the total whenever the floors do not exceed it, in particular for shares that sum to one. |
| `Apportionment.NeverWraps` | scripts/data/verify_v3_phase3_partition_assignment.py:42-46 | With shares that sum to one the hand-out gives at most one extra per index. |
| `Apportionment.FloorOrCeiling` | scripts/data/verify_v3_phase3_partition_assignment.py:36-46 | Each count differs from its quota by less than one. |
| `Apportionment.ExtrasInOrder` | scripts/data/verify_v3_phase3_partition_assignment.py:38-46 | Whoever comes before an index in remainder-then-index order and sees it get one more got one more as well. |
| `Apportionment.NothingIsCloser` | load-test/k6/scenarios/v3-phase3-partition-skew.js:71-82 | Optimality: no integer vector with the same sum has smaller total absolute deviation from the quotas. |
| `WorkloadPlan.Shuffle` | scripts/data/verify_v3_phase3_partition_assignment.py:55-57 | The in-place swaps from the end, specified by a function of the old contents (which `FisherYates` characterises). |
| `WorkloadPlan.BuildPartitionCycle` | scripts/data/verify_v3_phase3_partition_assignment.py:50-58 | Expansion of the counts and in-place shuffle give the specified cycle (see `FisherYates.EveryCycle`). |
| `FisherYates.EveryArrangement` | scripts/data/verify_v3_phase3_partition_assignment.py:55-57 | Every arrangement of the elements is what some draws make of them. |
| `FisherYates.ArrangementTellsDraws` | scripts/data/verify_v3_phase3_partition_assignment.py:55-57 | Of elements all different two draws make the same arrangement if and only if they agree, for every position i from 1 up, on the draw modulo i + 1. |
| `FisherYates.EveryCycle` | scripts/data/verify_v3_phase3_partition_assignment.py:50-58 | Every arrangement with the apportioned multiplicities is the cycle of some draws. |
| `WorkloadPlan.ExpandedInOrder` | scripts/data/verify_v3_phase3_partition_assignment.py:50-54 | Before the shuffle the cycle holds the partitions one after the other, each as often as it counts. |
| `WorkloadPlan.CycleIsApportioned` | scripts/data/verify_v3_phase3_partition_assignment.py:50-58 | The cycle has the asked length and holds each partition exactly as often as apportioned, whatever is drawn. |
| `WorkloadPlan.FindUsersForPartition` | scripts/data/verify_v3_phase3_partition_assignment.py:103-113 | The bounded search succeeds if and only if enough of the candidates below its limit hash to the partition, and then returns the first of them. |
| `WorkloadPlan.PoolIsSound` | scripts/data/verify_v3_phase3_partition_assignment.py:106-109 | Found ids are distinct and all hash to their partition. |
| `WorkloadPlan.PoolIsComplete` | scripts/data/verify_v3_phase3_partition_assignment.py:103-113 | No candidate tried that hashes to the partition is left out. |
| `WorkloadPlan.DecimalReads` | scripts/data/verify_v3_phase3_partition_assignment.py:107 | The candidate's number is written in decimal, without leading zeros. |
| `WorkloadPlan.BuildEventPlan` | scripts/data/verify_v3_phase3_partition_assignment.py:126-139 | The occurrence counters plan the specified round robin; the loop fails exactly when it reaches a partition without users. |
| `WorkloadPlan.PlanIsRoundRobin` | scripts/data/verify_v3_phase3_partition_assignment.py:131-138 | Event i is on the partition of its turn of the cycle, for the user of that partition's pool whose place is the number of earlier events there, modulo the pool. |
| `WorkloadPlan.PoolIsServedFairly` | load-test/k6/scenarios/v3-phase3-partition-skew.js:196-212 | Two users of one partition never differ by more than one event, for every event limit. |
| `WorkloadPlan.PoolIsServedEvenly` | scripts/data/verify_v3_phase3_partition_assignment.py:131-146 | Over whole cycles every user of a partition gets exactly e events if and only if the partition's turns are e times its users. |
| `WorkloadPlan.NoHotUsers` | scripts/data/verify_v3_phase3_partition_assignment.py:116-147 | For the generator as a whole: users of a partition get exactly e events each if and only if rounds times its cycle count is e times its user count. |
| `Lateness.ExpectedCounts` | scripts/data/validate_v3_workload_manifest.py:216-233 | The validator's divmod computation equals the number of event indices whose bucket is later than allowed, and the accepted count is the rest. |
| `Lateness.ClosedFormCounts` | scripts/data/validate_v3_workload_manifest.py:225-233 | The closed form refines the enumeration for every number of events. |
| `Lateness.BuildRuntimePattern` | load-test/k6/scenarios/v3-phase5-late-out-of-order.js:140-158 | The loops build the specified pattern or fail for an unknown name or a wrong length. |
| `Lateness.LookupIsLast` | load-test/k6/scenarios/v3-phase5-late-out-of-order.js:22 | Of several buckets with one name the look-up finds the last. |
| `Lateness.PatternIsPermutation` | load-test/k6/scenarios/v3-phase5-late-out-of-order.js:140-158 | With unique bucket names the pattern exists if and only if the order names known buckets without repetition, and then holds each bucket once. |
| `Lateness.PatternBeginsInOrder` | load-test/k6/scenarios/v3-phase5-late-out-of-order.js:143-148 | The pattern begins with the named buckets in the order that names them. |
| `Lateness.PatternKeepsOrder` | load-test/k6/scenarios/v3-phase5-late-out-of-order.js:149-152 | After the named buckets the others follow in the order of the list. |
| `Lateness.ExpectedTooLateCount` | load-test/k6/scenarios/v3-phase5-late-out-of-order.js:123-134 | The generator's loop counts the too-late events of the rotated pattern. |
| `Lateness.GeneratedEvents` | load-test/k6/scenarios/v3-phase5-late-out-of-order.js:123-138 | That is the number of event indices whose bucket, rotated by user and by round, is later than allowed. |
| `LatenessExact.AgreementIff` | load-test/k6/scenarios/v3-phase5-late-out-of-order.js:123-138 | The validator's closed form is what the generator sends, for all legal profiles of B buckets and all allowances, if and only if B divides the events and users mod B is 0 or 1 or (events / users) mod B is 0 or B - 1. |
| `LatenessExact.ClosedFormIsGenerated` | scripts/data/validate_v3_workload_manifest.py:216-233 | Under that condition the two agree on every legal profile, order and allowance. |
| `LatenessExact.OddEventsDisagree` | load-test/k6/scenarios/v3-phase5-late-out-of-order.js:136-138 | A concrete profile outside the condition on which the two differ. |
| `Evaluator.EvaluateRows` | scripts/data/evaluate_paysim_replay_results.py:394-478 | Every counter of the loop is the number of labels in the set it stands for, in whatever order labels are visited. |
| `Evaluator.EvaluationStats.CountJudged` | scripts/data/evaluate_paysim_replay_results.py:440-475 | One judged label raises exactly the counters whose sets it belongs to. |
| `Evaluator.MatrixIsEvaluated` | scripts/data/evaluate_paysim_replay_results.py:434-475 | True and false positives and negatives add up to the evaluated events. |
| `Evaluator.LabelsAreAccountedFor` | scripts/data/evaluate_paysim_replay_results.py:411-442 | Every label is evaluated, excluded as rejected, or missing and not counted. |
| `Evaluator.LevelsCover` | scripts/data/evaluate_paysim_replay_results.py:458-471 | The four level counts add up to the judged events. |
| `Evaluator.LevelSplits` | scripts/data/evaluate_paysim_replay_results.py:458-471 | Each level count splits into its fraud and non-fraud counts. |
| `Evaluator.LabelsSplit` | scripts/data/evaluate_paysim_replay_results.py:408-409 | All labels are the fraud and the non-fraud ones. |
| `Evaluator.MissingSplit` | scripts/data/evaluate_paysim_replay_results.py:420-424 | The missing ones split the same way. |
| `Evaluator.ScoresAndVersionsCover` | scripts/data/evaluate_paysim_replay_results.py:444-452 | Results with and without score, and with and without version, each cover the judged events. |
| `Evaluator.ShippedDecisions` | scripts/data/paysim_evaluation_policy.py:44-75 | Under threshold-v1 and threshold-strict-v1, which detections are blocked, allowed and predicted as fraud: by score at 80, 50 and 90, 70, by level without one. |
| `Evaluator.PredictionMeetsAction` | scripts/data/evaluate_paysim_replay_results.py:337-354 | A policy predicts fraud for exactly what it sends to review or blocks, on every detection, if and only if its thresholds are ordered and its fallback levels agree. |
| `Evaluator.PositivesAreReviewed` | scripts/data/evaluate_paysim_replay_results.py:459-475 | Under a consistent policy predicted positives and review candidates are equally many. |
| `Evaluator.ShippedPositivesAreReviewed` | scripts/data/paysim_evaluation_policy.py:44-75 | Under both shipped policies true plus false positives are the review candidates. |
| `Evaluator.StricterNeverRaises` | scripts/data/paysim_evaluation_policy.py:44-75 | Moving to a stricter policy never raises true or false positives, review or blocked counts, nor recall, and does not change whether recall is defined. |
| `Evaluator.StrictNeverRaises` | scripts/data/paysim_evaluation_policy.py:44-75 | In particular moving from threshold-v1 to threshold-strict-v1 raises none of them, on any labels and results. |
| `Replay.ReplayLines` | scripts/data/replay_paysim_events.py:470-537 | The script's loop leaves the counters of the specified run, or ends without a report at a line that is no JSON object. |
| `Replay.SendWithRetry` | scripts/data/replay_paysim_events.py:327-376 | The retry loop ends with the specified counters and outcome. |
| `Replay.SendCounts` | scripts/data/replay_paysim_events.py:302-376 | A send goes on exactly while the reply is a 5xx, a timeout or, if configured, a missing connection, and retries are left; its outcome is its last reply, exactly the counter of that outcome goes up (2xx, 409, 5xx, any other code, timeout, no connection), and every retry is counted under its cause. |
| `Replay.ReportAddsUp` | scripts/data/replay_paysim_events.py:470-537 | Rows read = accepted + rejected, type by type; outside a dry run accepted = the six outcomes and HTTP calls = accepted + retries, at most retry_count an event; every server reply is counted exactly once under its kind. |
| `Replay.ReadsPrefix` | scripts/data/replay_paysim_events.py:470-472 | The rows read are the rows of the first lines of the input, in their order, with no broken line among them. |
| `Replay.AcceptsValidRows` | scripts/data/replay_paysim_events.py:490-513 | The accepted rows are exactly the valid ones among the rows read, in their order. |
| `Replay.TypesAreCounted` | scripts/data/replay_paysim_events.py:477-507 | Each type counter is the number of rows read, or accepted, that have the type in that field. |
| `Replay.NoReportIff` | scripts/data/replay_paysim_events.py:470-472 | Without stop-on-error there is no report if and only if the reading comes to a line that is no JSON object, at the latest the first one beyond the limit. |
| `Replay.StopsAtFirstError` | scripts/data/replay_paysim_events.py:511-537 | With stop-on-error the reading ends at the first row that is rejected or not sent with success; if there is none it goes on to the limit or the end. |
| `Replay.ReadsOn` | scripts/data/replay_paysim_events.py:470-472 | Without stop-on-error the reading ends only at the limit or the end of the input. |
| `Replay.ReadsNoMore` | scripts/data/replay_paysim_events.py:471-472 | The limit is never exceeded. |
| `Replay.PrefixRoundTrip` | scripts/data/replay_paysim_events.py:254-259 | A replayed id is the recorded one or, in prefix mode, prefix, hyphen and recorded id; normalising it gives back the recorded one. |
| `Replay.ReplayedIdsJoinInjectively` | scripts/data/evaluate_paysim_replay_results.py:175-180 | Replayed ids and their normal forms are equal only for equal recorded ids. |
| `Replay.NormalFormsCollide` | scripts/data/evaluate_paysim_replay_results.py:175-180 | Two different ids share a normal form if and only if one is the other with the prefix put in front, the other not itself starting with it. |
| `RuleCodec.ParseUndoesSerialize` | app-api/src/main/java/com/example/fraud/api/admin/fraud/FraudDetectionResultQueryService.java:60-69 | Round trip: every list of rule codes, the empty one included, is read back as stored. |
| `RuleCodec.SurvivesIffClean` | app-consumer/src/main/java/com/example/fraud/consumer/fraud/FraudDetectionResultEntity.java:126-128 | A list of names survives joining and splitting if and only if each is non-blank, free of commas and of surrounding spaces. |

## Left out

- HTTP controllers, request validation annotations, the admin token filter, OpenAPI, trace ids, logging and metrics: no state of interest.
- Kafka, PostgreSQL and Redis themselves: a log per partition, tables with unique keys, sets and hashes. A send writes at most one record; the committed offset is the set of acknowledged records.
- Spring Kafka's error handler and back-off: redelivery is arbitrary, and no liveness is claimed.
- Reads of one answer: all hash reads of a window answer see one keyspace; another worker's write between two of them is not modelled.
- `Consumer` treats every integrity violation of an insert as a duplicate, as the services do; the other column constraints are assumed to hold (`RuleEngine.ScoreWithinRange` discharges the score check).
- `Convergence.CrashesLeaveNoTrace`: assumes of the partition itself (of no other) a deterministic engine, one unacknowledged record at a time, no result or DLT row inserted after a failed Redis access, a window of non-negative length, and no key expiry. A degraded result that is stored does leave a trace.
- `TtlTransparency.TransparentIff`: assumes complete calls, one clock for all services, live mode, and a key gone from the instant its deadline is reached.
- `NeverOverFlags.NeverMoreThanFullLog`: without key expiry, which can only remove members.
- Time is in nanoseconds and scores are floored to milliseconds; amounts are exact reals. The removal range starts at 0, so negative scores are never pruned: modelled as it is.
- Events without event time or receipt time, which the lateness gate lets pass, are not modelled.
- Timestamps written into rows (detection, processing, failure, creation, update of receipts) are omitted; the dead-letter row keeps its own.
- `Intake.StatusTellsTheTopic`: `written`, `undone` and `attempts` are history variables, not columns.
- `DltAdmin.OneAuditPerCommit`: concurrent calls on one row are serialised by the row lock; stored payload text reads back as the stored message or not at all.
- Configuration defaulting in the sliding-window properties, beyond the default values used in `TtlTransparency.DefaultsAreNotTransparent`.
- `Apportionment.NothingIsCloser`: shares are exact rationals with a common denominator; rounding of floating-point shares is not modelled.
- `Isolation.ReplayLeavesLiveAlone`: assumes validated stacks and that no message of a rolled-back intake transaction is on a topic; `Isolation.PartitionsConverge` adds the assumptions of `Convergence.CrashesLeaveNoTrace`.
- `IntakeService.TransactionEventIntakeService.Accept`: an insert waits while another transaction holds the key; a database that gives up waiting is not modelled. What others do after the insert does not reach the call and is left out of its actions.
- `WorkloadPlan.Shuffle`: the seeded generator behind the draws is outside the model; `FisherYates` characterises the shuffle for all draws.
- `WorkloadPlan.BuildEventPlan`: follows the verifier script; the load generator's own loop (load-test/k6/scenarios/v3-phase3-partition-skew.js:196-212) does not fail on an empty pool but plans an undefined user.
- `Replay.ReadsPrefix`: `read`, `taken` and `calls` are history variables, not counters of the report.
- The murmur2 hash and the seeded draws are arbitrary functions; no fairness result depends on their bits.
- The other checks of the workload-manifest validator (stateful-window profile, stages, distributions, durations) and the load generator's report fields.
- `WorkloadPlan.NoHotUsers`: the report checks of the verifier script after the plan (top-user share, printing) are not modelled.
- `Evaluator.EvaluateRows`: distributions by native type, rule-code counts, the count of ALLOW decisions, sample ids, rule-version values, warnings and report assembly are not modelled; labels are visited in any order, of which sorted order is one.
- `Replay.ReplayLines`: the field-by-field validation of a row is an outcome given from outside; failure lists, sample ids, dropped fields, exclusion counters and pacing are not modelled.
- The rule version stored with every result is one constant and omitted, as is the failure stage of a DLT row.
- ASCII text: trimming, blank tests and upper-casing are modelled for ASCII only.
- The data-set preparation script and its output validator, the SQLite aggregation, privacy scans and simple load scenarios.
