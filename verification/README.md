# Transaction coordination of tx-lcn, modelled and proved in Dafny

tx-lcn lets several services (transaction clients, TC) commit or roll back together under a
transaction manager (TM). This project models the parts of it that have to be right and proves
what they promise:

- **The commit protocol** (`TransactionGroups`, `JoinInterleavings`, `TransactionSteps`, `CommitProtocol`). A client
  creates a group, its participants hold their database connections and join, the client notifies
  the outcome in a retry loop, and the manager records and broadcasts it. The handlers, the
  repository and the client's steps are classes and methods; `CommitProtocol` runs them as a step
  machine with any number of participants, messages that are delayed, reordered or lost, and
  Redis read and written in separate steps. Four lemmas tie the machine to the methods.
- **The compensation log** (`CompensationLog`). Rows are inserted on a connection that commits each
  statement and deleted inside the held business transaction.
- **Ids and nodes** (`Bits`, `Snowflakes`, `Generators`, `NodeClaims`). The 64-bit packing is done on
  words bit by bit; the generator is driven by arbitrary clock readings; nodes search a shared
  registry for a free (data center, worker) pair.
- **The lock pool** (`LockPool`, `CrossDelivery`) behind request and reply.
- **Forwarding between managers** (`Forwarding`), decided by three flags on a message.
- **SQL text** (`Placeholders`, `WhereSplice`, `StatementAnalysis`, `InsertRewrite`). Rendering is paired
  with a lexer for character literals (section 5.3 of ISO/IEC 9075-2), splicing with a parser that knows
  that NOT binds tighter than AND and AND tighter than OR, and rewritten inserts with what each column of
  a row was.

`dafny verify dfyconfig.toml` checks everything.

## What the code does that one might not expect

These are results about the code as it is; the members named show them.

- Notify is answered with the `success` flag of the request even when the group is unknown (`HandleNotify`),
  and a join is acknowledged when it is unknown (`HandleJoin`). Coverage does not depend on the "ok" text.
- Joins whose handlers overlap lose an entry, always (`AllStoredIffSerial`), so coverage holds because one initiator
  calls its participants one after another.
- A branch without log rows never commits: its delete is not valid SQL, and the exception is swallowed
  (`CrashConsistency`). A rolled back branch keeps its rows, although a comment in `LcnCommitor` says that
  they were not stored.
- A wait for the next millisecond that fails has already reset the sequence, so the generator can repeat
  itself (`FailedWaitRepeatsAStamp`); `IdsDistinctIff` gives the exact condition.
- Reusing a lock does not reset its reply, so a late reply can reach another request (`LateReplyCrossesOver`);
  `CrossDeliveryIff` gives the exact condition.
- A snowflake request whose first manager is down to one connection when the reply arrives is executed again
  (`AtMostOnce` gives the exact condition, `BodyCanRunAnyNumberOfTimes` shows how often).
- A forwarded transaction event is replaced by a blank one without a group id. The body of the other manager uses
  that id as a key of Redis and throws, so a forwarded event is lost (`ForwardedTransactionIsLost`) and never answered
  (`ForwardedTransactionNeverAnswered`). `CommitProtocol` takes the handler bodies as they run on the manager that
  executes them.
- One placeholder more than there are values is replaced, by NULL (`RenderFillsTheGaps`).
- Keys are spliced in without escaping, so a key with a quote can make a statement touch other rows
  (`KeysReadBackIff`, `QuoteInKeyEscapes`), and the appended test binds to the last disjunct
  only (`SpliceIsGraft`, `TopLevelOrEscapes`).
- An insert of several rows that lists the key column removes that column once per row, so its rows no longer
  fit (`RowsFit`, `TwoRowsMisfit`).
- A node that gives up its search is left with the pair (1, 1), which it was refused, and can repeat an id
  (`SharedPairIff`, `SameIdIffSharedPair`, `GivingUpRepeatsAnId`). `GlobalUniqueness` is about nodes whose claims went through.

## Assumptions

A transaction request waits under its group id while replies are looked up by message id. So every answer is taken to be
either missing or one that was really sent, and the safety claims hold either way.

RedisTemplate refuses a null key with an exception.

One initiator per group id; no nested annotated calls and no thrown `Error`; a participant's failure reaches the
initiator as an exception that its business code does not swallow; a claim in the registry is neither released nor
expired. In `CompensationLog`, no two branches share a log id; ids within one branch may repeat, and the save then fails.

## Model

| member | source | states |
|---|---|---|
| CommitProtocol.Agreement | txlcn-tc/src/main/java/com/codingapi/txlcn/tc/control/step/TransactionStepNotify.java:32-53 | In every run, with any number of participants and any loss, delay or reordering, two calls of commit in one group carry the same decision, and no party is told twice |
| CommitProtocol.DecisionIsTheOutcome | txlcn-tc/src/main/java/com/codingapi/txlcn/tc/control/step/TransactionStepJoin.java:52-98 | A party is told to commit only if the whole business succeeded and nothing failed, and to roll back only if it did not succeed |
| CommitProtocol.Coverage | txlcn-tm/src/main/java/com/codingapi/txlcn/tm/repository/redis/RedisTransactionGroupRepository.java:22-52 | With reads and writes of Redis interleaved freely, once the outcome is success the stored list is the requester followed by every participant whose call returned, in call order, and every broadcast goes to exactly those participants with the commit decision |
| CommitProtocol.CommitIsRecordedFirst | txlcn-tm/src/main/java/com/codingapi/txlcn/protocol/message/event/TransactionNotifyEvent.java:38-51 | The initiator commits only after the commit has been written to Redis and broadcast to every participant |
| CommitProtocol.WhoIsTold | txlcn-tc/src/main/java/com/codingapi/txlcn/tc/control/step/TransactionStepJoin.java:52-98 | In every run a branch is told to roll back if and only if its join was refused or it received a decision after a failure, and to commit if and only if it received one after a success |
| CommitProtocol.AnsweredInitiatorIsTold | txlcn-tc/src/main/java/com/codingapi/txlcn/tc/control/step/TransactionStepNotify.java:39-49 | In every run an initiator that failed is told to roll back by any answer but an exception, silence included; one that succeeded is told what the reply says, and asks again on silence |
| CommitProtocol.SomeRunCommits | txlcn-tm/src/main/java/com/codingapi/txlcn/protocol/message/event/TransactionNotifyEvent.java:34-53 | The machine is not stuck: there is a run in which initiator and participant both commit |
| CommitProtocol.RunsAreSafe | txlcn-tc/src/main/java/com/codingapi/txlcn/tc/control/step/TransactionStepNotify.java:32-53 | The whole invariant holds in every reachable state: one outcome, every branch accounted for, each party told once and rightly, the stored list complete |
| CommitProtocol.StepKeepsOutcome | txlcn-tm/src/main/java/com/codingapi/txlcn/protocol/message/event/TransactionNotifyEvent.java:38-51 | Every step keeps that all requests, stored copies, replies and broadcasts about the outcome carry the same one |
| CommitProtocol.StepKeepsAccount | txlcn-tc/src/main/java/com/codingapi/txlcn/tc/aspect/TransactionAspectContext.java:41-52 | Every step keeps that a called branch returned normally, is under call, or has made the initiator fail |
| CommitProtocol.StepKeepsTold | txlcn-tc/src/main/java/com/codingapi/txlcn/tc/control/step/TransactionStepJoin.java:52-98 | Every step keeps that each party is told at most once, and the outcome unless its join was refused |
| CommitProtocol.ManagerKeepsCovered | txlcn-tm/src/main/java/com/codingapi/txlcn/tm/repository/redis/RedisTransactionGroupRepository.java:31-52 | Every read or write of a handler, however they interleave, keeps the stored list complete while nothing has failed |
| CommitProtocol.MachineRunsTheNotifyLoop | txlcn-tc/src/main/java/com/codingapi/txlcn/tc/control/step/TransactionStepNotify.java:39-49 | Every run that is about to notify goes on, over any script of answers, to send, tell and end as the notify loop of the client does |
| CommitProtocol.MachineRunsTheParticipant | txlcn-tc/src/main/java/com/codingapi/txlcn/tc/control/step/TransactionStepJoin.java:56-66 | Every run in which a participant is running goes on with a join whatever its business outcome and whatever the manager handles meanwhile, rolls back exactly on silence, and lets the call return exactly when business and join went well |
| CommitProtocol.MachineRunsTheHandlers | txlcn-tm/src/main/java/com/codingapi/txlcn/protocol/message/event/TransactionJoinEvent.java:29-36 | The create step, and the read and the write step of a join handler with nothing in between, have the effect of the handlers on the repository |
| CommitProtocol.MachineRunsTheNotifyHandler | txlcn-tm/src/main/java/com/codingapi/txlcn/protocol/message/event/TransactionNotifyEvent.java:38-51 | The read and the write step of a notify handler with nothing in between record and broadcast what the handler does, and let the requester receive the flag of the reply the handler sends last |
| TransactionGroups.JoinersAreTheJoiners | txlcn-tm/src/main/java/com/codingapi/txlcn/tm/repository/TransactionGroup.java:40-48 | listTransaction lists an entry if and only if it is stored and is a joiner |
| TransactionGroups.RetriedNotifyIsHarmless | txlcn-tm/src/main/java/com/codingapi/txlcn/tm/repository/redis/RedisTransactionGroupRepository.java:43-52 | A notification handled again, after any operations on any groups, broadcasts and answers what it did the first time if and only if they leave the group its audience: without a re-create nobody joined a known group, with one exactly the same joined again; if none of them is a create or join of the group, the stored group is the same too |
| TransactionGroups.JoinBetweenNotifiesChangesTargets | txlcn-tm/src/main/java/com/codingapi/txlcn/tm/repository/redis/RedisTransactionGroupRepository.java:31-39 | A join between two notifications adds a target, so the previous claim needs its hypothesis |
| JoinInterleavings.AllStoredIffSerial | txlcn-tm/src/main/java/com/codingapi/txlcn/tm/repository/redis/RedisTransactionGroupRepository.java:31-39 | In every complete interleaving of the reads and writes of any number of joins, whoever joins, the group has an entry for each if and only if it is known and no two handlers overlap, and then they are there in the order of their writes; an overlap leaves it shorter |
| JoinInterleavings.StepKeepsLosing | txlcn-tm/src/main/java/com/codingapi/txlcn/tm/repository/redis/RedisTransactionGroupRepository.java:31-39 | Once two handlers have overlapped, every step keeps the group too short, a stale copy about to be written back, or two open copies |
| JoinInterleavings.OverlappingJoinsLoseOne | txlcn-tm/src/main/java/com/codingapi/txlcn/tm/repository/redis/RedisTransactionGroupRepository.java:31-39 | Where the joining connections differ, so that entries tell who joined, an overlap leaves one of some two joiners out altogether |
| JoinInterleavings.StepKeepsApart | txlcn-tm/src/main/java/com/codingapi/txlcn/tm/repository/redis/RedisTransactionGroupRepository.java:31-39 | Where the joining connections differ, two entries whose handlers overlapped are never again together in the store or in any copy |
| TransactionGroups.TransactionGroup.constructor | txlcn-tm/src/main/java/com/codingapi/txlcn/tm/repository/TransactionGroup.java:25-31 | A new group is joining and has one entry |
| TransactionGroups.TransactionGroup.Add | txlcn-tm/src/main/java/com/codingapi/txlcn/tm/repository/TransactionGroup.java:34-37 | Appends one entry and keeps the others in order |
| TransactionGroups.TransactionGroup.ListTransaction | txlcn-tm/src/main/java/com/codingapi/txlcn/tm/repository/TransactionGroup.java:40-48 | The loop returns the joiners in order |
| TransactionGroups.RedisTransactionGroupRepository.Create | txlcn-tm/src/main/java/com/codingapi/txlcn/tm/repository/redis/RedisTransactionGroupRepository.java:22-28 | Stores a new group with the requester, over anything stored under the id |
| TransactionGroups.RedisTransactionGroupRepository.Join | txlcn-tm/src/main/java/com/codingapi/txlcn/tm/repository/redis/RedisTransactionGroupRepository.java:31-39 | Adds a joiner to a known group and changes nothing for an unknown one |
| TransactionGroups.RedisTransactionGroupRepository.Notify | txlcn-tm/src/main/java/com/codingapi/txlcn/tm/repository/redis/RedisTransactionGroupRepository.java:43-52 | Records the decision and returns a fresh copy of the group, or null and no change |
| TransactionGroups.HandleCreate | txlcn-tm/src/main/java/com/codingapi/txlcn/protocol/message/event/TransactionCreateEvent.java:30-35 | The group is stored and the sender is answered ok |
| TransactionGroups.HandleJoin | txlcn-tm/src/main/java/com/codingapi/txlcn/protocol/message/event/TransactionJoinEvent.java:29-36 | The joiner is stored if the group is known; the sender is answered ok either way |
| TransactionGroups.HandleNotify | txlcn-tm/src/main/java/com/codingapi/txlcn/protocol/message/event/TransactionNotifyEvent.java:34-53 | Decision stored, sent to every joiner in order, then the reply to the sender, which echoes success even when the result is error |
| TransactionGroups.NotifyAnswersTheSender | txlcn-tm/src/main/java/com/codingapi/txlcn/protocol/message/event/TransactionNotifyEvent.java:38-51 | Last of all the sender gets a reply with the flag of its request, before that every joiner of a known group gets that flag as the decision, in order |
| TransactionGroups.Perform | txlcn-tm/src/main/java/com/codingapi/txlcn/tm/repository/redis/RedisTransactionGroupRepository.java:22-52 | The operations that RetriedNotifyIsHarmless ranges over are those of the repository |
| TransactionSteps.NotifyTellsTheOutcome | txlcn-tc/src/main/java/com/codingapi/txlcn/tc/control/step/TransactionStepNotify.java:39-49 | If replies echo the flag sent, the connection is told at most once and only the business outcome, to commit only after a reply; a failure is notified exactly once |
| TransactionSteps.NotifyStopsAtFirstAnswer | txlcn-tc/src/main/java/com/codingapi/txlcn/tc/control/step/TransactionStepNotify.java:39-49 | The loop of a success is left exactly at the first answer that is not silence |
| TransactionSteps.FailedBusinessRollsBack | txlcn-tc/src/main/java/com/codingapi/txlcn/tc/control/step/TransactionStepNotify.java:39-49 | A failed business is notified once and, unless that throws, its own connection is told to roll back |
| TransactionSteps.SilenceIsRetried | txlcn-tc/src/main/java/com/codingapi/txlcn/tc/control/step/TransactionStepNotify.java:41-44 | A success that is never answered is notified again each time and tells nothing |
| TransactionSteps.TransactionClient.RunCreate | txlcn-tc/src/main/java/com/codingapi/txlcn/tc/control/step/TransactionStepCreate.java:30-38 | One create request; it goes on exactly if there is a reply |
| TransactionSteps.TransactionClient.RunNotify | txlcn-tc/src/main/java/com/codingapi/txlcn/tc/control/step/TransactionStepNotify.java:32-53 | Requests sent, decisions told and ending are those of the notify loop over the answers; a failed business sends one request and rolls back unless it throws |
| TransactionSteps.TransactionClient.AskUntilAnswered | txlcn-tc/src/main/java/com/codingapi/txlcn/tc/control/step/TransactionStepNotify.java:39-44 | The first request and the retries: the same request until an answer or a failed business |
| TransactionSteps.TransactionClient.RunJoin | txlcn-tc/src/main/java/com/codingapi/txlcn/tc/control/step/TransactionStepJoin.java:52-67 | One join request; silence rolls back and throws, a reply starts waiting, an exception tells nothing |
| TransactionSteps.TransactionClient.AwaitDecision | txlcn-tc/src/main/java/com/codingapi/txlcn/tc/control/step/TransactionStepJoin.java:74-98 | The waiting branch is told exactly what arrived, and nothing if nothing did |
| TransactionSteps.TransactionClient.TryBeginTransaction | txlcn-tc/src/main/java/com/codingapi/txlcn/tc/control/TransactionContext.java:22-30 | Creates a group only in the create state |
| TransactionSteps.TransactionClient.TryEndTransaction | txlcn-tc/src/main/java/com/codingapi/txlcn/tc/control/TransactionContext.java:32-54 | Create becomes notify and is notified; anything else joins |
| TransactionSteps.TransactionClient.RunWithTransaction | txlcn-tc/src/main/java/com/codingapi/txlcn/tc/aspect/TransactionAspectContext.java:41-54 | Business runs only after a created group, the notified outcome is success exactly if both went well, a participant joins whatever its outcome, and the caller sees an exception exactly if business or end failed |
| CompensationLog.CrashConsistency | txlcn-tc/src/main/java/com/codingapi/txlcn/tc/control/commit/LcnCommitor.java:38-53 | At every point of every run of any number of branches after rows are saved, an effect is durable exactly when none of its rows remain, if and only if the branch has a row; without rows it never commits |
| CompensationLog.CommitIsDurable | txlcn-tc/src/main/java/com/codingapi/txlcn/tc/control/commit/LcnCommitor.java:39-44 | At every point of every run a commit makes exactly the branch's effect durable and takes exactly its rows away; no other step changes an effect, and none but an insert the rows |
| CompensationLog.SomeRunCommits | txlcn-tc/src/main/java/com/codingapi/txlcn/tc/control/commit/LcnCommitor.java:38-44 | Every branch with fresh distinct rows has a run that makes it durable and leaves no row of it |
| CompensationLog.StepKeepsBranch | txlcn-tc/src/main/java/com/codingapi/txlcn/tc/jdbc/log/TransactionLogExecutor.java:31-57 | Every step of any branch keeps that a saved branch has all of its rows before its commit and none after |
| CompensationLog.SavesAllIffFresh | txlcn-tc/src/main/java/com/codingapi/txlcn/tc/jdbc/log/TransactionLogExecutor.java:31-40 | A save goes through if and only if its ids are distinct and none is taken |
| CompensationLog.SaveStopsAtTakenId | txlcn-tc/src/main/java/com/codingapi/txlcn/tc/jdbc/log/TransactionLogExecutor.java:31-40 | A save that stops does so at the first id that is taken or repeated |
| CompensationLog.InsertFollowsSave | txlcn-tc/src/main/java/com/codingapi/txlcn/tc/jdbc/log/TransactionLogExecutor.java:34-39 | The insert steps of the machine go on and fail as a save of the remaining rows does |
| CompensationLog.SaveLog | txlcn-tc/src/main/java/com/codingapi/txlcn/tc/jdbc/log/TransactionLogExecutor.java:31-40 | Inserts the rows before the first id already taken, each durable at once, and succeeds if and only if ids are distinct and free |
| CompensationLog.DeleteLog | txlcn-tc/src/main/java/com/codingapi/txlcn/tc/jdbc/log/TransactionLogExecutor.java:52-57 | Deletes inside the held transaction only; a delete of no ids fails |
| CompensationLog.CommitConnection | txlcn-tc/src/main/java/com/codingapi/txlcn/tc/control/commit/LcnCommitor.java:39-44 | A commit makes the effect durable and takes away exactly the deleted rows, or changes nothing, depending on whether a failure is before or after the server acts |
| CompensationLog.HoldInsteadOfCommit | txlcn-tc/src/main/java/com/codingapi/txlcn/tc/jdbc/event/LcnCommitTransactionJdbcEvent.java:38-48 | The connection is held exactly if all rows were saved, the effect is not durable, and a branch with rows is then consistent |
| CompensationLog.Commit | txlcn-tc/src/main/java/com/codingapi/txlcn/tc/control/commit/LcnCommitor.java:30-60 | Throws only without a connection; on a commit decision with rows and no failure the effect is durable and its rows are gone, otherwise nothing changes; no durable state on the way in which rows and effect disagree; a closed connection cannot be committed again |
| Snowflakes.PackIsSum | txlcn-tm/src/main/java/com/codingapi/txlcn/tm/id/Snowflake.java:161-161 | With a time in range the or of the shifted fields is their sum, not negative and below 2^63 |
| Snowflakes.PackWraps | txlcn-tm/src/main/java/com/codingapi/txlcn/tm/id/Snowflake.java:161-161 | For every time, an id is a 64-bit long and its word is the sum of the fields modulo 2^64 |
| Snowflakes.UnpackInvertsPack | txlcn-tm/src/main/java/com/codingapi/txlcn/tm/id/Snowflake.java:109-131 | Worker and data center are read back from every id, the time from every id in range |
| Snowflakes.PackOrder | txlcn-tm/src/main/java/com/codingapi/txlcn/tm/id/Snowflake.java:161-161 | Ids are ordered as (time, data center, worker, sequence), in both directions |
| Snowflakes.LowBitsAlwaysHold | txlcn-tm/src/main/java/com/codingapi/txlcn/tm/id/Snowflake.java:161-161 | Whatever the clock says, even before the epoch or past 2^41 ms, the lower 22 bits are data center, worker and sequence |
| Snowflakes.MaskSequence | txlcn-tm/src/main/java/com/codingapi/txlcn/tm/id/Snowflake.java:151-151 | Masking is counting modulo 4096 |
| Bits.OrIsSum | txlcn-tm/src/main/java/com/codingapi/txlcn/tm/id/Snowflake.java:161-161 | Bitwise or of numbers that share no bit is their sum |
| Bits.AndMask | txlcn-tm/src/main/java/com/codingapi/txlcn/tm/id/Snowflake.java:109-131 | Bitwise and with k ones is the remainder modulo 2^k |
| Bits.LongOfWord | txlcn-tm/src/main/java/com/codingapi/txlcn/tm/id/Snowflake.java:161-161 | A word read as a long is the number between -2^63 and 2^63 with those bits |
| Generators.IdsIncreaseIff | txlcn-tm/src/main/java/com/codingapi/txlcn/tm/id/Snowflake.java:138-162 | With a clock in range, the ids of a generator strictly increase, whatever the clock does, if and only if no draw follows a failed wait before the clock has passed the last time stamp |
| Generators.StampsIncreaseIff | txlcn-tm/src/main/java/com/codingapi/txlcn/tm/id/Snowflake.java:138-162 | The same for the pairs of time and sequence, with no assumption on the clock |
| Generators.IdsDistinctIff | txlcn-tm/src/main/java/com/codingapi/txlcn/tm/id/Snowflake.java:138-162 | With a clock in range, no id is drawn twice if and only if the same condition holds |
| Generators.StampsDistinctIff | txlcn-tm/src/main/java/com/codingapi/txlcn/tm/id/Snowflake.java:138-162 | No pair of time and sequence is drawn twice, whatever the clock does, if and only if the same condition holds |
| Generators.IdsDecode | txlcn-tm/src/main/java/com/codingapi/txlcn/tm/id/Snowflake.java:109-131 | From every id that is drawn the decoders read worker and data center of its generator, the last twelve bits are the sequence, and a time in range is read back |
| Generators.NoFailedWaitNoRepeat | txlcn-tm/src/main/java/com/codingapi/txlcn/tm/id/Snowflake.java:181-193 | If no call fails inside the wait, that condition holds |
| Generators.FailedWaitRepeatsAStamp | txlcn-tm/src/main/java/com/codingapi/txlcn/tm/id/Snowflake.java:149-159 | A failed wait can make the generator draw the same time and sequence twice, since the sequence was already reset |
| Generators.Snowflake.Create | txlcn-tm/src/main/java/com/codingapi/txlcn/tm/id/Snowflake.java:86-101 | Construction is refused exactly outside 0 to 31; the epoch is the one given or the default |
| Generators.Snowflake.TilNextMillis | txlcn-tm/src/main/java/com/codingapi/txlcn/tm/id/Snowflake.java:181-193 | The loop returns the first reading after the last time stamp, and fails on an earlier one |
| Generators.Snowflake.Advance | txlcn-tm/src/main/java/com/codingapi/txlcn/tm/id/Snowflake.java:138-159 | A clock 2000 ms or more behind is refused, a later one starts the sequence at 0, in between the last time stamp is counted in up to 4095 and then the next millisecond awaited |
| Generators.Snowflake.GetNextId | txlcn-tm/src/main/java/com/codingapi/txlcn/tm/id/Snowflake.java:138-162 | New state of a call over the clock readings, and an id from which the decoders read the generator's worker and data center, the new sequence and the new time stamp; a refusal draws nothing |
| NodeClaims.GlobalUniqueness | txlcn-tm/src/main/java/com/codingapi/txlcn/tm/node/TmNodeInitiator.java:74-122 | In every run of any number of nodes on one registry, ids of two nodes with claims differ whatever their clocks do, and the ids of one node with a clock in range differ if and only if no draw follows a failed wait before the clock has moved on |
| NodeClaims.DistinctClaims | txlcn-tm/src/main/java/com/codingapi/txlcn/tm/node/TmNodeInitiator.java:74-93 | Two nodes whose claims went through hold different pairs |
| NodeClaims.ClaimIsAccepted | txlcn-tm/src/main/java/com/codingapi/txlcn/tm/node/TmNodeInitiator.java:85-92 | The two halves of an attempt, with anything in between, claim the pair exactly on the two answers the initiator requires, and that is exactly if no other node had set the key |
| NodeClaims.IdsNameTheNode | txlcn-tm/src/main/java/com/codingapi/txlcn/tm/id/SnowflakeHandler.java:12-13 | Every id drawn by a node with a claim decodes to the worker and data center of its pair |
| NodeClaims.SharedPairIff | txlcn-tm/src/main/java/com/codingapi/txlcn/tm/id/SnowflakeHandler.java:12-13 | Two nodes that can draw have the same pair if and only if one gave up and the other gave up too or claimed (1, 1) |
| NodeClaims.SameIdIffSharedPair | txlcn-tm/src/main/java/com/codingapi/txlcn/tm/id/SnowflakeHandler.java:12-13 | Two nodes that can draw, given up or not, draw the same id in some continuation if and only if they have the same pair |
| NodeClaims.GivingUpRepeatsAnId | txlcn-tm/src/main/java/com/codingapi/txlcn/tm/node/TmNodeInitiator.java:57-67 | There is a run in which all pairs are claimed, the next node gives up, and it draws the id the first node draws |
| NodeClaims.StepKeepsNode | txlcn-tm/src/main/java/com/codingapi/txlcn/tm/node/TmNodeInitiator.java:74-93 | Every step keeps that a node with a claim, or about to have one, is the one the registry names for its pair |
| NodeClaims.PairsAreNumbered | txlcn-tm/src/main/java/com/codingapi/txlcn/tm/node/TmNodeInitiator.java:100-122 | The numbering used below is one-to-one onto the 961 pairs and lexicographic |
| NodeClaims.NextKeyFollowsTheNumbering | txlcn-tm/src/main/java/com/codingapi/txlcn/tm/node/TmNodeInitiator.java:100-122 | nextKey is the next pair of the numbering and wraps, with the stop flag, after the last |
| NodeClaims.TmNodeInitiator.TryInit | txlcn-tm/src/main/java/com/codingapi/txlcn/tm/node/TmNodeInitiator.java:74-93 | Moves to the next pair and succeeds exactly if the registry set the key and has it |
| NodeClaims.TmNodeInitiator.Init | txlcn-tm/src/main/java/com/codingapi/txlcn/tm/node/TmNodeInitiator.java:57-67 | Against any registry: at most 962 attempts, the 961 pairs in order before the first again, success exactly at the first acceptance, giving up only after every pair was refused |
| LockPool.PoolStaysSound | txlcn-protocol/src/main/java/com/codingapi/txlcn/protocol/await/LockContext.java:67-119 | In every run the cache is bounded, the free list has no duplicates and no bound lock, no lock is bound twice, and no two waiters hold the same lock |
| CrossDelivery.CrossDeliveryIff | txlcn-protocol/src/main/java/com/codingapi/txlcn/protocol/message/Connection.java:60-75 | In a run, and however any prefix of it goes on without storing, every waiter reads nothing or a reply with its own key, if and only if every reply of the run is stored where its waiter still waits or where nobody will read it |
| CrossDelivery.StrangerReads | txlcn-protocol/src/main/java/com/codingapi/txlcn/protocol/await/LockContext.java:67-119 | A reply stored anywhere else can be read by a waiter with another key, with no further store |
| CrossDelivery.StepKeepsAllHarmless | txlcn-protocol/src/main/java/com/codingapi/txlcn/protocol/await/LockContext.java:67-119 | Every step keeps each stored reply with a waiter that asked for it or out of reach |
| CrossDelivery.TimelyIffClean | txlcn-protocol/src/main/java/com/codingapi/txlcn/protocol/message/separate/AbsMessage.java:43-49 | At every point of a run every stored reply has a waiter that asked for it, if and only if no reply of the run is stored after its waiter has cleared its lock |
| CrossDelivery.OverflowStoreIsHarmless | txlcn-protocol/src/main/java/com/codingapi/txlcn/protocol/await/LockContext.java:89-91 | A late reply in a lock outside the cache harms nobody, so being timely is not necessary |
| LockPool.NoCrossDelivery | txlcn-protocol/src/main/java/com/codingapi/txlcn/protocol/message/Connection.java:60-75 | In every run in which no reply is stored after its waiter has cleared its lock, a waiter reads nothing or a reply with its own key, however often locks are reused |
| LockPool.StoreKeepsCleanIff | txlcn-protocol/src/main/java/com/codingapi/txlcn/protocol/message/separate/AbsMessage.java:43-49 | One store keeps every stored reply with a waiter that asked for it if and only if its own waiter has not cleared its lock; CrossDelivery.TimelyIffClean is the same for whole runs |
| CrossDelivery.LateReplyCrossesOver | txlcn-protocol/src/main/java/com/codingapi/txlcn/protocol/await/Lock.java:27-34 | A late reply does reach a request with any other key once the pool reuses locks, since init does not reset the reply |
| LockPool.StepKeepsHeld | txlcn-protocol/src/main/java/com/codingapi/txlcn/protocol/await/LockContext.java:67-119 | Every step keeps the pool sound and every lock in use with exactly one waiter |
| LockPool.AddKeepsSound | txlcn-protocol/src/main/java/com/codingapi/txlcn/protocol/await/LockContext.java:67-103 | addKey keeps the pool sound |
| LockPool.GetKeepsSound | txlcn-protocol/src/main/java/com/codingapi/txlcn/protocol/await/LockContext.java:105-119 | getKey keeps the pool sound |
| LockPool.LockContext.FindRpcContent | txlcn-protocol/src/main/java/com/codingapi/txlcn/protocol/await/LockContext.java:79-92 | The head of the free list if it is not in use, else a new lock outside the cache |
| LockPool.LockContext.AddKey | txlcn-protocol/src/main/java/com/codingapi/txlcn/protocol/await/LockContext.java:67-103 | Never returns a lock another waiter still holds; fails exactly when the cache is full and nothing is free; the other locks are untouched |
| LockPool.LockContext.ClearKey | txlcn-protocol/src/main/java/com/codingapi/txlcn/protocol/await/LockContext.java:111-119 | Unbinds the key; a cached lock goes to the end of the free list |
| LockPool.LockContext.GetKey | txlcn-protocol/src/main/java/com/codingapi/txlcn/protocol/await/LockContext.java:105-109 | Returns the bound lock and unbinds it |
| LockPool.LockContext.Handle | txlcn-protocol/src/main/java/com/codingapi/txlcn/protocol/message/separate/AbsMessage.java:39-50 | A reply is stored in the lock bound to its key and in no other |
| LockPool.HandleAll | txlcn-protocol/src/main/java/com/codingapi/txlcn/protocol/message/Connection.java:66-67 | While a request waits, exactly the first reply with its key ends up in its lock, whatever else is handled |
| LockPool.FirstWithIsFirst | txlcn-protocol/src/main/java/com/codingapi/txlcn/protocol/message/Connection.java:66-67 | The reply read is the first with the key, and nothing exactly if there is none |
| LockPool.RequestReply | txlcn-protocol/src/main/java/com/codingapi/txlcn/protocol/message/Connection.java:60-75 | If the free locks hold no stale reply, a request reads the first incoming message with its key, and leaves its key bound exactly if there was none; its lock is always left unused and without a reply |
| Forwarding.AtMostOnce | txlcn-tm/src/main/java/com/codingapi/txlcn/tm/loadbalancer/EventStatusHandler.java:29-65 | In every run of a snowflake request, with any choice of the other manager and any losses: at most one hop between managers, one run of the body and one reply, with the client's message id and what the body generated, if and only if each delivery to a manager that has forwarded finds it with at least two connections |
| Forwarding.LosingConnectionsRunsTwice | txlcn-tm/src/main/java/com/codingapi/txlcn/tm/loadbalancer/LoadBalancerInterceptor.java:46-48 | A delivery that finds such a manager with one connection runs the body a second time |
| Forwarding.StepKeepsOnItsWay | txlcn-tm/src/main/java/com/codingapi/txlcn/tm/loadbalancer/EventStatusHandler.java:29-65 | Every step keeps the request in one of the five places it can be |
| Forwarding.SomeRunAnswers | txlcn-tm/src/main/java/com/codingapi/txlcn/protocol/message/event/SnowflakeCreateEvent.java:37-46 | There are runs in which a request is forwarded, executed elsewhere and answered |
| Forwarding.BodyCanRunAnyNumberOfTimes | txlcn-tm/src/main/java/com/codingapi/txlcn/tm/loadbalancer/LoadBalancerInterceptor.java:46-48 | With both managers down to one connection the body of a snowflake event can run any number of times |
| Forwarding.TransactionAtMostOnce | txlcn-tm/src/main/java/com/codingapi/txlcn/tm/loadbalancer/EventStatusHandler.java:29-65 | In every run of a transaction event, whatever connections are left: at most one hop, its body is entered at most once, and at most one reply, which is the request itself |
| Forwarding.ForwardedTransactionNeverAnswered | txlcn-tm/src/main/java/com/codingapi/txlcn/tm/loadbalancer/EventStatusHandler.java:73-88 | In every run a transaction event has been answered if and only if its body was entered, it was not forwarded and it has a group id; once forwarded, only the blank event is ever on the network, and a body it reaches throws |
| Forwarding.ForwardedTransactionIsLost | txlcn-tm/src/main/java/com/codingapi/txlcn/tm/loadbalancer/EventStatusHandler.java:73-88 | A run in which the blank event reaches the other manager's body, which throws, and nothing is answered |
| Forwarding.DeliverIsDispatch | txlcn-tm/src/main/java/com/codingapi/txlcn/tm/loadbalancer/LoadBalancerInterceptor.java:42-54 | A delivery in the machine sends and runs what the dispatch does, up to its wait |
| Forwarding.ResumeIsRestOfDispatch | txlcn-tm/src/main/java/com/codingapi/txlcn/tm/reporter/TmManagerReporter.java:111-121 | With the reply, the machine sends what the dispatch sends after forwarding |
| Forwarding.LoadBalancerInterceptor.Execute | txlcn-tm/src/main/java/com/codingapi/txlcn/protocol/message/event/SnowflakeCreateEvent.java:37-46 | Body: of a snowflake event, generate, set both flags, send back; of a transaction event, send back, or throw without a group id |
| Forwarding.LoadBalancerInterceptor.OnFirstNode | txlcn-tm/src/main/java/com/codingapi/txlcn/tm/loadbalancer/EventStatusHandler.java:29-41 | Forwards a blank message, takes over the reply under the own id, throws without one |
| Forwarding.LoadBalancerInterceptor.OnBusinessExecuted | txlcn-tm/src/main/java/com/codingapi/txlcn/tm/loadbalancer/EventStatusHandler.java:44-49 | Runs the body exactly if neither flag is set, and throws if it does |
| Forwarding.LoadBalancerInterceptor.OnReadyCallBack | txlcn-tm/src/main/java/com/codingapi/txlcn/tm/loadbalancer/EventStatusHandler.java:52-59 | Calls the client back exactly if both flags are set |
| Forwarding.LoadBalancerInterceptor.Handle | txlcn-tm/src/main/java/com/codingapi/txlcn/tm/loadbalancer/LoadBalancerInterceptor.java:42-54 | The three steps in order over one mutable message have exactly the effects of the flag table |
| Placeholders.RenderThenLex | txlcn-p6spy/src/main/java/com/codingapi/txlcn/p6spy/common/PreparedStatementInformation.java:44-64 | For every template with closed literals and no placeholder inside one, the rendered text lexes to the tokens with each placeholder replaced by its value's tokens, touching literals merged; exactly those tokens if and only if no two literals touch |
| Placeholders.QuotedValuesReadBackIff | txlcn-p6spy/src/main/java/com/codingapi/txlcn/p6spy/common/PreparedStatementInformation.java:44-64 | With quoted values for all placeholders, each token reads back and the i-th placeholder is one literal whose unescaped content is the i-th value, if and only if no placeholder touches a quote or another placeholder |
| Placeholders.RenderFillsTheGaps | txlcn-p6spy/src/main/java/com/codingapi/txlcn/p6spy/common/PreparedStatementInformation.java:51-61 | Character by character rendering is the pieces of the template in order with the i-th gap filled by value i or NULL, for the first size+1 gaps |
| Placeholders.FillOf | txlcn-p6spy/src/main/java/com/codingapi/txlcn/p6spy/common/PreparedStatementInformation.java:53-57 | A gap up to the one after the last value gets its value or NULL, a later one stays |
| Placeholders.TextOf | txlcn-p6spy/src/main/java/com/codingapi/txlcn/p6spy/common/Value.java:80-167 | The text of each kind of value; only strings and bytes are quoted |
| Placeholders.EscapeOf | txlcn-p6spy/src/main/java/com/codingapi/txlcn/p6spy/common/Value.java:177-179 | A quote is doubled, anything else is kept |
| Placeholders.PiecesJoinBack | txlcn-p6spy/src/main/java/com/codingapi/txlcn/p6spy/common/PreparedStatementInformation.java:51-61 | Splitting into pieces loses nothing of the template |
| Placeholders.PreparedStatementInformation.GetSqlWithValues | txlcn-p6spy/src/main/java/com/codingapi/txlcn/p6spy/common/PreparedStatementInformation.java:44-64 | The loop computes that rendering for every template and every parameter map, with gaps or not |
| Placeholders.PreparedStatementInformation.SetParameterValue | txlcn-p6spy/src/main/java/com/codingapi/txlcn/p6spy/common/PreparedStatementInformation.java:71-73 | Positions count from 1 |
| Placeholders.ToHexString | txlcn-p6spy/src/main/java/com/codingapi/txlcn/p6spy/common/Value.java:127-135 | The loop writes two digits for each byte |
| Placeholders.HexRoundTrip | txlcn-p6spy/src/main/java/com/codingapi/txlcn/p6spy/common/Value.java:127-135 | Reading the digits gives the bytes back |
| Placeholders.LexOfPrint | txlcn-p6spy/src/main/java/com/codingapi/txlcn/p6spy/common/Value.java:144-179 | Printing tokens with quotes doubled and lexing again changes nothing but merging touching literals |
| Placeholders.PrintOfLex | txlcn-p6spy/src/main/java/com/codingapi/txlcn/p6spy/common/Value.java:144-179 | What lexes is the print of its tokens |
| Placeholders.ScanInvertsEscape | txlcn-p6spy/src/main/java/com/codingapi/txlcn/p6spy/common/Value.java:177-179 | Reading a literal undoes escape |
| WhereSplice.SpliceIsGraft | txlcn-tc/src/main/java/com/codingapi/txlcn/tc/jdbc/sql/analyse/MysqlSqlDetailAnalyse.java:116-116 | For every where clause, appending an and-test to its text is parsed as the test conjoined to the last disjunct only |
| WhereSplice.SplicingKeepsMeaning | txlcn-tc/src/main/java/com/codingapi/txlcn/tc/jdbc/sql/analyse/MysqlSqlDetailAnalyse.java:112-145 | For every where clause, on the rows the keys were read from, the spliced text selects exactly what the clause selects under three-valued logic |
| WhereSplice.ReplayConfinedIff | txlcn-tc/src/main/java/com/codingapi/txlcn/tc/jdbc/sql/analyse/MysqlSqlDetailAnalyse.java:112-145 | On any later rows the rewritten clause touches only captured keys, if and only if there is no top-level OR or all rows selected by the disjuncts before the last are captured |
| WhereSplice.TopLevelOrEscapes | txlcn-tc/src/main/java/com/codingapi/txlcn/tc/jdbc/sql/analyse/MysqlSqlDetailAnalyse.java:116-116 | A clause with a top-level OR does touch rows added later |
| WhereSplice.UncapturedRows | txlcn-tc/src/main/java/com/codingapi/txlcn/tc/jdbc/sql/analyse/MysqlSqlDetailAnalyse.java:116-116 | On a row that was not captured the rewritten clause is its disjuncts before the last |
| WhereSplice.GraftNarrows | txlcn-tc/src/main/java/com/codingapi/txlcn/tc/jdbc/sql/analyse/MysqlSqlDetailAnalyse.java:116-116 | On a captured key nothing changes, on any row nothing more is selected |
| WhereSplice.ParseOfPrint | txlcn-tc/src/main/java/com/codingapi/txlcn/tc/jdbc/sql/analyse/MysqlSqlDetailAnalyse.java:100-100 | Parsing inverts printing at every precedence level, whatever text follows that does not continue the expression |
| WhereSplice.PrintOfParse | txlcn-tc/src/main/java/com/codingapi/txlcn/tc/jdbc/sql/analyse/MysqlSqlDetailAnalyse.java:100-100 | What is parsed prints back to its tokens and obeys the precedence |
| WhereSplice.EveryClauseHasAText | txlcn-tc/src/main/java/com/codingapi/txlcn/tc/jdbc/sql/analyse/MysqlSqlDetailAnalyse.java:100-100 | Every expression of the grammar is some text's where clause, so the claims above range over all of them |
| WhereSplice.Precedences | txlcn-tc/src/main/java/com/codingapi/txlcn/tc/jdbc/sql/analyse/MysqlSqlDetailAnalyse.java:100-100 | On text: NOT binds tighter than AND, AND tighter than OR |
| WhereSplice.TruthTables | txlcn-tc/src/main/java/com/codingapi/txlcn/tc/jdbc/sql/analyse/MysqlSqlDetailAnalyse.java:100-100 | Three-valued logic: AND is the lesser, OR the greater, NOT turns the order round |
| WhereSplice.CapturedIff | txlcn-tc/src/main/java/com/codingapi/txlcn/tc/jdbc/sql/strategy/mysql/MysqlUpdateAnalyseStrategy.java:52-53 | A key is captured exactly if a selected row has it |
| WhereSplice.CapturedInOrder | txlcn-tc/src/main/java/com/codingapi/txlcn/tc/jdbc/sql/strategy/mysql/MysqlUpdateAnalyseStrategy.java:52-53 | Keys are captured row by row in the order of the rows |
| StatementAnalysis.SplicingNewSql | txlcn-tc/src/main/java/com/codingapi/txlcn/tc/jdbc/sql/analyse/MysqlSqlDetailAnalyse.java:112-145 | The loop appends the keys in order, separated, quoted exactly unless their type is an integer |
| StatementAnalysis.KeyTexts | txlcn-tc/src/main/java/com/codingapi/txlcn/tc/jdbc/sql/analyse/MysqlSqlDetailAnalyse.java:119-136 | Keys are put between quotes unless their type is one of the four integers |
| StatementAnalysis.SplicedTexts | txlcn-tc/src/main/java/com/codingapi/txlcn/tc/jdbc/sql/analyse/MysqlSqlDetailAnalyse.java:116-143 | The exact text appended for one key and for two |
| StatementAnalysis.ContainsIff | txlcn-tc/src/main/java/com/codingapi/txlcn/tc/jdbc/sql/strategy/chan/CheckWhereContainsPkFilter.java:12-15 | The filter on the where text passes exactly if the key's name occurs somewhere in it |
| StatementAnalysis.KeysReadBackIff | txlcn-tc/src/main/java/com/codingapi/txlcn/tc/jdbc/sql/analyse/MysqlSqlDetailAnalyse.java:112-145 | The rewritten text, lexed and read as the original followed by a membership test, tests exactly the captured keys if and only if neither the column nor a key contains a quote |
| StatementAnalysis.SplicedLexesIff | txlcn-tc/src/main/java/com/codingapi/txlcn/tc/jdbc/sql/analyse/MysqlSqlDetailAnalyse.java:116-144 | The rewritten text lexes to the tokens of the original and of the test if and only if no quote is among column and keys |
| StatementAnalysis.ReadInvertsKeys | txlcn-tc/src/main/java/com/codingapi/txlcn/tc/jdbc/sql/analyse/MysqlSqlDetailAnalyse.java:118-142 | Reading a list of keys gives the keys written |
| StatementAnalysis.KeysInvertRead | txlcn-tc/src/main/java/com/codingapi/txlcn/tc/jdbc/sql/analyse/MysqlSqlDetailAnalyse.java:118-142 | What reads as a list of keys is that list written |
| StatementAnalysis.QuoteInKeyIsMisread | txlcn-tc/src/main/java/com/codingapi/txlcn/tc/jdbc/sql/analyse/MysqlSqlDetailAnalyse.java:124-124 | A concrete key with quotes reads back as two other keys |
| StatementAnalysis.QuoteInKeyEscapes | txlcn-tc/src/main/java/com/codingapi/txlcn/tc/jdbc/sql/analyse/MysqlSqlDetailAnalyse.java:124-124 | With that key, a statement with one comparison that the analysis rewrites, on the rows that yield the key, comes to touch a row whose key was not captured |
| StatementAnalysis.Analyse | txlcn-tc/src/main/java/com/codingapi/txlcn/tc/jdbc/sql/strategy/mysql/MysqlUpdateAnalyseStrategy.java:39-60 | Rewritten exactly if the filters pass and a row is selected; the text reads back as the test on the captured keys exactly if no quote is among them, and then selects the same rows now and, without a top-level OR, no row with another key ever |
| InsertRewrite.Analyse | txlcn-tc/src/main/java/com/codingapi/txlcn/tc/jdbc/sql/strategy/mysql/MysqlInsertAnalyseStrategy.java:56-66 | How an analysis ends, exactly; a rewritten statement keeps every row, row i with key i, if and only if there is one row or no key column |
| InsertRewrite.EndsAsMeans | txlcn-tc/src/main/java/com/codingapi/txlcn/tc/jdbc/sql/analyse/MysqlSqlDetailAnalyse.java:53-62 | With a key column: rewritten if and only if every row is NULL there, the name can be removed once per row and there are keys for all rows; the original is kept if and only if the row that stops the loop sets its key |
| InsertRewrite.TwoRowsMisfit | txlcn-tc/src/main/java/com/codingapi/txlcn/tc/jdbc/sql/analyse/MysqlSqlDetailAnalyse.java:54-61 | Two rows of three columns that list the key as NULL are rewritten, and no longer fit |
| InsertRewrite.FindKeyColumn | txlcn-tc/src/main/java/com/codingapi/txlcn/tc/jdbc/sql/strategy/mysql/MysqlInsertAnalyseStrategy.java:56-62 | The first column with the key's name ignoring case, or -1 exactly if there is none |
| InsertRewrite.IsNullText | txlcn-tc/src/main/java/com/codingapi/txlcn/tc/jdbc/sql/analyse/MysqlSqlDetailAnalyse.java:34-34 | A NULL is recognised in any case, and only by its four letters |
| Names.SameUpper | txlcn-tc/src/main/java/com/codingapi/txlcn/tc/jdbc/sql/strategy/mysql/MysqlInsertAnalyseStrategy.java:58-58 | Names are compared as equal exactly up to the case of their letters |
| InsertRewrite.SingleInsertAnalyse | txlcn-tc/src/main/java/com/codingapi/txlcn/tc/jdbc/sql/analyse/MysqlSqlDetailAnalyse.java:29-47 | Keeps the original exactly if the row sets its key, fails exactly if no key was generated, else the key column moves to the end with the generated key |
| InsertRewrite.MultiInsertAnalyse | txlcn-tc/src/main/java/com/codingapi/txlcn/tc/jdbc/sql/analyse/MysqlSqlDetailAnalyse.java:50-72 | For several rows: exactly when they are rewritten, and what columns and rows become, with the key column removed once for every row |
| InsertRewrite.RemoveKeyColumn | txlcn-tc/src/main/java/com/codingapi/txlcn/tc/jdbc/sql/analyse/MysqlSqlDetailAnalyse.java:53-62 | The loop that takes the key column out of rows and columns: after how many rows it stops, why, and what it leaves |
| InsertRewrite.AppendKeys | txlcn-tc/src/main/java/com/codingapi/txlcn/tc/jdbc/sql/analyse/MysqlSqlDetailAnalyse.java:67-69 | Row i gets generated key i; fails exactly with fewer keys than rows |
| InsertRewrite.MovedKeyKeepsRow | txlcn-tc/src/main/java/com/codingapi/txlcn/tc/jdbc/sql/analyse/MysqlSqlDetailAnalyse.java:37-44 | Moving the key column to the end keeps what every other column gives, and the key column gives the generated key only |
| InsertRewrite.RowsWithoutKeyAreKept | txlcn-tc/src/main/java/com/codingapi/txlcn/tc/jdbc/sql/analyse/MysqlSqlDetailAnalyse.java:66-69 | Any number of rows without the key column keep their values, get their own key and stay as wide as the columns |
| InsertRewrite.RowsFit | txlcn-tc/src/main/java/com/codingapi/txlcn/tc/jdbc/sql/analyse/MysqlSqlDetailAnalyse.java:54-69 | What several rows become belongs to the original if and only if there is one row or no key column |

## Left out

- Network plumbing: Netty bootstrap, channels, heartbeats, reconnection, and Spring, Lombok, JSON and Redis serialisation.
- Liveness: a participant that times out is left undecided by the code and stays so in the model; nothing says that an answer arrives.
- TransactionSteps.TransactionClient.RunNotify: the answers are a finite script and a call still retrying at its end is reported as such, because the loop of the code has no bound.
- TransactionSteps.TransactionClient.AwaitDecision: the event that arrives is an input; the lock it waits on is modelled in LockPool, not joined to it here.
- The client's cache, which reuses one group id and one log id: ids are inputs, fresh for every group and row.
- Time stamps of group entries, log messages, and the hooks around each step.
- LockPool.RequestReply: incoming messages are handled one after another while the request waits; the condition variable, interrupts and time-outs are not modelled beyond "nothing arrived". The channel being closed is left out.
- CrossDelivery.CrossDeliveryIff and LockPool.PoolStaysSound: steps are whole methods; the race between the two halves of getKey is left out.
- NodeClaims.TmNodeInitiator.Init: the registry's answers are an input; lease times, expiry, renewal and release are left out.
- Generators.Snowflake.GetNextId: clock readings are an input, and the difference of two readings is not wrapped to 64 bits.
- The choice of the least loaded manager, which the code overwrites with the first connection: the chosen one is arbitrary.
- Forwarding.AtMostOnce and Forwarding.TransactionAtMostOnce: one request at a time is followed.
- The SQL parser and the MySQL engine: XOR, joins, ORDER BY and LIMIT after the where clause, and backslash escapes in literals. A statement is its text and its where clause.
- Values whose text the runtime decides (numbers, dates, other objects) are given by that text.
- StatementAnalysis.Analyse: the state the keys are read from is the state the analysis runs on; that the code analyses a statement on the connection it was just executed on is not followed. The delete strategy is the same text as the update strategy and is not repeated.
- InsertRewrite.Analyse: executing the insert to obtain the keys, and rolling it back, are left out; the generated keys are an input. A statement has a row, as wide as its column list, and column names differ.
- InsertRewrite.MultiInsertAnalyse: with a key column and several rows it says what the code does, not that rows are kept, because they are not.
- StatementAnalysis.WhereRead: that the unchanged part of a rewritten text has the where clause the parser found in the original is taken from the parser; the test is read with a literal for a quoted key type and a number for an integer one, not with MySQL's implicit conversions.
- StatementAnalysis.KeyText: a key of a type that is quoted but is no string makes the code's cast throw; here every key has a text. Keys of integer types are texts of integers.
- InsertRewrite.RemoveKeyColumn: the loop body's second half is a method of its own, CutRow.
- The p6spy wrappers and listeners, and ProxyConnection, which delegate.
