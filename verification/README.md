# Verification of the Indy node, its CLI and the account chaincode

This project models the stateful parts of the repository and proves what they keep over whole runs:

- **Upgrade scheduler** (`UpgradeModel`, `UpgradeRuns`, `UpgradeReplay`, `UpgradeIds`, `UpgradeEffects`,
  `UpgraderObject`, `UpgradeSchedule`): the scheduled upgrade, the pending timed calls, the requests to the control tool and the append-only action log, under
  transactions, timers, failed sends, restarts and cold replay of the config ledger.
- **Revocation registries** (`Revocation`, `RevocationLedger`): the two issuance strategies, their validation, merge
  and delta, and the records of many registries in one state.
- **Pool version voting** (`PoolVersion`, `Releases`): votes, adoption, the history of versions, and releases compared as
  text.
- **Authorization** (`AuthConstraints`, `ConstraintDicts`, `Authorization`, `RoleRules`, `ActionLists`,
  `Authorizers`, `AuthRules`, `RuleActions`): constraint trees evaluated through raised errors, their dictionary form, and wildcard rule lookup.
- **CLI parser** (`CliParser`, `CliLines`): the quote-aware word splitter and the parameter parser.
- **Account chaincode** (`AccountBook`, `Accounts`, `AccountCalls`, `ChainCode`): 32-bit balances kept as strings.
- **Ledger migration and script selection** (`RegistryIds`, `Migrations`).

`Common`, `Text` and `StableSort` hold what the source takes from its languages: options and results, splitting and
joining of strings, decimal numerals, string order and stable sorting.

Objects that the source updates in place are classes whose methods are proved against a function on values; the
theorems are about those functions and about all runs of them. Times, versions' comparison, date parsing, escape
decoding, installed packages and the outcome of sending are parameters.

Where the code does not do what one would expect, a failing input is given and the exact condition is proved for all
inputs:

- replay against incremental handling (`ReplayAgreesExactly`; `ReplayMissesEarlierStart`);
- a performed upgrade that a restart schedules again (`PerformedUpgradeReturnsExactly`; `ForcedStartBringsUpgradeBack`);
- a scheduled upgrade that vanishes without a record (`UpgradeVanishesExactly`; `LaterUpgradeIsLost`), with the early
  return of the time-limit check shown dead (`TimeLimitAlwaysUnschedules`);
- validation that checks only the first action of a list (`VerdictTrustedExactly`; `ForbiddenBehindAllowed`); every
  request handler passes a list of one action (for example
  indy-node/indy_node/server/request_handlers/domain_req_handlers/nym_handler.py:101 and
  indy-node/indy_node/server/request_handlers/pool_req_handlers/node_handler.py:81), so the condition holds for them
  (`OneActionIsTrusted`);
- one more signature that rejects a request (`MoreSignaturesExactly`; `ExtraSignatureCanReject`);
- votes for a newer release discarded by string order (`VotesSurviveExactly`; `NewerReleaseLosesVotes`);
- a remittance that changes the total (`RemitKeepsTotalExactly`; `SelfRemitCreatesMoney`);
- a rewritten reference that no longer points to its definition (`ReferencesPreservedExactly`, `EntryPointsExactly`;
  `ForeignReferenceDangles`), and definitions that collide (`DefinitionsCollideExactly`; `DistinctRegistriesCanMerge`);
- upgrade ids that two STARTs share (`SharedIdExactly`, `LaterStartIsScheduledExactly`; `SharedIdHidesUpgrade`);
- indices that leave the record without being mentioned, as when the issuance type is changed (`IndicesRememberedExactly`,
  `LaterEntriesRememberedExactly`; `RevokedIndexIsForgotten`, `FirstIssuedIndexIsForgotten`);
- an action that finds no rule because its text holds the delimiter (`EveryEditFindsItsRule`, `EveryAddFindsItsRule`;
  `DashedAttributeRaises`);
- a repeated parameter that is not refused (`RepeatRefusedExactly`; `DeferredMayRepeat`);
- the scripts of a downgrade, which come in ascending order (`ConsecutiveInOrderExactly`; `DowngradeRunsBackwards`).

Run `dafny verify dfyconfig.toml` to check everything.

## Model

| member | source | states |
|---|---|---|
| `UpgradeRuns.EveryRunIsSafe` | indy-node/indy_node/server/upgrader.py:250-454 | In every reachable state, across restarts: an agent call is pending exactly for the scheduled upgrade and only once, the log then ends with that schedule, every started or cancelled record directly follows the schedule of the same upgrade, every succeeded or failed record directly follows its start, timers belong to started upgrades, and nothing is pending once an upgrade is closed |
| `UpgradeRuns.StepKeepsInv` | indy-node/indy_node/server/upgrader.py:250-454 | Each kind of step (transaction, batch, replay, timer, send, time limit, restart) keeps that invariant |
| `UpgradeRuns.HandleKeepsInv` | indy-node/indy_node/server/upgrader.py:250-331 | Handling any transaction keeps the invariant |
| `UpgradeRuns.AgentKeepsInv` | indy-node/indy_node/server/upgrader.py:398-413 | The agent call keeps the invariant, so a start is always preceded by its own schedule |
| `UpgradeRuns.SendKeepsInv` | indy-node/indy_node/server/upgrader.py:415-438 | Finishing a request keeps the invariant, delivered or not |
| `UpgradeRuns.TimeoutKeepsInv` | indy-node/indy_node/server/upgrader.py:440-454 | The time-limit check keeps the invariant |
| `UpgradeRuns.RestartKeepsInv` | indy-node/indy_node/server/node_maintainer.py:59-64 | Start-up from any surviving log keeps the invariant |
| `UpgradeRuns.EveryScheduleIsAccountedFor` | indy-node/indy_node/server/upgrader.py:333-454 | Over every run each scheduled record of an upgrade is matched by exactly one start, one cancellation, one silent drop, or still stands |
| `UpgradeRuns.StepAccounts` | indy-node/indy_node/server/upgrader.py:333-454 | One step moves that balance by the schedule it drops silently, and by nothing else |
| `UpgradeRuns.TimeLimitAlwaysUnschedules` | indy-node/indy_node/server/upgrader.py:440-454 | The early return of the time-limit check is never taken in a reachable state, so the check always unschedules |
| `UpgradeRuns.StartRunWaits` | indy-node/indy_node/server/upgrader.py:398-438 | A run that ends waiting for a time limit, for every START |
| `UpgradeRuns.UpgradeVanishesExactly` | indy-node/indy_node/server/upgrader.py:415-454 | In every reachable state a scheduled upgrade leaves the schedule with nothing written to the log if and only if the step is a restart, a time limit, or a request that could not be sent |
| `UpgradeRuns.LaterUpgradeIsLost` | indy-node/indy_node/server/upgrader.py:440-454 | Whenever an upgrade waits and nothing is scheduled, a newly scheduled upgrade is dropped without a cancellation record when the waiting one exceeds its limit |
| `UpgradeReplay.ReplayAgreesExactly` | indy-node/indy_node/server/upgrader.py:152-181 | For every unforced ledger, cold replay and incremental handling leave the same upgrade scheduled if and only if the last START either concerns the node and a later CANCEL repeats its version string just when a valid CANCEL denotes its version, or does not concern the node and no earlier START is live; without a START they always agree |
| `UpgradeReplay.ReplayAgrees` | indy-node/indy_node/server/upgrader.py:152-181 | So they agree on every unforced ledger with canonical version strings whose STARTs concern the node |
| `UpgradeReplay.IncrementalSchedulesLive` | indy-node/indy_node/server/upgrader.py:281-327 | Incremental handling without timers schedules exactly the last START for the node that no later CANCEL of its version follows, for every unforced ledger |
| `UpgradeReplay.HandleSchedules` | indy-node/indy_node/server/upgrader.py:281-327 | What one transaction leaves scheduled while the log holds no outcome |
| `UpgradeReplay.ReplaySchedules` | indy-node/indy_node/server/upgrader.py:163-181 | For every ledger cold replay schedules the last START if it concerns the node and no later CANCEL repeats its version string, and otherwise nothing |
| `UpgradeReplay.ReplayMissesEarlierStart` | indy-node/indy_node/server/upgrader.py:281-286 | A last START that leaves the node out makes replay schedule nothing while the earlier START stays scheduled incrementally |
| `UpgradeReplay.RestartResumesExactly` | indy-node/indy_node/server/upgrader.py:288-295 | After restart and replay the last START is scheduled if and only if it is not cancelled and the closed log does not end with its outcome |
| `UpgradeReplay.PerformedUpgradeReturnsExactly` | indy-node/indy_node/server/upgrader.py:288-295 | Over every run, an upgrade that was performed and is the last START of the ledger is scheduled again by restart and replay if and only if no later CANCEL repeats its version string and some upgrade was scheduled after it started; only the last record of the log is looked at |
| `UpgradeReplay.PerformedLastExactly` | indy-node/indy_node/server/upgrader.py:288-295 | In an explained log the last record is the start or outcome of an upgrade id, once closed at start-up, exactly when nothing was scheduled since its last start |
| `UpgradeReplay.ForcedStartBringsUpgradeBack` | indy-node/indy_node/server/request_handlers/config_req_handlers/pool_upgrade_handler.py:102-105 | A run in which a performed upgrade is scheduled again: a forced START is handled before it is in the ledger, and the next restart replays the ledger without it |
| `UpgradeReplay.StartedUpgradeIsNotRepeated` | indy-node/indy_node/server/upgrader.py:288-295 | An upgrade whose start is the last record of the log when the node goes down is not performed again by replay, whether it succeeded or failed |
| `UpgradeIds.SharedIdExactly` | indy-node/indy_node/server/upgrader.py:55-60 | Two STARTs, forced or not, have the same upgrade id if and only if one request id goes on after the other by the digits that what follows the other begins with |
| `UpgradeIds.IdIdentifiesStart` | indy-node/indy_node/server/upgrader.py:55-60 | With request ids of the same length, ids are equal if and only if request id and sequence number are |
| `UpgradeIds.LaterStartIsScheduledExactly` | indy-node/indy_node/server/upgrader.py:288-295 | After an upgrade was performed and the node restarted, a START is scheduled if and only if its id is another |
| `UpgradeIds.SharedIdHidesUpgrade` | indy-node/indy_node/server/upgrader.py:288-295 | Request 12 at number 3 shares its id with request 1 at number 23 and with a forced request 123, so the later one is taken for performed and not scheduled |
| `UpgradeEffects.RestartClosesExactly` | indy-node/indy_node/server/upgrader.py:74-106 | After any run, a restart closes an upgrade whose start is the last record as succeeded if and only if the installed version of its package is its version, and as failed otherwise; it leaves any other log alone, and no schedule, call or request survives |
| `UpgradeEffects.StartOnIdleNode` | indy-node/indy_node/server/upgrader.py:281-327 | The whole effect of a START on an idle node, on the fields of the transaction: time on this node, version, id and package of the upgrade, its call with the time limit named or ten minutes, and the record |
| `UpgradeEffects.StartReplaces` | indy-node/indy_node/server/upgrader.py:305-327 | A START while another upgrade is scheduled cancels that one on record, empties the queue and schedules the new one |
| `UpgradeEffects.StartDisregarded` | indy-node/indy_node/server/upgrader.py:272-295 | A START that leaves the node out, whose version is not valid, or whose outcome is the last record changes nothing |
| `UpgradeEffects.CancelEffect` | indy-node/indy_node/server/upgrader.py:323-331 | A CANCEL of the scheduled version empties schedule and queue on record; any other changes nothing |
| `UpgradeEffects.HandleIsIdempotent` | indy-node/indy_node/server/upgrader.py:250-331 | Handling any transaction a second time changes nothing |
| `UpgradeEffects.ForcedAreSkipped` | indy-node/indy_node/server/request_handlers/config_batch_handler.py:18-28 | A batch does what its unforced transactions do alone |
| `UpgradeEffects.BatchesCompose` | indy-node/indy_node/server/request_handlers/config_batch_handler.py:18-28 | Two batches do what they do as one |
| `UpgradeEffects.SendEffect` | indy-node/indy_node/server/upgrader.py:415-438 | A request that gets through in one of three attempts sets the time limit of its upgrade and leaves the schedule; otherwise schedule and queue are emptied |
| `UpgradeEffects.AgentEffect` | indy-node/indy_node/server/upgrader.py:398-413 | In any run, the timer of an upgrade records its start, empties the schedule, and sends its request with its own time limit |
| `UpgraderObject.Upgrader.constructor` | indy-node/indy_node/server/upgrader.py:74-106 | Start-up closes a started upgrade as succeeded exactly when the installed version is its version, and begins with nothing scheduled |
| `UpgraderObject.Upgrader.CancelScheduledUpgrade` | indy-node/indy_node/server/upgrader.py:360-396 | Whole new state of a cancellation; no effect when nothing is scheduled |
| `UpgraderObject.Upgrader.ScheduleUpgrade` | indy-node/indy_node/server/upgrader.py:333-358 | Whole new state of scheduling |
| `UpgraderObject.Upgrader.HandleUpgradeTxn` | indy-node/indy_node/server/upgrader.py:250-331 | Whole new state for every transaction, valid or not |
| `UpgraderObject.Upgrader.CallUpgradeAgent` | indy-node/indy_node/server/upgrader.py:398-413 | Whole new state when the timer of an upgrade fires |
| `UpgraderObject.Upgrader.SendUpgradeRequest` | indy-node/indy_node/server/upgrader.py:415-438 | The retry loop fails exactly when no attempt within the limit succeeds |
| `UpgraderObject.Upgrader.DeclareTimeoutExceeded` | indy-node/indy_node/server/upgrader.py:440-454 | Whole new state when the time limit is checked |
| `UpgraderObject.Upgrader.GetUpgradeTxn` | indy-node/indy_node/server/upgrader.py:127-149 | The loop ends and finds the last match going down or the first match going up, or nothing when there is none |
| `UpgraderObject.Upgrader.ProcessLedger` | indy-node/indy_node/server/upgrader.py:152-181 | The two searches together compute cold replay |
| `UpgraderObject.Upgrader.CommitBatch` | indy-node/indy_node/server/request_handlers/config_batch_handler.py:18-28 | A committed batch is handled in order, without its forced transactions |
| `UpgradeSchedule.IsScheduleValid` | indy-node/indy_node/server/upgrader.py:479-512 | An unforced schedule is valid if and only if its nodes are the non-demoted nodes, all dates parse, all are after now, and any two nodes are at least the separation apart; a forced one if and only if all dates parse |
| `UpgradeSchedule.NeighboursDecide` | indy-node/indy_node/server/upgrader.py:505-512 | Comparing neighbours of the sorted times decides all pairs, with equal times counted by position |
| `Revocation.StrategiesBisimulate` | indy-node/indy_node/server/revocation_strategy.py:99-204 | From complementary entries the two strategies stay complementary over every run of later entries over the universe |
| `Revocation.StrategiesAgree` | indy-node/indy_node/server/revocation_strategy.py:99-182 | At every point of such a run they accept or reject the same entry |
| `Revocation.StrategiesReportSameDelta` | indy-node/indy_node/server/revocation_strategy.py:148-212 | Between any two points of such a run they report the same issued and revoked sets |
| `Revocation.BothAcceptOnlyWithin` | indy-node/indy_node/server/revocation_strategy.py:102-182 | Outside the universe they cannot both accept: both accept exactly when one does and the indices lie in it |
| `Revocation.DeltaOfEntry` | indy-node/indy_node/server/revocation_strategy.py:126-154 | The delta across an accepted entry is exactly the entry's issued and revoked sets |
| `Revocation.DeltaLaws` | indy-node/indy_node/server/revocation_strategy.py:148-212 | A delta is disjoint, turns the earlier kept set into the later one, and adjacent deltas compose |
| `Revocation.DeltaOverRun` | indy-node/indy_node/server/revocation_strategy.py:126-212 | Over every run the delta between its ends is the composition of exactly the accepted entries |
| `Revocation.DeltaFromStart` | indy-node/indy_node/server/revocation_strategy.py:148-151 | The delta without a start equals the delta from an empty registry exactly when the other list is empty, as it is after every later entry |
| `Revocation.AcceptedExactly` | indy-node/indy_node/server/revocation_strategy.py:25-74 | Exactly which entries are accepted, for both strategies and with or without a current entry |
| `Revocation.RejectionIsTrue` | indy-node/indy_node/server/revocation_strategy.py:25-74 | The reason for a rejection is true of the entry and names the first check that fails |
| `Revocation.SpecificRejection` | indy-node/indy_node/server/revocation_strategy.py:102-182 | Which indices make either strategy turn an entry away, and with which reason |
| `RevocationLedger.EveryRunIsChained` | indy-node/indy_node/server/revocation_strategy.py:25-84 | In every run of definitions and entries over any registries, issuance types changing or not, the accepted entries of each registry form a chain of accumulators, the full record holds their merge, each by the strategy then in force, and both records carry the accumulator, sequence number and time of the last accepted entry |
| `RevocationLedger.UndefinedIsRefused` | indy-node/indy_node/server/request_handlers/domain_req_handlers/revoc_reg_entry_handler.py:81-91 | In every run an entry is refused for a missing definition if and only if its registry was never defined |
| `RevocationLedger.LastDefinitionDecides` | indy-node/indy_node/server/request_handlers/domain_req_handlers/revoc_reg_def_handler.py:81-85 | The strategy in force is that of the last definition |
| `RevocationLedger.NeverAcceptedTwiceInARow` | indy-node/indy_node/server/revocation_strategy.py:40-71 | The same entry is never accepted twice in a row, even if the registry is defined anew in between |
| `RevocationLedger.OneStrategyStores` | indy-node/indy_node/server/revocation_strategy.py:76-84 | While the issuance type stays, the record is what the one strategy stores over the run, so the laws of a single registry apply |
| `RevocationLedger.IndicesRememberedExactly` | indy-node/indy_node/server/request_handlers/domain_req_handlers/revoc_reg_entry_handler.py:58-79 | In every run, an accepted entry after one or more leaves all that it does not mention on record if and only if it mentions every index on the list that the strategy now in force does not keep |
| `RevocationLedger.LaterEntriesRememberedExactly` | indy-node/indy_node/server/request_handlers/domain_req_handlers/revoc_reg_entry_handler.py:58-79 | After two or more that condition is that the issuance type is still that of the entry before or the entry mentions every index on record; under another type the entry replaces the record |
| `RevocationLedger.FirstIssuedIndexIsForgotten` | indy-node/indy_node/server/revocation_strategy.py:126-146 | A run under one issuance type in which an index issued by the first entry leaves the record with the second |
| `RevocationLedger.RevokedIndexIsForgotten` | indy-node/indy_node/server/request_handlers/domain_req_handlers/revoc_reg_def_handler.py:81-85 | A run of two entries in which a revoked index is no longer on record: the definition is written again with the other issuance type in between |
| `RevocationLedger.OthersUntouched` | indy-node/indy_node/server/revocation_strategy.py:76-84 | Processing a transaction leaves the records of every other registry alone |
| `RevocationLedger.PathsNeverCollide` | indy-node/indy_common/state/domain.py:80-89 | Record paths are distinct across kinds and registries |
| `RevocationLedger.RevocationState.Write` | indy-node/indy_node/server/revocation_strategy.py:76-84 | The whole new state: the merged record and the accumulator record |
| `RevocationLedger.RevocationState.Process` | indy-node/indy_node/server/revocation_strategy.py:25-84 | A rejected entry leaves the state, an accepted one is written |
| `PoolVersion.VotesAreStandingReports` | indy-node/indy_node/server/txn_version_controller.py:29-41 | In every run the votes held for a version are exactly the senders that reported it since the last adoption of that version or a greater one |
| `PoolVersion.VotesStep` | indy-node/indy_node/server/txn_version_controller.py:33-41 | What one transaction does to the votes for any version |
| `PoolVersion.AdoptionHasCorrectReporter` | indy-node/indy_node/server/txn_version_controller.py:33-41 | Every adoption has more than f senders, so with at most f faulty ones a correct node's report of the adopted version stood |
| `PoolVersion.FaultBoundFromLatestStart` | indy-node/indy_node/server/txn_version_controller.py:30-32 | f is that of the latest START schedule |
| `PoolVersion.FaultBoundWithoutStart` | indy-node/indy_node/server/txn_version_controller.py:10-13 | f is 0 before any START |
| `PoolVersion.RecordedVersionsWereAdopted` | indy-node/indy_node/server/txn_version_controller.py:37-38 | Every recorded version was adopted at its time by some step |
| `PoolVersion.AdoptionsAreRecorded` | indy-node/indy_node/server/txn_version_controller.py:37-38 | In every run, at the time of every adoption stands the version that was adopted last at that time |
| `PoolVersion.RecordedExactly` | indy-node/indy_node/server/txn_version_controller.py:37-38 | A time is on record if and only if some step adopted a version at that time |
| `PoolVersion.AdoptsExactly` | indy-node/indy_node/server/txn_version_controller.py:34-37 | A report is an adoption if and only if, counting it, more than f distinct senders stand behind the version |
| `PoolVersion.MaxFaultyIsGreatest` | indy-node/indy_node/server/txn_version_controller.py:30-32 | f is the greatest number of which the schedule holds more than three times as many nodes |
| `PoolVersion.VotesSurviveExactly` | indy-node/indy_node/server/txn_version_controller.py:39-41 | When an older release is adopted, the votes for a newer one all survive if and only if the older one is a prefix of the newer one or its first different component does not exceed the number that as many leading digits of the newer one's show; otherwise all are lost |
| `PoolVersion.NewerReleaseLosesVotes` | indy-node/indy_node/server/txn_version_controller.py:29-41 | A run from the initial state, for any two releases whose order the text does not keep: more than f nodes report the newer one and it is never adopted, because the older one was adopted in between; without those reports it would have been |
| `Releases.OlderComesFirstExactly` | indy-node/indy_node/server/txn_version_controller.py:39-41 | For releases in numeric order, exactly when their texts are in string order |
| `Releases.RenderedOrder` | indy-node/indy_node/server/txn_version_controller.py:39-41 | For all releases, string order is decided by the first different components, compared as numerals in string order |
| `Releases.NumeralOrder` | indy-node/indy_node/server/txn_version_controller.py:39-41 | Of two numbers the smaller comes first as text exactly when it does not exceed the number that as many leading digits of the greater one show |
| `Releases.NineComesAfterTen` | indy-node/indy_node/server/txn_version_controller.py:39-41 | 1.9.0 and 1.10.0 are such releases |
| `PoolVersion.PastVersionsAreFixed` | indy-node/indy_node/server/txn_version_controller.py:19-38 | Once all later transactions carry greater times the answer for a time never changes |
| `PoolVersion.LaterRecordChangesNothing` | indy-node/indy_node/server/txn_version_controller.py:19-38 | A record at a later time leaves the answer alone |
| `PoolVersion.VersionAtUnique` | indy-node/indy_node/server/txn_version_controller.py:19-27 | A time has only one answer |
| `Text.StrLessTotal` | indy-node/indy_node/server/txn_version_controller.py:39-41 | The order by which votes are kept is total and irreflexive |
| `Text.StrLessTransitive` | indy-node/indy_node/server/txn_version_controller.py:39-41 | and transitive |
| `PoolVersion.TxnVersionController.UpdateVersion` | indy-node/indy_node/server/txn_version_controller.py:29-41 | Whole new state of a transaction; the record of versions stays sorted |
| `PoolVersion.TxnVersionController.Version` | indy-node/indy_node/server/txn_version_controller.py:15-17 | The current version answers for every time from the last record on |
| `PoolVersion.TxnVersionController.GetPoolVersion` | indy-node/indy_node/server/txn_version_controller.py:19-27 | The version recorded at the greatest time not after the timestamp, or nothing when all are later |
| `Authorizers.WriteRequestValidator.Authorize` | indy-node/indy_common/authorize/authorizer.py:138-157 | Dispatch terminates on every tree and returns exactly when the boolean meaning holds; otherwise it raises |
| `Authorizers.WriteRequestValidator.RunAuthorizer` | indy-node/indy_common/authorize/authorizer.py:147-157 | Each registered authorizer passes exactly when what it stands for holds |
| `Authorizers.WriteRequestValidator.AuthorizeAnd` | indy-node/indy_common/authorize/authorizer.py:160-172 | AND passes exactly when all parts do, and for no parts |
| `Authorizers.WriteRequestValidator.AuthorizeOr` | indy-node/indy_common/authorize/authorizer.py:175-199 | OR passes exactly when some part does, and never for no parts |
| `Authorizers.WriteRequestValidator.Validate` | indy-node/indy_common/authorize/auth_request_validator.py:54-73 | The loop returns or raises at its first action: the verdict on a list is that of its first action; no action, no verdict |
| `ActionLists.VerdictTrustedExactly` | indy-node/indy_common/authorize/auth_request_validator.py:54-73 | An authorized list holds only allowed actions, for all caches, requests and rule tables, if and only if every action has the id of the first and is by the owner if the first is |
| `ActionLists.ForbiddenBehindAllowed` | indy-node/indy_common/authorize/auth_request_validator.py:54-73 | For every cache and request, a forbidden action is authorized behind an allowed one, and refused in front of it |
| `ActionLists.OneActionIsTrusted` | indy-node/indy_node/server/request_handlers/domain_req_handlers/nym_handler.py:101-104 | A list of one action, as every request handler passes, is authorized exactly when the action is allowed |
| `ActionLists.OwnerKeepsAllowed` | indy-node/indy_common/authorize/authorizer.py:73-129 | Owning the object never turns acceptance into rejection, for any constraint tree |
| `Authorizers.WriteRequestValidator.constructor` | indy-node/indy_common/authorize/auth_request_validator.py:45-52 | The registered table: roles then endorser for ROLE, one authorizer for each other kind |
| `Authorizers.GetSigCount` | indy-node/indy_common/authorize/authorizer.py:56-71 | The loop counts the set of signers whose role counts, whatever the order |
| `Authorizers.AuthorizeRoles` | indy-node/indy_common/authorize/authorizer.py:98-129 | The sequence of checks is the conjunction of owner, ledger, author signature and count |
| `Authorizers.AuthorizeEndorser` | indy-node/indy_common/authorize/authorizer.py:222-287 | The sequence of early returns is the conjunction of endorser role, endorser signature and endorser need |
| `Authorizers.HasPrivilegedSig` | indy-node/indy_common/authorize/authorizer.py:273-281 | The scan finds a privileged signer exactly when there is one |
| `RoleRules.RoleAllowedExactly` | indy-node/indy_common/authorize/authorizer.py:56-287 | The whole meaning of a role constraint, on stored roles and signatures: ownership, the author on the ledger and among the signers, enough signatures of the role, an endorser with the endorser role who signed, and when none is needed |
| `RoleRules.CountMetExactly` | indy-node/indy_common/authorize/authorizer.py:56-96 | The count is met if and only if, on a request with one signature, at most one is asked for and the author holds the role on the ledger, and otherwise at least as many distinct signers hold it; any signer counts for any role |
| `RoleRules.OneSignatureExactly` | indy-node/indy_common/authorize/authorizer.py:78-129 | A known author's signature satisfies a constraint for one signature of a role if and only if the author holds that role |
| `RoleRules.EndorserOkExactly` | indy-node/indy_common/authorize/authorizer.py:222-287 | The endorsement is in order if and only if a named endorser holds the endorser role and signed or is the author, or none is named and none is needed |
| `Authorization.TreeLaws` | indy-node/indy_common/authorize/authorizer.py:160-208 | Groups of one are their part, joined groups are their conjunction or disjunction, the empty AND holds, and the empty OR and FORBIDDEN do not |
| `Authorization.MoreSignaturesExactly` | indy-node/indy_common/authorize/authorizer.py:56-287 | For every constraint tree, acceptance survives more signatures if and only if an endorser is named, none is needed, or the tree holds with all its role constraints false |
| `Authorization.AuthorizationIsMonotone` | indy-node/indy_common/authorize/authorizer.py:56-287 | So for a multi-signed request that names an endorser, more signatures never turn acceptance into rejection, for any tree |
| `Authorization.MoreSignaturesForRole` | indy-node/indy_common/authorize/authorizer.py:98-287 | The case of a single role constraint: it survives more signatures exactly when an endorser is named or none is needed |
| `Authorization.ExtraSignatureCanReject` | indy-node/indy_common/authorize/authorizer.py:257-285 | Without an endorser one more signature can turn acceptance into rejection |
| `Authorization.RebuiltConstraintDecidesTheSame` | indy-node/indy_common/authorize/auth_constraints.py:233-264 | A constraint rebuilt from its dictionary gives the same verdict on every request |
| `AuthConstraints.RoundTrip` | indy-node/indy_common/authorize/auth_constraints.py:97-242 | Every tree the constructors let through is rebuilt from its dictionary |
| `AuthConstraints.CreatedIsWellFormed` | indy-node/indy_common/authorize/auth_constraints.py:110-116 | Whatever a dictionary holds, a constraint created from it satisfies the constructor checks |
| `AuthConstraints.RoleCreatedExactly` | indy-node/indy_common/authorize/auth_constraints.py:97-116 | A role dictionary is turned away, with a value error, if and only if its role is unknown or it asks for an off-ledger signature of a given role |
| `AuthConstraints.RoleDefaults` | indy-node/indy_common/authorize/auth_constraints.py:156-161 | What a role dictionary leaves out is filled in with no owner, nothing on the ledger and no metadata; role and count cannot be left out |
| `AuthConstraints.CreatedKinds` | indy-node/indy_common/authorize/auth_constraints.py:233-242 | Only the four kinds are created, each from its own name |
| `ConstraintDicts.Create` | indy-node/indy_common/authorize/auth_constraints.py:233-242 | On mutable dictionaries creation gives the tree or error of the dictionary's value, and the input still holds the same value |
| `ConstraintDicts.GroupFromDict` | indy-node/indy_common/authorize/auth_constraints.py:182-226 | Only the copy is modified: its list is replaced by the built constraints |
| `ConstraintDicts.CreateParts` | indy-node/indy_common/authorize/auth_constraints.py:184-189 | The loop builds the parts in order and the first failure wins |
| `ConstraintDicts.RoleFromItems` | indy-node/indy_common/authorize/auth_constraints.py:156-161 | Role constraints read their keys with the same defaults and checks |
| `AuthRules.SplitUndoesCompile` | indy-node/indy_common/authorize/auth_actions.py:13-26 | Splitting undoes compiling if and only if no part contains the delimiter and no part but the last ends in a dash |
| `Text.SplitJoin` | indy-node/indy_common/authorize/auth_actions.py:13-26 | For any separator splitting undoes joining if and only if every part but the last is safe before the separator and the last is free of it |
| `Text.JoinSplit` | indy-node/indy_common/authorize/auth_actions.py:25-26 | Joining what was split gives the string back |
| `AuthRules.LookupIgnoresOrder` | indy-node/indy_common/authorize/auth_cons_strategies.py:25-54 | Under any permutation of the rule table the first match for an action is the same key, and no other key accepts it |
| `AuthRules.LookupEndsTheSame` | indy-node/indy_common/authorize/auth_cons_strategies.py:25-54 | For every action id, also one that cannot be compared, the lookup ends the same way under any permutation of the table |
| `AuthRules.RulesAreDisjoint` | indy-node/indy_common/authorize/auth_map.py:14-242 | No action is accepted by two different rules, given distinct transaction codes |
| `AuthRules.KeysSplitBack` | indy-node/indy_common/authorize/auth_map.py:282-386 | Every key of the table splits back into its rule |
| `AuthRules.LookupFinds` | indy-node/indy_common/authorize/auth_cons_strategies.py:51-54 | A rule is found for every action its key accepts |
| `AuthRules.EveryEditFindsItsRule` | indy-node/indy_common/authorize/auth_cons_strategies.py:25-54 | Every edit of a type with an any-field rule, whatever the field and values, finds that rule if and only if field, old and new value, joined by the delimiter, split into three parts again; otherwise the lookup raises |
| `AuthRules.EveryAddFindsItsRule` | indy-node/indy_node/server/request_handlers/domain_req_handlers/attribute_handler.py:94-99 | Every value added under a field without a dash finds the any-field rule of its type if and only if its text does not hold the delimiter; otherwise the lookup raises |
| `AuthRules.DashedAttributeRaises` | indy-node/indy_node/server/request_handlers/domain_req_handlers/attribute_handler.py:94-99 | Any raw attribute whose text holds two dashes in a row finds no rule: the lookup raises |
| `AuthRules.AnyRuleFoundExactly` | indy-node/indy_common/authorize/auth_cons_strategies.py:25-54 | The same condition for adding and editing, over any order of the rule table |
| `RuleActions.AddedRoleFindsItsRule` | indy-node/indy_node/server/request_handlers/domain_req_handlers/nym_handler.py:101-104 | On the written-out id, adding a DID with each of the five roles, none included, finds the rule for adding that role |
| `RuleActions.EditedRoleFindsItsRule` | indy-node/indy_node/server/request_handlers/domain_req_handlers/nym_handler.py:112-126 | Changing any role into any role finds the rule for that change |
| `RuleActions.UnknownRoleIsAbsent` | indy-node/indy_common/authorize/auth_cons_strategies.py:25-54 | Adding a DID with a role that is none of the five finds no rule |
| `RuleActions.UnknownRoleChangeIsAbsent` | indy-node/indy_common/authorize/auth_cons_strategies.py:25-54 | Changing from or into a role that is none of the five finds no rule |
| `RuleActions.AddedNodeFindsItsRule` | indy-node/indy_node/server/request_handlers/pool_req_handlers/node_handler.py:43-46 | Adding a node with or without services finds the rule for that |
| `RuleActions.NodeSwitchedOnFindsItsRule` | indy-node/indy_node/server/request_handlers/pool_req_handlers/node_handler.py:81-85 | Switching the services of a node on finds the rule for that |
| `RuleActions.NodeSwitchedOffFindsItsRule` | indy-node/indy_node/server/request_handlers/pool_req_handlers/node_handler.py:81-85 | Switching them off finds the rule for that |
| `RuleActions.NodeFieldFindsItsRule` | indy-node/indy_node/server/request_handlers/pool_req_handlers/node_handler.py:81-85 | Any change of an address, port or key of a node finds the rule of the field if and only if old and new value, joined by the delimiter, split into two parts again; otherwise the lookup raises |
| `RuleActions.EveryKeyRotationFindsItsRule` | indy-node/indy_common/authorize/auth_map.py:43-46 | The same for any change of a verification key |
| `RuleActions.UpgradeStartFindsItsRule` | indy-node/indy_node/server/request_handlers/config_req_handlers/pool_upgrade_handler.py:85-100 | Starting an upgrade finds its rule |
| `RuleActions.UpgradeCancelFindsItsRule` | indy-node/indy_node/server/request_handlers/config_req_handlers/pool_upgrade_handler.py:85-100 | Cancelling a started upgrade finds its rule |
| `RuleActions.CancelOfOtherIsAbsent` | indy-node/indy_common/authorize/auth_cons_strategies.py:25-54 | Cancelling an upgrade from any other state finds no rule |
| `RuleActions.PoolRestartFindsItsRule` | indy-node/indy_node/server/request_handlers/action_req_handlers/pool_restart_handler.py:32-35 | Restarting the pool finds its rule, under the same condition on its values |
| `RuleActions.PoolConfigFindsItsRule` | indy-node/indy_node/server/request_handlers/config_req_handlers/pool_config_handler.py:29-33 | Changing the pool configuration finds its rule, under the same condition |
| `RuleActions.AnyRulesOfTable` | indy-node/indy_common/authorize/auth_map.py:14-242 | The transaction types that have an any-field rule for adding, and for editing |
| `AuthRules.FindAuthConstraintKey` | indy-node/indy_common/authorize/auth_cons_strategies.py:51-54 | The loop returns the first accepting key, raises at the first key it cannot compare (when the key or the action id is not made of five parts), or returns nothing when every key is passed over |
| `CliParser.ParsePrinted` | indy-sdk/cli/src/command_executor.rs:799-879 | Parsing a printed line gives back exactly the main parameter and all arguments, each printed in quotes or bare, for values without quote or backslash and bare ones without whitespace |
| `CliParser.WordsOfPrinted` | indy-sdk/cli/src/command_executor.rs:881-899 | Splitting undoes printing, word by word |
| `CliParser.BadLastArgument` | indy-sdk/cli/src/command_executor.rs:834-853 | After a main parameter, if the command has one, and any readable arguments, a parameter given twice, the main one included, or unknown to the command makes the line fail |
| `CliParser.LineAcceptedExactly` | indy-sdk/cli/src/command_executor.rs:799-853 | A line is accepted if and only if the main parameter, if the command has one, is there and can be decoded, every further word can be read by itself, and none names the main parameter or one that an earlier word gave a value |
| `CliParser.WordsAcceptedExactly` | indy-sdk/cli/src/command_executor.rs:820-853 | The same for the words after the main parameter, from any values read so far |
| `CliParser.RepeatRefusedExactly` | indy-sdk/cli/src/command_executor.rs:834-836 | A word is refused as repeated if and only if its name was read as the main parameter or an earlier word gave it a value; a deferred name that stood alone does not count |
| `CliParser.DeferredMayRepeat` | indy-sdk/cli/src/command_executor.rs:834-849 | A deferred parameter may be named twice, or named and then given a value, but not the other way round |
| `CliLines.LineReadsExactly` | indy-sdk/cli/src/command_executor.rs:799-853 | What any accepted line reads, word by word: the main parameter and every assignment have the value between their quotes, or the bare text, decoded, and nothing else has a value |
| `CliLines.QuotesTrimmedExactly` | indy-sdk/cli/src/command_executor.rs:920-926 | A text in quotes stands for what is between them, and any other text for itself |
| `CliLines.DeferredInOrder` | indy-sdk/cli/src/command_executor.rs:845-847 | The parameters asked for afterwards are the names that stand alone, in their order |
| `CliLines.ErrorExactly` | indy-sdk/cli/src/command_executor.rs:834-853 | Which error a word gives: repeated first, then unknown, then a missing or undecodable value |
| `CliLines.WordEndExactly` | indy-sdk/cli/src/command_executor.rs:881-899 | A word ends at the first whitespace before which there is an even number of quotes that no backslash precedes |
| `CliLines.FirstWordCuts` | indy-sdk/cli/src/command_executor.rs:881-899 | A line is its first word and its tail, with nothing but whitespace around and between them |
| `CliLines.WhitespaceIs` | indy-sdk/cli/src/command_executor.rs:881-899 | The characters that separate words |
| `CliParser.SplitFirstWord` | indy-sdk/cli/src/command_executor.rs:881-899 | The pass with two flags ends the word at the first whitespace outside quotes |
| `CliParser.ParseParams` | indy-sdk/cli/src/command_executor.rs:799-879 | The loop ends, since each word shortens the tail, and computes the fold over the words of the line |
| `Accounts.ChaincodeConservesMoney` | MyChainCode/src/main/java/MyChainCode.java:71-207 | Over every run of calls the strings hold the book of the run and the balances sum to deposits plus issues minus deleted balances plus self-remittances, less what wrap-around took off |
| `AccountBook.MoneyIsConserved` | MyChainCode/src/main/java/MyChainCode.java:71-207 | The same law on balances |
| `AccountBook.MoneyIsConservedModulo` | MyChainCode/src/main/java/MyChainCode.java:71-207 | With distinct parties the sum is deposits plus issues minus deleted balances modulo 2^32, and exactly that when no sum overflows |
| `AccountBook.MoveBalanced` | MyChainCode/src/main/java/MyChainCode.java:71-207 | Every call changes the total by its contribution less its overflow |
| `AccountBook.RemitKeepsTotalExactly` | MyChainCode/src/main/java/MyChainCode.java:103-144 | A remittance between 32-bit balances keeps the total if and only if the parties differ and the receiver's sum fits, or nothing is sent |
| `AccountBook.SelfRemitCreatesMoney` | MyChainCode/src/main/java/MyChainCode.java:103-144 | From the empty ledger, set-up, opening an account with any amount and remitting all of it to oneself doubles the balance and the total |
| `Accounts.SelfRemitDoublesBalance` | MyChainCode/src/main/java/MyChainCode.java:71-166 | The same on the stored strings: the balance check then reports twice the amount |
| `AccountBook.DistinctRemitsAddNothing` | MyChainCode/src/main/java/MyChainCode.java:103-144 | With distinct parties remittances contribute nothing over any run |
| `AccountBook.OverflowIsMultiple` | MyChainCode/src/main/java/MyChainCode.java:133-134 | What wrap-around takes off over a run is a multiple of 2^32 |
| `AccountBook.MovesTouchOnlyNamed` | MyChainCode/src/main/java/MyChainCode.java:71-207 | A call touches only the accounts it names, and a transfer takes from one what it gives to the other |
| `Accounts.CallRefines` | MyChainCode/src/main/java/MyChainCode.java:33-207 | Every call on the string state is its move on the balances, and succeeds when the move does |
| `Accounts.RemitRefines` | MyChainCode/src/main/java/MyChainCode.java:103-144 | The same for a remittance, with every error case |
| `Accounts.BalanceReadsBook` | MyChainCode/src/main/java/MyChainCode.java:146-166 | What is read back from the state is the balance in the book |
| `Accounts.CheckReportsBalance` | MyChainCode/src/main/java/MyChainCode.java:146-166 | A balance check succeeds exactly for the accounts of the book and returns a string that parses to the balance |
| `Accounts.ErrorsChangeNothing` | MyChainCode/src/main/java/MyChainCode.java:71-207 | A failed call changes nothing |
| `AccountCalls.CreateObserved` | MyChainCode/src/main/java/MyChainCode.java:71-101 | After any run, opening an account succeeds if and only if no check reports one and the amount is not negative; checks then report the amount for it and the same as before for all others |
| `AccountCalls.RemitObserved` | MyChainCode/src/main/java/MyChainCode.java:103-144 | After any run, a remittance succeeds if and only if checks report both accounts and the amount is neither negative nor more than the sender has; the reported balances move accordingly |
| `AccountCalls.IssueObserved` | MyChainCode/src/main/java/MyChainCode.java:168-189 | The same for an issue, of any sign, to the admin account |
| `AccountCalls.DeleteAndInitObserved` | MyChainCode/src/main/java/MyChainCode.java:191-207 | The same for a deletion, which always succeeds, and for set-up |
| `AccountCalls.WrongCallsFail` | MyChainCode/src/main/java/MyChainCode.java:33-69 | Calls with a wrong number of arguments, and unknown ones, fail and change nothing |
| `AccountCalls.NobodyOverdraws` | MyChainCode/src/main/java/MyChainCode.java:103-144 | Over every run without overflow and without negative issues no balance is negative |
| `ChainCode.ParseUndoesToString` | MyChainCode/src/main/java/MyChainCode.java:91-91 | A stored balance parses back to itself |
| `ChainCode.ParseIntExactly` | MyChainCode/src/main/java/MyChainCode.java:91-91 | Exactly which strings are read as numbers, and as which |
| `ChainCode.NamesOfOperations` | MyChainCode/src/main/java/MyChainCode.java:33-69 | The names of the functions |
| `ChainCode.JavaCodecIsGood` | MyChainCode/src/main/java/MyChainCode.java:71-207 | So the law holds with Java's decimal strings |
| `ChainCode.MyChainCode.Init` | MyChainCode/src/main/java/MyChainCode.java:18-30 | Whole new state of initialization |
| `ChainCode.MyChainCode.CreateAccount` | MyChainCode/src/main/java/MyChainCode.java:71-101 | Whole new state and response of opening an account |
| `ChainCode.MyChainCode.Remit` | MyChainCode/src/main/java/MyChainCode.java:103-144 | Whole new state and response of a remittance |
| `ChainCode.MyChainCode.BalanceCheck` | MyChainCode/src/main/java/MyChainCode.java:146-166 | The response of a balance check; the state is not changed |
| `ChainCode.MyChainCode.MoneyIssuance` | MyChainCode/src/main/java/MyChainCode.java:168-189 | Whole new state and response of an issue |
| `ChainCode.MyChainCode.DeleteAccount` | MyChainCode/src/main/java/MyChainCode.java:191-207 | Whole new state and response of a deletion |
| `ChainCode.MyChainCode.Invoke` | MyChainCode/src/main/java/MyChainCode.java:33-69 | Dispatch by function name; an unknown name changes nothing |
| `RegistryIds.ReferencesPreservedExactly` | indy-node/data/migrations/deb/1_3_428_to_1_3_429.py:92-137 | The rewritten id of a definition equals the rewritten id in the entries that pointed to it if and only if the author owns the credential definition and its marker is 3 |
| `RegistryIds.EntryPointsExactly` | indy-node/data/migrations/deb/1_3_428_to_1_3_429.py:92-137 | A rewritten entry points to the rewritten definition of a registry if and only if its own registry is owned by the author and has marker 3, and the two registries differ at most in author and marker |
| `RegistryIds.ForeignReferenceDangles` | indy-node/data/migrations/deb/1_3_428_to_1_3_429.py:92-137 | The entry of a registry whose author does not own the credential definition points to no rewritten definition at all |
| `RegistryIds.ForeignRegistryExists` | indy-node/indy_node/server/request_handlers/domain_req_handlers/revoc_reg_def_handler.py:42-75 | Such a registry; the handler of definitions does not compare its author with the owner |
| `RegistryIds.NewIdsStayDistinct` | indy-node/data/migrations/deb/1_3_428_to_1_3_429.py:120-137 | Entries that pointed to distinct old registries point to distinct new ids |
| `RegistryIds.DefinitionsCollideExactly` | indy-node/data/migrations/deb/1_3_428_to_1_3_429.py:92-117 | The new ids of two registry definitions are equal if and only if the registries differ at most in author and marker |
| `RegistryIds.DistinctRegistriesCanMerge` | indy-node/data/migrations/deb/1_3_428_to_1_3_429.py:92-117 | Two registries by different authors on one credential definition, with different old ids, get the same new id in their definitions |
| `RegistryIds.ReferencesFindOnlyTheirDefinition` | indy-node/data/migrations/deb/1_3_428_to_1_3_429.py:92-137 | Among registries whose author owns the credential definition, with marker 3, a rewritten entry points to a rewritten definition if and only if it pointed to that registry, and distinct registries get distinct definition ids |
| `RegistryIds.DefinitionMigrates` | indy-node/data/migrations/deb/1_3_428_to_1_3_429.py:92-117 | What a definition is migrated to |
| `RegistryIds.EntryMigrates` | indy-node/data/migrations/deb/1_3_428_to_1_3_429.py:120-137 | What an entry is migrated to |
| `RegistryIds.EveryEntryMigrates` | indy-node/data/migrations/deb/1_3_428_to_1_3_429.py:120-137 | What an entry becomes for an id of any number of parts |
| `RegistryIds.EntryNotMigrated` | indy-node/data/migrations/deb/1_3_428_to_1_3_429.py:120-137 | An entry without an id is left alone, and one whose id holds no colon fails |
| `RegistryIds.DefinitionMigratedExactly` | indy-node/data/migrations/deb/1_3_428_to_1_3_429.py:92-117 | Exactly which definitions are migrated |
| `RegistryIds.OldIdJoins` | indy-node/indy_common/state/domain.py:71-77 | An old registry id is the join of its eight parts |
| `Migrations.GetRelevantMigrations` | indy-node/indy_node/utils/migration_tool.py:81-105 | The result is the stable sort, by original and target version, of exactly the well-named scripts inside the range, for upgrades and downgrades; membership and pairwise order are stated outright |
| `Migrations.SelectedExactly` | indy-node/indy_node/utils/migration_tool.py:81-105 | Which scripts are selected, on their names: those that lead in the direction of the range and lie within it, its ends included |
| `Migrations.WellNamedExactly` | indy-node/indy_node/utils/migration_tool.py:108-114 | A name is that of a script if and only if it has seven parts |
| `Migrations.ConsecutiveInOrderExactly` | indy-node/indy_node/utils/migration_tool.py:81-127 | A selected script that leads to the version another starts from comes before it in the result if and only if the range goes up |
| `Migrations.DowngradeRunsBackwards` | indy-node/indy_node/utils/migration_tool.py:88-105 | For a downgrade in two steps, over any three versions, the result is the second script and then the first |
| `Migrations.ScriptOrderIsTotal` | indy-node/indy_node/utils/migration_tool.py:117-127 | Comparing by original and then target version is a total preorder |
| `StableSort.StableSortUnique` | indy-node/indy_node/utils/migration_tool.py:103-104 | A stable sort has only one possible result, so the choice of algorithm does not matter |
| `StableSort.SortAppend` | indy-node/indy_node/utils/migration_tool.py:103-104 | Sorting after every appended script gives what one final sort gives |

## Left out

- The action queue of the upgrader comes from a base class that is not part of this model: pending calls are one bag that unscheduling empties, and a call is taken off it when it fires.
- Notifier messages, callbacks, logging, metrics, event time stamps, and the CSV form of the action log: the log is a sequence that survives a restart unchanged.
- `PoolConfig`, which a committed batch also feeds, and the near twin of the upgrader that restarts nodes.
- `check_upgrade_possible` (whether a package and version may be upgraded to) and the request handlers around the upgrader: static and dynamic validation of POOL_UPGRADE requests is not modelled, except that of the schedule.
- UpgraderObject.Upgrader.GetUpgradeTxn: a start number outside the ledger is not modelled, because what the ledger returns there is not part of this model.
- UpgradeSchedule.IsScheduleValid: dates without a time zone, whose comparison raises, are not modelled; times are integers.
- Revocation.Merged: index lists are sets, so the order and repetition of indices in the stored lists are not captured.
- An entry without an accumulator: it passes no validation that a stored entry could follow, and writing it fails on the missing key.
- The request fields, owners and state proofs of the revocation handlers, and reading an entry at a timestamp.
- PoolVersion.TxnVersionController.UpdateVersion: the sorted dictionary is a sorted sequence of pairs; how it is stored is not modelled.
- The text of every error; the reasons that an OR constraint collects are only counted.
- The constraint attached to each key of the rule table, and the strategy that reads overriding rules from the config state.
- AuthConstraints.CreateConstraint: values of a wrong type in a dictionary give an error at once, where the source would keep them and fail later.
- CliParser.ParseParams: the prompt for deferred values is not modelled; their names are returned.
- Escape sequences: decoding is a parameter that is the identity on strings without backslash.
- Help output, tab completion and the commands of the CLI.
- ChainCode.ParseInt: digits outside ASCII, which Java also accepts, are not modelled.
- Peer errors while reading or writing the chaincode state.
- The rest of the migration script (databases, sequence numbers, file moves) and the running of the selected scripts.
- Version strings that do not parse raise in `compareVersions`; the comparison is a total preorder on all strings here.
- The API server, the SDK, the payment plugin, the identity cache and the node control tool.
