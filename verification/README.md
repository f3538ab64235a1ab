# SentinelBR: a verified model of the response loop

SentinelBR watches Linux hosts. A server collects events, raises alerts and
orders response actions (block an address, quarantine a file, run a scan). An
agent on every host polls the server with heartbeats, executes the commands it
is given and reports what happened. This project models the stateful parts of
that loop in Dafny and proves what every run of them keeps.

`dafny verify dfyconfig.toml` checks the whole project.

## What is modelled

**The action protocol** (`Targets`, `Actions`, `Commands`, `ActionServer`,
`Agent`, `Protocol`, `ProtocolTheorems`, `ProtocolOutcomes`, `PolicyRule`). The
server's table of actions, the agents' heartbeat loops with their retrying
result queues, a network that loses requests and responses and lets a timed-out
request be handled much later, operators who create, revert and delete rows, and
two schedulers. Each server handler is one transaction. As in the code, only the
policy creates blocks and quarantines. `ActionServer.Server`, `Agent.Loop` and
`Agent.Dispatcher` are the code's own objects with its loops and branches; their
methods are proved to compute the functions that `Protocol` uses as steps. What
such a function does is also stated without its name: by what a payload stands
for, by the verdict that a handler gave, by the rows before and after.

**Detection** (`Detection`, `DetectionCycle`, `DetectionPolicy`,
`DetectionRerun`). One host's transaction of alert upserts and policy actions,
and the cycle over all hosts. The lookup sees open alerts only, while the table's
UNIQUE constraint covers closed ones too.

**Refresh tokens** (`Tokens`, `Rotation`, `WebClient`). The table of single-use token ids
(the `jti` claim of section 4.1.7 of RFC 7519) and the browser client's refresh
mutex, alone and composed.

**PII masks** (`Masking`, `MaskingProofs`, `MaskingPieces`, `MaskingMail`,
`MaskingLeaks`, `MaskingValues`). The three regular-expression passes on ASCII
text, as leftmost non-overlapping substitutions, and their use on nested values.

**Shared buffers** (`FileWatcher`, `EventBatch`, `EventBatchTheorems`). The
debounced file watcher, whose timer callbacks race with its event loop, and the
event stream's batch, which is appended to while a push of it is awaited.

**Loki and the quarantine store** (`Sorting`, `Loki`, `Quarantine`). Pushing
events as labelled streams and reading them back; moving files into a
content-addressed store when any file-system call may fail.

## Where the code does less than it says

- The documentation of the action model gives `reverted` as a last status
  (server/app/models/action.py:14-17). A late or repeated result overwrites it,
  because the old status is never read. `RevertedStaysIff` says exactly when a
  reverted row stays reverted; `PolicyRowsStayUniqueIff` says that a run keeps the
  policy's rule, one pending, sent or executed row per host and target, exactly
  until such a result brings back a row whose place was taken.
- README.md:434 says that replaying a refresh token revokes its whole chain. The
  code refuses the replay and revokes nothing; only a logout ends a chain:
  `ChainLivesIff`, `ReplayLeavesChainDeadIff`.
- The comment on `Quarantine` (agent/internal/quarantine/quarantine.go:53-55)
  says that a file already in quarantine is an error. It is deleted, and the
  call succeeds: `ContentSurvivesIff`, `StoredCopyIsDeleted`.
- A browser that loses the answer to a refresh keeps a spent token until its user
  logs in again: `SessionLivesIff`.
- A failed copy whose clean-up fails too leaves wrong bytes under a digest, and
  the next call trusts them: `StaysHonestIff`, `RetryAfterDebrisLosesContent`.
- The email mask lets an address through when a match is followed by `@` and
  another domain: `EmailsAreHiddenIff`, which is also exactly when masking twice
  differs from masking once.
- An event can be acknowledged as stored and still be lost, when it arrives
  during a push: `EventIsLostIff`, `ClearLosesNothingIff`.
- A timer callback that was too late to be stopped can make the watcher's map
  forget a newer timer, so one change is scanned twice: `TrackIsLostIff`. No
  change goes unscanned: `EveryEventIsCovered`.
- A schedule configured with the same path twice creates two open rows:
  `ScheduleKeepsSingleOpenIff`, `RepeatedPathDoubles`.

## Model

| member | source | states |
|---|---|---|
| Targets.PartitionUndoesIff | server/app/grpc_server/agent_servicer.py:71-81 | cutting a joined text at the first separator gives the two halves back exactly when the first half has no separator |
| Targets.SplitUndoesJoin | server/app/grpc_server/agent_servicer.py:98-105 | a bounded split undoes a join when no part but the last has the separator |
| Targets.PartitionIff | server/app/grpc_server/agent_servicer.py:71-81 | partition gives the two sides of the first separator, or all on the left without one, and nothing else |
| Targets.SplitFiveIff | server/app/grpc_server/agent_servicer.py:98-105 | splitting at four bars gives five parts exactly when the text is those parts joined by bars and only the last holds one |
| Targets.JailHasNoColon | server/app/api/fail2ban.py:20-34 | a jail name that passes validation has no colon, although the pattern admits a final newline |
| Targets.PortHasNoBar | server/app/api/firewall.py:24-41 | a port list that passes validation has no bar |
| Targets.BanRoundTrip | server/app/api/fail2ban.py:54 | jail and address are recovered from the target, for addresses with colons too |
| Targets.AddRuleRoundTrip | server/app/api/firewall.py:81-83 | all five fields of an added rule are recovered |
| Targets.RemoveRuleRoundTrip | server/app/api/firewall.py:113 | backend and rule id are recovered, for rule ids with bars too |
| Targets.AddRuleIsSpelled | server/app/api/firewall.py:81-83 | the stored text spells backend, verb, protocol, port and source out in this order |
| Targets.RemoveRuleIsSpelled | server/app/api/firewall.py:113 | the stored text spells backend and rule id out in this order |
| Targets.BanIsInjective | server/app/api/fail2ban.py:54 | ban targets are equal exactly for equal requests |
| Targets.AddRuleIsInjective | server/app/api/firewall.py:81-83 | targets of added rules are equal exactly for equal requests |
| Targets.RemoveRuleIsInjective | server/app/api/firewall.py:113 | targets of removed rules are equal exactly for equal requests |
| Commands.DecodeRecoversBan | server/app/grpc_server/agent_servicer.py:71-81 | the ban and the unban command an agent gets carry the jail and address of the validated request |
| Commands.DecodeRecoversAddRule | server/app/grpc_server/agent_servicer.py:98-105 | the command to add a rule carries all five fields of the validated request |
| Commands.DecodeRecoversRemoveRule | server/app/grpc_server/agent_servicer.py:106-111 | the command to remove a rule carries backend and rule id |
| Commands.DecodeIff | server/app/grpc_server/agent_servicer.py:46-112 | for each of the fourteen payloads, read from the message: a row is decoded into it exactly when the row has its kind and its target holds its fields |
| Commands.CommandIff | server/app/grpc_server/agent_servicer.py:46-112 | a command is a row's exactly when it has its id, its kind and target, and its reason if the message has a field for one |
| Commands.BanDuplicateIffEqual | server/app/services/actions.py:23-40 | the duplicate query of a ban or unban finds a row exactly when an open one was made for an equal request for the same host |
| Commands.AddRuleDuplicateIffEqual | server/app/services/actions.py:23-40 | the same for added rules |
| Commands.RemoveRuleDuplicateIffEqual | server/app/services/actions.py:23-40 | the same for removed rules |
| Actions.TryCreateKeepsSingleOpen | server/app/services/actions.py:23-104 | policy, REST and YARA creation keep at most one pending or sent row per host, kind and target |
| Actions.NoNewlyOpenKeepsSingleOpen | server/app/services/actions.py:23-40 | a step that opens no row cannot break that rule |
| Actions.BatchRows | server/app/workers/yara_schedule.py:59-71 | the batch keeps old rows, gives every free slot one pending row of its own, adds nothing else, and counts every slot once |
| Actions.BlockedIffOpen | server/app/workers/yara_schedule.py:45-57 | a slot is blocked exactly while a pending or sent row of its host, kind and, for scans, path exists |
| Actions.OneByOneBlocks | server/app/services/actions.py:23-40 | checking one slot at a time, a slot is blocked by the table or by an earlier clashing slot that created a row |
| Actions.BatchRefinesOneByOneIff | server/app/workers/yara_schedule.py:45-71 | the precomputed set gives the same table and counts as one check per slot exactly when no free slot repeats |
| Actions.ScheduleKeepsSingleOpenIff | server/app/workers/yara_schedule.py:59-72 | a schedule keeps the one-open-row rule exactly when no free slot repeats |
| Actions.SecondScheduleCreatesNothing | server/app/workers/yara_schedule.py:44-75 | running the schedule again at once creates nothing and skips every slot |
| Commands.ApplyResultsFrame | server/app/grpc_server/agent_servicer.py:115-140 | results keep every row's identity and change only rows of the reporting host that they name |
| Commands.LastResultDecides | server/app/grpc_server/agent_servicer.py:129-136 | the last result with a status that names a row decides its status and error text |
| Commands.LastReportDecidesTime | server/app/grpc_server/agent_servicer.py:137-140 | the last result that names a row, with or without a status, decides its time: the one reported, or now |
| Commands.LastStatusDecides | server/app/grpc_server/agent_servicer.py:121-136 | the status after all results is a function of the old one and the last one reported by the row's own host |
| Commands.UnnamedRowKeepsStatus | server/app/grpc_server/agent_servicer.py:121-128 | a row that no such result names keeps its status and error text |
| Commands.RevertedStaysIff | server/app/grpc_server/agent_servicer.py:126-136 | a reverted row stays reverted exactly when no result with a status from its own host names it |
| Commands.StatusComesFromResults | server/app/grpc_server/agent_servicer.py:121-136 | a row's status after a heartbeat's results is its old one, or executed or failed because a result names it |
| Commands.HeartbeatFrame | server/app/grpc_server/agent_servicer.py:217-235 | a heartbeat leaves its host nothing pending, other hosts' rows as they were, marks sent, at its time, exactly what its results left pending, and gives every other row the status the results decide |
| ActionServer.Server.ApplyCommandResults | server/app/grpc_server/agent_servicer.py:115-140 | the loop over results computes their fold over the table |
| ActionServer.Server.SendPending | server/app/grpc_server/agent_servicer.py:220-235 | every pending row of the host becomes one command, once, which conveys its kind, target and reason, and is marked sent, in an order that is not fixed |
| ActionServer.Server.Heartbeat | server/app/grpc_server/agent_servicer.py:144-243 | denies a foreign certificate, refuses an unknown host, and otherwise applies results before it collects commands, each of which conveys the row it names |
| ActionServer.Server.RevertAction | server/app/api/actions.py:45-78 | unknown rows and rows of another organisation are not found, another status than reverted is refused; otherwise the row becomes reverted and keeps its other fields, every other row stays, and exactly an executed block adds one fresh pending unblock of its address on its host |
| Commands.RevertIff | server/app/api/actions.py:54-72 | a revert is exactly that change of the table |
| Commands.RevertReasonNames | server/app/api/actions.py:61 | the reason of the unblock denotes the id of the reverted row |
| ActionServer.Server.DeleteAction | server/app/api/actions.py:81-92 | a row of the caller's organisation goes, and nothing else changes |
| ActionServer.Server.CreatePendingAction | server/app/services/actions.py:43-104 | refuses exactly when an open row of the key exists, and otherwise adds one fresh pending row with the requested fields and leaves the others alone |
| ActionServer.YaraKeysAreTaken | server/app/workers/yara_schedule.py:47-57 | the one batch query finds exactly the slots that per-slot queries would find |
| ActionServer.ToolHostsAreTaken | server/app/workers/tools_schedule.py:41-53 | the one query per tool finds exactly the hosts that per-host queries would find |
| ActionServer.Server.ScheduleYaraScans | server/app/workers/yara_schedule.py:29-75 | the nested loops compute the batch over hosts times paths |
| ActionServer.Server.ScheduleTool | server/app/workers/tools_schedule.py:23-73 | the loop over eligible hosts computes the batch over them |
| ActionServer.ProductAt | server/app/workers/yara_schedule.py:59-60 | the slot that the nested loops visit at step i times the number of paths plus j is host i and path j |
| ActionServer.DistinctSettingsRefine | server/app/workers/yara_schedule.py:44-75 | with distinct hosts and paths the schedule equals one check per host and path |
| ActionServer.DistinctHostsRefine | server/app/workers/tools_schedule.py:37-73 | with distinct hosts the tool schedule equals one check per host |
| ActionServer.RepeatedPathDoubles | server/app/workers/yara_schedule.py:25-26 | a path configured twice breaks the one-open-row rule |
| Agent.Dispatcher.Execute | agent/internal/cmddispatcher/dispatcher.go:39-78 | one result under the command's id with the handler's status, message and time; a command without a known payload is unsupported |
| Agent.Dispatcher.ExecuteAll | agent/internal/cmddispatcher/dispatcher.go:638-648 | one result per command, in order, each with its own handler's verdict |
| Agent.Loop.TakePendingResults | agent/internal/heartbeat/heartbeat.go:85-91 | hands over the whole queue and empties it |
| Agent.Loop.QueuePendingResults | agent/internal/heartbeat/heartbeat.go:93-100 | appends to the queue |
| Agent.Loop.Tick | agent/internal/heartbeat/heartbeat.go:51-83 | on an error the queue is as before; on success it holds exactly the new results, each with its own handler's verdict |
| Agent.StepsMakeATick | agent/internal/heartbeat/heartbeat.go:51-83 | the protocol's separate agent steps, taken together, are one successful tick |
| Protocol.NextCommandIsNew | agent/internal/heartbeat/heartbeat.go:70-74 | a command about to run was never run before, and no held result names it |
| Protocol.SentRowsAreNew | server/app/grpc_server/agent_servicer.py:220-233 | a heartbeat sends only rows that no answer ever carried |
| Protocol.HeartbeatKeepsTruth | server/app/grpc_server/agent_servicer.py:115-140 | results leave every final status backed by an execution |
| Protocol.StepKeepsInv | server/app/grpc_server/agent_servicer.py:144-243 | every step of server, agents, network and operators keeps the ten-part invariant |
| ProtocolTheorems.StatusIsTruthful | server/app/grpc_server/agent_servicer.py:115-140 | in every run a row marked executed or failed belongs to the one execution of it by its own host, with that outcome and error text |
| ProtocolOutcomes.StatusFollowsVerdict | agent/internal/cmddispatcher/dispatcher.go:39-78 | in every run a row marked executed was run by its host in a step whose handler said OK; one marked failed in a step whose handler said failed or unsupported, with that message as its error, or from a command without payload |
| ProtocolTheorems.SentAndExecutedAtMostOnce | server/app/grpc_server/agent_servicer.py:220-235 | in every run each id is in at most one answer, once, and is executed at most once, by its own host, from a command that conveys its row's kind, target and reason |
| ProtocolTheorems.NoResultNamesPending | agent/internal/heartbeat/heartbeat.go:55-73 | no result held or in flight names a row that is still pending |
| ProtocolTheorems.ResultsAreConserved | agent/internal/heartbeat/heartbeat.go:55-100 | every executed command's result is held once by its agent or was processed by a committed heartbeat, and agents hold nothing else |
| ProtocolTheorems.UndecodableIsNeverExecuted | server/app/grpc_server/agent_servicer.py:98-112 | a row of an unknown kind, or a rule to add with too few bars, is never marked executed |
| ProtocolTheorems.OpenRowsStayUnique | server/app/services/policy.py:38-49 | in every run of policy, REST, schedules with distinct settings, heartbeats, reverts and deletes, one pending or sent row per key other than unblock |
| PolicyRule.LateResultKeepsPolicyUniqueIff | server/app/services/policy.py:38-49 | one result keeps the policy's rule, one active row per host and target of the kinds it creates, exactly when it does not mark executed a row whose place was taken |
| PolicyRule.HeartbeatKeepsPolicyUniqueIff | server/app/grpc_server/agent_servicer.py:217-235 | a whole heartbeat keeps it exactly when its results bring back no row whose rival they leave active |
| PolicyRule.StepKeepsPolicyUniqueIff | server/app/services/policy.py:38-49 | of all steps only such a heartbeat breaks it |
| PolicyRule.PolicyRowsStayUniqueIff | server/app/services/policy.py:38-101 | a run has kept it throughout exactly when no heartbeat of the run brought back a row with an active rival |
| PolicyRule.DisplacedRowWasReverted | server/app/api/actions.py:65-69 | a row brought back was reverted after its own host had executed it |
| PolicyRule.RevertedBlockComesBack | server/app/api/actions.py:55-69 | block, send, revert, block again, late result: two active blocks |
| ProtocolTheorems.PendingIsSettledByNextHeartbeat | agent/internal/heartbeat/heartbeat.go:51-83 | a row pending when a heartbeat is handled is executed or failed at the host's next one, if the RPC does not fail and the row is not deleted |
| ProtocolOutcomes.PendingIsSent | server/app/grpc_server/agent_servicer.py:220-235 | in every reachable state the answer to a heartbeat holds a command for each row its host had pending, and conveys that row |
| ProtocolOutcomes.NextHeartbeatCarriesRow | server/app/grpc_server/agent_servicer.py:220-235 | over every run a pending row that is not reverted or deleted meanwhile is conveyed by its host's next handled heartbeat |
| ProtocolOutcomes.UnblockIsSent | server/app/api/actions.py:54-64 | over every run, after the revert of an executed block the host's next handled heartbeat carries an unblock of that address, unless the unblock is reverted or deleted first |
| Detection.TrackEndsWithLast | server/app/services/rules/engine.py:48-53 | a row ends with the data of the last candidate of its key, and is untouched without one |
| Detection.UpsertTouches | server/app/services/rules/engine.py:34-69 | an upsert refreshes exactly the rows of the key or inserts one, and keeps keys unique |
| Detection.EvaluateReaches | server/app/services/rules/engine.py:72-93 | after n candidates old rows follow their own history, new rows are those of first candidates, and every key is open |
| Detection.EvaluateSucceedsIff | server/app/models/alert.py:54-55 | the candidates go through exactly when none has the key of a closed alert |
| DetectionCycle.Database.UpsertAlert | server/app/services/rules/engine.py:34-69 | the lookup and the insert compute the upsert, and fail exactly on a closed key |
| DetectionCycle.Database.MaybeCreateAction | server/app/services/policy.py:52-101 | a row is added exactly when the rule asks for an action that is not pending, sent or executed, and it is the action asked for; nothing else changes |
| DetectionCycle.Database.EvaluateHostIsolated | server/app/services/rules/engine.py:99-113 | the loop with its rollback computes the all-or-nothing transaction |
| DetectionCycle.Database.RunCycle | server/app/services/rules/engine.py:116-148 | the cycle runs every host's transaction and adds up the counts |
| DetectionCycle.TransactionIsExact | server/app/services/rules/engine.py:72-113 | commits exactly when no key is closed; then every candidate key has one open alert with the last candidate's data and, if new, the first one's start time; otherwise nothing changed |
| DetectionCycle.MaybeCreateGrants | server/app/services/policy.py:38-101 | after the policy ran for a candidate its wish is granted, and stays granted |
| Detection.WishIff | server/app/services/policy.py:25-101 | the SSH rules ask for a block of the source address, the critical YARA rule for quarantine of the file, both only if the context names it, with the alert's rule in the reason; nothing else asks for anything |
| DetectionCycle.PolicyCreatesIff | server/app/services/policy.py:52-101 | one candidate adds a row exactly when it asks for one the host does not have active, and that row |
| DetectionPolicy.PolicyIsExact | server/app/services/policy.py:25-101 | after a committed transaction everything its candidates ask for is active; each new row is one that the candidate which drew its id asked for and the host did not have; old rows stay |
| DetectionPolicy.RulesAreServed | server/app/services/policy.py:52-101 | in particular each SSH candidate with a source address leaves an active block of it, each critical YARA candidate with a file an active quarantine |
| DetectionPolicy.PolicyActsByStep | server/app/services/policy.py:52-101 | for each candidate the policy does nothing or exactly what the protocol allows as a policy step: one checked creation of a kind nobody else creates |
| DetectionCycle.RerunChangesNothing | server/app/services/rules/engine.py:72-109 | a committed host's candidates commit again and change neither alerts nor actions |
| DetectionRerun.FailsAgain | server/app/services/rules/engine.py:110-113 | a host that was rolled back is rolled back again |
| DetectionRerun.RerunIsIdentity | server/app/services/rules/engine.py:99-113 | committed or rolled back, a host's transaction run again is the identity and ends the same way |
| DetectionRerun.MoveToBack | server/app/services/rules/engine.py:135-142 | every host's transaction can be taken as the last of the cycle |
| DetectionRerun.CycleRerunChangesNothing | server/app/services/rules/engine.py:72-142 | a whole cycle run again with the same candidates, in any order of the hosts, changes no alert and creates no action |
| DetectionCycle.EvaluateIsLocal | server/app/services/rules/engine.py:99-109 | a host's transaction reads and writes that host's rows only |
| DetectionCycle.TransactionsCommute | server/app/services/rules/engine.py:137-141 | two hosts' transactions commute |
| DetectionCycle.OrderDoesNotMatter | server/app/services/rules/engine.py:135-142 | a cycle ends in the same state for every order of its hosts |
| Masking.Ipv4AtIff | server/app/services/pii.py:22 | the scan matches exactly what the address pattern matches, in one way |
| Masking.MailAtIsGreedy | server/app/services/pii.py:19-21 | the scan finds an address exactly when the pattern can match, and takes the last dot and the longest end |
| MaskingProofs.NoIpv4IsExact | server/app/services/pii.py:22 | the recursive check says exactly that no position starts an address |
| MaskingProofs.SubIpv4Cleans | server/app/services/pii.py:30-31 | the leftmost pass leaves no IPv4 address, in what it rewrote or beside it |
| MaskingProofs.SubMailKeepsClean | server/app/services/pii.py:26-27 | the email pass creates none |
| MaskingProofs.SubCpfCleans | server/app/services/pii.py:34-35 | the CPF pass leaves no CPF and creates no IPv4 address |
| MaskingProofs.MaskStringHidesAddressesAndCpfs | server/app/services/pii.py:38-42 | no masked text contains an IPv4 address or a CPF |
| MaskingProofs.CleanIsUnchanged | server/app/services/pii.py:30-35 | a text without a match is left alone |
| MaskingProofs.MasksAreIdempotent | server/app/services/pii.py:30-42 | the IPv4 and CPF masks change nothing more in a masked text |
| MaskingPieces.MaskIpv4Iff | server/app/services/pii.py:30-31 | the output is exactly the input with every leftmost match of the pattern replaced by its first three octets and .x, and all text between matches as it was |
| MaskingPieces.MaskEmailIff | server/app/services/pii.py:26-27 | the same for the greedy match of the email pattern, replaced by the first characters of both sides, stars and the last label |
| MaskingPieces.MaskCpfIff | server/app/services/pii.py:34-35 | the same for CPFs, replaced by stars |
| MaskingPieces.MaskStringIff | server/app/services/pii.py:38-42 | the three substitutions one after the other, addresses first and CPFs last, and nothing else |
| MaskingMail.TailSurvivesIff | server/app/services/pii.py:26-27 | a domain survives the email pass exactly when no address starts on it |
| MaskingMail.OutputStartsClean | server/app/services/pii.py:26-27 | the output of the email pass never starts with an address |
| MaskingMail.NoMailIffNoLeak | server/app/services/pii.py:26-27 | the output has no address exactly when no match is followed by a bare second domain |
| MaskingMail.EmailsAreHiddenIff | server/app/services/pii.py:26-27 | the email mask hides every address, and is idempotent, exactly on texts that do not leak |
| MaskingMail.SubCpfKeepsNoMail | server/app/services/pii.py:34-35 | the CPF pass creates no address |
| MaskingMail.MaskStringHidesEmails | server/app/services/pii.py:38-42 | an address gets through all three masks only where the email pass leaks |
| MaskingMail.MaskStringHidesEmailsIff | server/app/services/pii.py:38-42 | and exactly there, when the email pass leaves no CPF |
| MaskingLeaks.DigitlessLeaksIff | server/app/services/pii.py:38-42 | text without digits lets an address through all three masks exactly when it leaks |
| MaskingMail.ChainedAddressLeaks | server/app/services/pii.py:26-27 | a second domain behind an address leaks |
| MaskingLeaks.ChainedAddressLeaksThroughAll | server/app/services/pii.py:38-42 | and leaks through all three masks |
| MaskingLeaks.StarredLeak | server/app/services/pii.py:34-42 | a leaked address whose domain begins with a CPF is starred by the CPF pass, so the two conditions differ |
| MaskingValues.MaskDict | server/app/services/pii.py:45-53 | every value is masked under its key, in order |
| MaskingValues.MaskAnyValue | server/app/services/pii.py:56-63 | texts, dictionaries and lists are masked at every depth, anything else is returned |
| MaskingValues.MaskAnyIff | server/app/services/pii.py:45-63 | the result is exactly the value with every text at any depth replaced by its masked text, and keys, order, shape and other values kept |
| MaskingValues.MaskAnyHidesEverywhere | server/app/services/pii.py:45-63 | at every depth no text holds an IPv4 address or a CPF, while keys, shape and other values stay |
| Tokens.AuthServer.EmitRefresh | server/app/api/auth.py:138-145 | a new live row for the user |
| Tokens.AuthServer.Login | server/app/api/auth.py:65-135 | issues a token exactly for a right password of an active user of the organisation, and otherwise changes nothing |
| Tokens.AuthServer.Refresh | server/app/api/auth.py:155-213 | a token in the cookie wins over one in the body; it is exchanged exactly when it is valid, its user active and its jti, if any, live; then that jti is revoked, one live row of the user is added and no other row changes; a refusal changes nothing |
| Tokens.AuthServer.Logout | server/app/api/auth.py:216-236 | revokes the presented token's jti if it is live, keeping its user, and changes nothing else |
| Tokens.PresentsIff | server/app/api/auth.py:173-177 | the token looked at is the cookie's, without a cookie the body's, and else none |
| Rotation.RotationHolds | server/app/api/auth.py:190-208 | in every run no jti is accepted twice; every login and jti-less refresh starts one chain, on which each token was exchanged once for the next younger one and only the youngest can be live; live rows number the chains minus effective logouts |
| Rotation.StepKeepsChains | server/app/api/auth.py:190-236 | logins, refreshes and logouts keep the order of every chain |
| Rotation.ChainLivesIff | server/app/api/auth.py:148-236 | in every run a chain has a live token exactly until an effective logout of that chain |
| Rotation.RevocationIsFinal | server/app/api/auth.py:148-152 | a revoked row never changes again |
| Rotation.ReplayLeavesChainDeadIff | server/app/api/auth.py:190-202 | in every run a replayed token is refused, and its chain is dead afterwards exactly when somebody had logged out of it |
| Rotation.ReusedChainStaysUsable | server/app/api/auth.py:190-202 | after a replay the chain's live token is still accepted |
| WebClient.ApiClient.GetOrRefreshToken | web/src/lib/api.ts:38-44 | shares the refresh in flight or starts one |
| WebClient.ApiClient.SettleRefresh | web/src/lib/api.ts:16-43 | stores the new token or clears the store, and frees the mutex |
| WebClient.ApiClient.OnFirstResponse | web/src/lib/api.ts:58-109 | a 401 whose path does not contain the excluded text of its kind waits for the refresh in flight or a new one; everything else ends the call with its status |
| WebClient.IncludesIff | web/src/lib/api.ts:65-66 | includes finds a text exactly when it occurs at some position |
| WebClient.MayRefreshIff | web/src/lib/api.ts:63-67 | a JSON call may refresh exactly outside the refresh and login paths, a blob call outside everything under the auth prefix |
| WebClient.SingleFlightHolds | web/src/lib/api.ts:13-73 | in every interleaving, whatever the network loses, at most one refresh is under way and a call makes at most two fetches |
| WebClient.ClientNeverRaces | web/src/lib/api.ts:13-73 | while no answer with a new token was lost, each refresh carries the live token and none is refused as reused |
| WebClient.SessionLivesIff | web/src/lib/api.ts:16-36 | in every run the browser holds or is about to get the live token exactly while no answer with a new token was lost; afterwards no refresh is accepted |
| WebClient.DeadStaysDead | web/src/lib/api.ts:16-36 | no step brings a dead session back |
| FileWatcher.ShouldScan | agent/internal/filewatcher/filewatcher.go:119-134 | accepts exactly creations and writes of files whose last path element is neither hidden nor ignored |
| FileWatcher.BaseNameIff | agent/internal/filewatcher/filewatcher.go:124 | the base name is exactly the last path element without trailing slashes, a dot for an empty name, a slash for nothing but slashes |
| FileWatcher.Watcher.ScheduleScan | agent/internal/filewatcher/filewatcher.go:84-96 | stops the path's timer if it is still armed and arms a new one |
| FileWatcher.Watcher.CallbackRemoves | agent/internal/filewatcher/filewatcher.go:90-93 | removes the path's entry, whichever timer it names by then |
| FileWatcher.EveryEventIsCovered | agent/internal/filewatcher/filewatcher.go:79-96 | under every interleaving each accepted event has a timer no older than it that will still scan, or a scan at least the window after it |
| FileWatcher.EveryScanIsEarned | agent/internal/filewatcher/filewatcher.go:84-96 | different scans belong to different accepted events of their path, at least the window earlier |
| FileWatcher.EventReplacesTimerIff | agent/internal/filewatcher/filewatcher.go:87-90 | an event leaves its timer as the path's only armed one exactly when the map tracked the path |
| FileWatcher.TrackIsLostIff | agent/internal/filewatcher/filewatcher.go:87-93 | a step loses track of a path exactly when it is a late callback while the map names a newer armed timer |
| FileWatcher.CallbackOrphansNewerTimer | agent/internal/filewatcher/filewatcher.go:87-93 | it happens, and two timers are armed for one path |
| EventBatch.EventStream.Receive | server/app/grpc_server/agent_servicer.py:291-315 | a message of another host ends the stream and stores nothing; one of the peer is appended as sent, with severity info if it has none, and acknowledged |
| EventBatch.EventStream.BeginFlush | server/app/grpc_server/agent_servicer.py:271-275 | an empty batch is not pushed; otherwise the whole batch is |
| EventBatch.EventStream.EndFlush | server/app/grpc_server/agent_servicer.py:274-278 | a stored and a failed push clear the whole batch, an interrupted one does not |
| EventBatch.EventStream.Resume | server/app/grpc_server/agent_servicer.py:315-318 | after an acknowledgement the whole batch is flushed exactly when it holds fifty events or more |
| EventBatch.EventStream.Wake | server/app/grpc_server/agent_servicer.py:280-287 | the periodic task pushes what there is |
| EventBatch.EventStream.MainPushEnds | server/app/grpc_server/agent_servicer.py:317-321 | the request loop goes on after its push, or closes if it was cancelled |
| EventBatch.EventStream.PeriodicPushEnds | server/app/grpc_server/agent_servicer.py:280-287 | the periodic task clears and sleeps again |
| EventBatch.EventStream.FlushLast | server/app/grpc_server/agent_servicer.py:319-324 | the last flush starts after the periodic task is gone |
| EventBatch.EventStream.LastPushEnds | server/app/grpc_server/agent_servicer.py:319-324 | the stream closes after the last push |
| EventBatchTheorems.EventIsLostIff | server/app/grpc_server/agent_servicer.py:267-323 | under every interleaving a received event is in neither batch nor push exactly when it came between the latest snapshot and a clear |
| EventBatchTheorems.LostBetweenSnapshotAndClear | server/app/grpc_server/agent_servicer.py:271-278 | a lost event came between one flush's own snapshot and its clear |
| EventBatchTheorems.ClearLosesNothingIff | server/app/grpc_server/agent_servicer.py:271-278 | a clear loses nothing exactly when the batch was empty or nothing arrived since the latest snapshot |
| EventBatchTheorems.PushesAreSlices | server/app/grpc_server/agent_servicer.py:267-278 | every push is a slice of what was received, of one to fifty events |
| EventBatchTheorems.CalmRunSendsAll | server/app/grpc_server/agent_servicer.py:267-323 | when nothing overlaps a push, the pushes followed by the batch are exactly what was received |
| EventBatchTheorems.AcknowledgedEventIsLost | server/app/grpc_server/agent_servicer.py:305-318 | an event acknowledged as stored can be lost |
| Sorting.SortIsTheStableSort | server/app/services/loki.py:92 | being sorted and keeping equal keys in order determines one list, and the sort gives it |
| Loki.GroupByLabels | server/app/services/loki.py:70-79 | each occurring label set, once and in the order of first events, is mapped to exactly its events in order |
| Loki.Push | server/app/services/loki.py:82-94 | the streams hold a permutation of the events, have different labels, are each the stable time sort of exactly the events with their labels, and each line with its labels carries its whole event |
| Loki.StreamRecovers | server/app/services/loki.py:59-64 | labels and payloads give back the pushed events |
| Loki.QueryForHost | server/app/services/loki.py:134-152 | merges all entries, sorts them stably by descending time and cuts, and fails exactly on a line whose JSON value is no object |
| Loki.ReadAllIff | server/app/services/loki.py:132-150 | what is sorted is exactly one event for each line, in response order, with the given defaults for missing labels and keys and the line itself where it is not JSON |
| Loki.NewestAreKept | server/app/services/loki.py:151-152 | the result and what it omits are all entries, the result is newest first, and nothing omitted is newer |
| Loki.QueryReadsPushed | server/app/services/loki.py:103-152 | a query reads exactly the pushed events of its host and source, in whatever order Loki lists streams and entries |
| Loki.QueryReturnsNewestPushed | server/app/services/loki.py:120-152 | with the limit applied by Loki and again by the client, the result is the newest pushed events of that host and source, newest first |
| Quarantine.Quarantiner.MoveFile | agent/internal/quarantine/quarantine.go:127-151 | rename, or copy with clean-up and removal, under every failure |
| Quarantine.Quarantiner.WriteJson | agent/internal/quarantine/quarantine.go:153-159 | the sidecar is written, not touched, or torn |
| Quarantine.Quarantiner.Quarantine | agent/internal/quarantine/quarantine.go:56-110 | the early returns and changes compute the specified disk and outcome |
| Quarantine.StaysHonestIff | agent/internal/quarantine/quarantine.go:139-148 | every stored file keeps hashing to its name exactly when a failed copy's clean-up works or left the right bytes |
| Quarantine.ContentSurvivesIff | agent/internal/quarantine/quarantine.go:83-98 | a call loses its source's content exactly when the source is the stored copy and its removal works |
| Quarantine.DuplicateIsTrustedIff | agent/internal/quarantine/quarantine.go:83-88 | in any store a call loses a file exactly when it drops it as a duplicate of different bytes |
| Quarantine.OtherFilesStay | agent/internal/quarantine/quarantine.go:56-110 | nothing but source, stored copy and sidecar is touched |
| Quarantine.SucceedsIff | agent/internal/quarantine/quarantine.go:56-110 | the exact condition of success, and what success leaves: source gone, content stored, sidecar about it |
| Quarantine.SourceGoesIff | agent/internal/quarantine/quarantine.go:83-98 | the source goes exactly when it was dropped as a duplicate, renamed, or copied and removed, whether or not the call then succeeds; otherwise it is as before |
| Quarantine.StoredIff | agent/internal/quarantine/quarantine.go:127-151 | a new stored copy is left exactly by a rename, a copy that worked, or one whose clean-up failed, and only the last may have wrong bytes |
| Quarantine.SidecarChangesIff | agent/internal/quarantine/quarantine.go:100-110 | the sidecar is touched exactly when the source was secured and its file opened, and then it is the record of this call or torn |
| Quarantine.StoredStays | agent/internal/quarantine/quarantine.go:83-98 | what is stored stays stored over every run |
| Quarantine.ContentIsNeverLost | agent/internal/quarantine/quarantine.go:56-151 | over every run of calls on outside files, whatever fails, a file nobody else changes is where it was or stored under its digest |
| Quarantine.SuccessIsFinal | agent/internal/quarantine/quarantine.go:100-110 | after a successful call the content is stored for the rest of the run |
| Quarantine.StoredCopyIsDeleted | agent/internal/quarantine/quarantine.go:53-88 | quarantining a stored copy reports success and deletes it |
| Quarantine.RetryAfterDebrisLosesContent | agent/internal/quarantine/quarantine.go:141-148 | retrying after a failed clean-up reports success and the content is gone |

## Left out

- Transport: gRPC, TLS, certificates, HTTP clients, Postgres and Celery appear only as atomic steps, lossy channels and arbitrary failures.
- External tools: what a command does on its host is an arbitrary outcome; firewalls, scanners and fail2ban are not part of this model.
- Host statistics in a heartbeat, inventory, enrolment, vulnerability lookup, risk scores and log parsers: they would only add easy members.
- The rule evaluator: candidates are arbitrary, so is the number of them per rule; a rule whose Loki query fails contributes none.
- Two handlers that check for a duplicate at the same time: every handler is one transaction, and there is no database constraint behind the check.
- Column widths and length limits: targets and reasons of any length are stored whole.
- An agent's restart: a run is one process lifetime, the result queue is in memory only.
- A heartbeat loop without a dispatcher, which would drop its commands: the agent's main program always gives it one.
- Real time: a monotone clock of integers; timestamps sent to Loki pass through floating point, whose rounding is not modelled.
- Loki itself: it is taken to answer with the pushed events that the selector matches, the newest of them if there is a limit, and to have them all inside the queried window.
- Text outside ASCII in the masks: the word classes of the patterns are wider there.
- Cyclic or shared values in `mask_dict`: values are trees, whose leaves other than text are integers.
- The yara path allow-list, address syntax in the ban and firewall validators, and audit records.
- Symbolic and hard links, directories inside the quarantine store, other writers in it, and file modes: SHA-256 is injective by construction.
- The end of the file watcher: cancelling its context, errors of the notifier, and the scan itself, which is one instant.
- Several tabs, a new login or a logout during a refresh, and the rate limits of the auth endpoints.
- Protocol.StepKeepsInv: commands of one answer come in any order, because the code's query has none; a host deleted while its agent is running keeps polling and is refused.
- ProtocolTheorems.OpenRowsStayUnique: assumes schedules with distinct hosts and paths; ScheduleKeepsSingleOpenIff gives the exact condition, under which repeats of slots taken beforehand are harmless too.
- WebClient.ClientNeverRaces: assumes no lost answer with a new token, which is the exact condition by SessionLivesIff.
- MaskingMail.MaskStringHidesEmails: one direction; the converse fails by StarredLeak, and MaskStringHidesEmailsIff gives it for texts in which the email pass leaves no CPF.
- Sorting: Python's `sort` is modelled by its result, the stable sort, and not by its algorithm.
- EventBatch.EventStream.Close: cancelling the periodic task and its end are one step, because nothing else touches the batch in between.
