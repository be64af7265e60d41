# Ban Shield and configuration files: a verified model

The project models two parts of the router hub.

**Ban Shield.** Log lines are tailed, matched addresses are scored, addresses and whole subnets are
banned for escalating times, and the bans are kept in a kernel set and in a state file.

- `networks.dfy`: addresses as a family and its bits; containment, covering and overlap of networks
  (section 3.1 of RFC 4632, section 2.3 of RFC 4291).
- `collections.dfy`, `counters.dfy`, `eviction.dfy`: sums, saturating group totals, oldest-first eviction.
- `aggregate_state.dfy`, `aggregate_steps.dfy`: the aggregator's tables as a value, the invariants, and
  each operation as a relation between the state and backend before and after, failures included.
- `aggregator.dfy`, `backend.dfy`: the aggregator as a class whose methods update the tables in place,
  each proved to take a step of its relation, with a backend that may refuse any call.
- `aggregate_invariants.dfy`, `aggregate_caps.dfy`, `aggregate_bans.dfy`, `exceptions.dfy`: what every
  operation keeps; `table_effects.dfy`, `record_effects.dfy`, `ban_effects.dfy`: what it changes, entry by
  entry, in terms of the settings and the tables alone.
- `ipset.dfy`: a kernel set and its longest-prefix lookup.
- `persistence.dfy`: saving and restoring.
- `worker_steps.dfy` and `worker.dfy`: the worker as a transition system and as a class that follows it;
  `worker_runs.dfy`, `worker_backend.dfy`, `worker_recovery.dfy`, `worker_escalation.dfy` and
  `worker_durations.dfy` prove what holds in every world of every run, crashes and restarts among the moves;
  `kernel.dfy` does so for the kernel sets, which know an entry by its truncated network.
- `firewall.dfy`: tuning checks and the guards around manual bans.
- `line_splitting.dfy`, `tailer.dfy`: the incremental line reader against a one-shot splitter, over
  rotations and rewrites.

**Configuration files.** `transaction.dfy` and `migration.dfy` model the rollback guard and the move of
inputs that relies on it; `upstream.dfy` the upstream data files; `text.dfy`, `wireguard.dfy`,
`shell_values.dfy` and `dehydrated.dfy` the printers and parsers (single quotes: section 2.2.2 of the
POSIX.1-2017 Shell Command Language).

Modelling choices:

- A clock reading is a parameter, in seconds; each operation reads the clock once.
- The order in which hash tables are visited is left open: ties in evictions, the order of saved lists and
  of lifted bans are arbitrary choices, and every result holds for all of them.
- Backend calls, saves, file writes and removals may fail at any time, with no effect.
- 64-bit and 32-bit counters saturate as in the program.

The lemmas about a single operation assume its step relation; the class methods establish that relation from
every valid state, so no assumption is empty.

Some results are about inputs for which the program does not do what one would expect; each has the exact
condition and, where it helps, a concrete case:

- a subnet ban of host length comes back as an address ban, and a cap shrunk since drops what no longer fits
  (`Persistence.RestoreIsCleanupExactlyWhen`);
- two spellings of one network, such as 10.0.0.0/24 and 10.0.0.1/24, can both be banned; they share one kernel
  entry, and lifting one lifts both there; a promotion to a host length deletes the entry it added
  (`Kernel.RunKeyedExactlyWhen`);
- lifting a ban written exactly like an exception deletes the exception's kernel entry, since a deletion ignores
  the flag (`IpSet.PassIsRightExactlyWhen`);
- a manual ban of an IPv6 network of length 32 bans one address (`Firewall.ManualTargetIsNetworkExactlyWhen`);
- an upstream with a newline before it passes validation and is written, but not found
  (`Upstreams.FoundExactlyWhen`), and its stray line can be found by its own text
  (`Upstreams.OtherKeysAreUnchangedExactlyWhen`).

## Model

| member | source | states |
|---|---|---|
| `Networks.CoversIsInclusion` | src/firewall.rs:424-428 | one network covers another exactly when it contains every address of it (both directions, host bits and families included) |
| `Networks.OverlapIsIntersection` | src/firewall.rs:420-422 | two networks overlap exactly when some address lies in both |
| `Networks.SharedAddressNests` | src/ban_attack/aggregate.rs:870-876 | of two networks sharing an address, the one with the shorter prefix covers the other |
| `Networks.CanonicalContains` | src/ban_attack/aggregate.rs:834-843 | truncating a network's address changes none of its members |
| `Counters.BumpKeepsTotals` | src/ban_attack/aggregate.rs:216-241 | adding a weight to one score and to its group's total keeps every group total equal to the saturating sum of its members, and the index keys exactly the groups present |
| `Counters.DropGroup` | src/ban_attack/aggregate.rs:695-709 | dropping all members of one group removes exactly that group's total |
| `AggregateState.InsideIsGroup` | src/ban_attack/aggregate.rs:695-701 | the scores inside a subnet by containment are those that truncate to it |
| `AggregateState.SubnetForExactly` | src/ban_attack/aggregate.rs:834-843 | an address's subnet is the one network of its family's configured length, with host bits zero, that contains it |
| `Aggregation.Aggregator.RebuildSubnetCounts` | src/ban_attack/aggregate.rs:845-859 | whatever order the scores are visited in, the index becomes the regrouped scores |
| `Aggregation.Aggregator.Reconfigure` | src/ban_attack/aggregate.rs:137-140 | takes the new configuration, regroups the index under it, and evicts nothing |
| `Aggregation.Aggregator.MakeRoomForIp` | src/ban_attack/aggregate.rs:660-680 | terminates; evicts the fewest addresses that leave room, each seen no later than every address kept, and counts them |
| `Aggregation.Aggregator.TrimReputation` | src/ban_attack/aggregate.rs:747-760 | forgets the fewest reputations that restore the cap, each last banned no later than every one kept |
| `Aggregation.Aggregator.MakeRoomForSubnet` | src/ban_attack/aggregate.rs:682-710 | at capacity evicts one subnet none of whose addresses was seen after the latest of any other subnet, with its scores, times, total and promotion history |
| `Aggregation.Aggregator.EvictOldestCrossing` | src/ban_attack/aggregate.rs:712-745 | removes one crossing as old as any, and an offender table it leaves empty |
| `Aggregation.Aggregator.RecordSubnetOffender` | src/ban_attack/aggregate.rs:712-745 | prunes the subnet's crossings outside the window and notes this one, evicting the oldest when the table is full |
| `Aggregation.Aggregator.AddTimed` | src/ban_attack/aggregate.rs:594-645 | refused for capacity or by the backend with nothing changed, or placed with the record the step gives it and remembered; `BanEffects.AddressBanRecord`, `BanEffects.PromotionRecord` and `BanEffects.PlacingRemembers` say what that is, and `WorkerDurations.NthBanLasts` over runs |
| `Aggregation.Aggregator.RemoveCoveredIpBans` | src/ban_attack/aggregate.rs:803-832 | drops every single-address ban inside the subnet even when the backend keeps its entry, and reports exactly the addresses whose removal failed |
| `Aggregation.Aggregator.Promote` | src/ban_attack/aggregate.rs:762-795 | bans the subnet and takes over the bans inside it, or leaves everything unchanged |
| `Aggregation.Aggregator.TrackIp` | src/ban_attack/aggregate.rs:204-241 | forgets a stale score of the address and makes room for it |
| `Aggregation.Aggregator.AddScore` | src/ban_attack/aggregate.rs:216-241 | adds the weight to the address and to its subnet's total, saturating |
| `Aggregation.Aggregator.Record` | src/ban_attack/aggregate.rs:204-304 | performs one step of the recording relation, on success and on failure; a failure has already changed the scores. `BanEffects.PromotesExactlyWhen` and the lemmas of `RecordEffects` say what a step does to every table |
| `Aggregation.Aggregator.AddManual` | src/ban_attack/aggregate.rs:306-343 | a covered address is refused; otherwise the ban is placed, or nothing changes; `BanEffects.ManualBanRecord` says with which record and for how long |
| `Aggregation.Aggregator.Lift` | src/ban_attack/aggregate.rs:345-384 | removes wanted bans one by one in any order and stops at the first refusal, with exactly the removed ones gone from tables and backend |
| `Aggregation.Aggregator.CleanupExpired` | src/ban_attack/aggregate.rs:345-384 | lifts the expired bans and forgets expired scores, crossings and reputations; stopped part way it forgets nothing else |
| `Aggregation.Aggregator.ApplyExceptions` | src/ban_attack/aggregate.rs:142-191 | lifts excepted bans and forgets excepted scores, crossings and reputations; stopped part way it forgets nothing else |
| `Aggregation.Aggregator.TargetsExcluding` | src/ban_attack/aggregate.rs:193-202 | gives exactly the active targets no exception covers |
| `Aggregation.Aggregator.ResetCounts` | src/ban_attack/aggregate.rs:386-407 | forgets the score, reputation and crossings of an address, or the scores, reputations and crossing tables whose address lies in a network, and regroups the index; bans stay, and an emptied crossing table may remain. `TableEffects.ResetAddressKeepsExactly` and `TableEffects.ResetNetworkKeepsExactly` say so entry by entry |
| `Aggregation.Aggregator.PersistentForm` | src/ban_attack/aggregate.rs:454-504 | writes a file that lists every record of the state once, in some order |
| `Aggregation.Aggregator.RestorePersistentState` | src/ban_attack/aggregate.rs:515-591 | rejects another schema with nothing changed; otherwise rebuilds exactly what the file gives at the time, in the file's order, up to the caps |
| `Backend.BanBackend.Add` | src/ban_attack/backend.rs:713-719 | a call adds one entry or is refused with no effect |
| `Backend.BanBackend.Remove` | src/ban_attack/backend.rs:721-727 | a call removes one entry or is refused with no effect |
| `Backend.BanBackend.Reconcile` | src/ban_attack/backend.rs:729-745 | the entries become exactly the given targets, or nothing changes |
| `AggregateInvariants.RecordAgrees` | src/ban_attack/aggregate.rs:204-304 | recording keeps all seven tables in agreement, on success and failure: active keys are the banned addresses and subnets, records match keys, no banned address lies in a banned subnet, scores and times share a domain, the index is the regrouped scores |
| `AggregateInvariants.AddManualAgrees` | src/ban_attack/aggregate.rs:306-343 | so does a manual ban, whatever the backend refuses |
| `AggregateInvariants.CleanupAgrees` | src/ban_attack/aggregate.rs:345-384 | so does an expiry pass, complete or stopped |
| `AggregateInvariants.ApplyExceptionsAgrees` | src/ban_attack/aggregate.rs:142-191 | so does an exception pass, complete or stopped |
| `AggregateInvariants.ResetAgrees` | src/ban_attack/aggregate.rs:386-407 | so does resetting counts |
| `AggregateInvariants.ScoringAgrees` | src/ban_attack/aggregate.rs:216-241 | making room and adding a weight keeps the index equal to the regrouped scores even before the rest of the step |
| `AggregateInvariants.RecordAttempts` | src/ban_attack/aggregate.rs:245-293 | a step attempts at most one ban, never inside a banned subnet, of the address or of its subnet, with the escalated count and a bounded duration |
| `AggregateCaps.RecordWithinCaps` | src/ban_attack/aggregate.rs:204-304 | each cap that held before recording holds after: addresses, subnet index, crossings, bans, reputations |
| `AggregateCaps.AddManualWithinCaps` | src/ban_attack/aggregate.rs:306-343 | a manual ban keeps every cap |
| `AggregateCaps.CleanupWithinCaps` | src/ban_attack/aggregate.rs:345-384 | an expiry pass keeps every cap |
| `AggregateCaps.ApplyExceptionsWithinCaps` | src/ban_attack/aggregate.rs:142-191 | an exception pass keeps every cap |
| `AggregateCaps.CrossingsStayWithinCap` | src/ban_attack/aggregate.rs:712-745 | the number of crossings over all subnets stays within its cap |
| `TableEffects.CleanupKeepsExactly` | src/ban_attack/aggregate.rs:345-384 | a completed expiry pass keeps a ban until its end, a score while seen within the retention, a crossing within the window, a reputation until its end, each unchanged, and nothing else |
| `TableEffects.ExceptionsKeepExactly` | src/ban_attack/aggregate.rs:142-191 | a completed exception pass keeps exactly the bans, scores, crossings and reputations no exception concerns, unchanged, and reports exactly the bans gone |
| `TableEffects.ResetAddressKeepsExactly` | src/ban_attack/aggregate.rs:386-394 | after a reset an address has no score, time, crossing or reputation; every other entry of every table, and every ban, is as before |
| `TableEffects.ResetNetworkKeepsExactly` | src/ban_attack/aggregate.rs:395-407 | after a reset no address inside has a score or time, and no network whose address lies inside has a reputation or crossing table; everything else, and every ban, is as before |
| `RecordEffects.RecordScoresExactly` | src/ban_attack/aggregate.rs:212-241 | after a hit the address's score is what it brought, nothing once the retention has passed, plus the weight, saturating; every other score and time is as it was unless displaced for room |
| `RecordEffects.EvictedWereSeenFirst` | src/ban_attack/aggregate.rs:660-680 | an address displaced for room was seen no later than any other that stays |
| `RecordEffects.NothingEvictedWithRoom` | src/ban_attack/aggregate.rs:660-690 | nothing is displaced for an address whose score has not expired, nor while there is room |
| `RecordEffects.QuietestSubnetGoes` | src/ban_attack/aggregate.rs:682-709 | where a subnet makes room, each other one had an address seen no earlier than any of its |
| `RecordEffects.RecordNotesExactly` | src/ban_attack/aggregate.rs:252-256 | the crossings after a hit: those before without those displaced, and exactly when it takes an uncovered address over the threshold its own, with the subnet's older than the window gone |
| `RecordEffects.OldestCrossingGoes` | src/ban_attack/aggregate.rs:712-737 | a crossing displaced for room was noted no later than any other of a subnet that stays |
| `RecordEffects.RecordCountsRule` | src/ban_attack/aggregate.rs:212-213 | one more match for the hit's rule, saturating, and one more ban for each ban reported; other rules are untouched |
| `RecordEffects.RecordCountsEvictions` | src/ban_attack/aggregate.rs:660-760 | the eviction count grows by the scores, crossings and reputations displaced, saturating |
| `BanEffects.PromotesExactlyWhen` | src/ban_attack/aggregate.rs:252-293 | a successful hit on an uncovered address promotes its subnet if and only if enough of its addresses have a crossing noted, or its total is at the threshold with enough scored addresses inside, or the address is at its threshold in a subnet banned often enough before; otherwise it bans the address if and only if its score is at the threshold and it is not banned |
| `BanEffects.NoBanLeavesBans` | src/ban_attack/aggregate.rs:245-250 | a hit on a covered address, a failed one and one that reports nothing leave every ban and backend entry as it was |
| `BanEffects.AddressBanRecord` | src/ban_attack/aggregate.rs:606-632 | an automatic ban of an address starts now, is one more than remembered, and lasts the first, second, third or maximum time by that number, with the score and the rule noted |
| `BanEffects.PromotionRecord` | src/ban_attack/aggregate.rs:762-788 | a promoted subnet's ban lasts the longer of the time its number gives and the subnet's own |
| `BanEffects.ManualBanRecord` | src/ban_attack/aggregate.rs:306-343 | a manual ban is there afterwards and returned: from now for the time asked, whatever its network did before; a failure changes nothing, and one for capacity only comes when the table is full |
| `BanEffects.PlacingKeepsOthers` | src/ban_attack/aggregate.rs:803-832 | placing a ban leaves every other ban unchanged but the single addresses inside it |
| `BanEffects.PlacingRemembers` | src/ban_attack/aggregate.rs:634-645 | the network's reputation is renewed, every other one is unchanged or was banned no later than any that stays, and none goes while there is room |
| `AggregateBans.RecordBansExactly` | src/ban_attack/aggregate.rs:245-293 | an address is banned after recording exactly when it was before or lies in the reported ban; nothing is ever unbanned, on failure either |
| `AggregateBans.ManualBansExactly` | src/ban_attack/aggregate.rs:306-343 | an address is banned after a manual ban exactly when it was before or a successful ban contains it |
| `AggregateBans.ThresholdIsBanned` | src/ban_attack/aggregate.rs:262-293 | after a successful recording an address at or over the threshold is banned, directly or by a subnet |
| `AggregateBans.PlaceStepBacked` | src/ban_attack/aggregate.rs:594-632 | every ban has a backend entry; what becomes surplus is exactly the covered addresses whose removal failed, inside the new subnet |
| `AggregateBans.RecordBacked` | src/ban_attack/aggregate.rs:204-304 | recording keeps every ban backed and adds no surplus but the reported cleanup errors |
| `AggregateBans.AddManualBacked` | src/ban_attack/aggregate.rs:306-343 | a manual ban keeps every ban backed; a failed one leaves the surplus as it was |
| `AggregateBans.CleanupBacked` | src/ban_attack/aggregate.rs:345-384 | lifting expired bans, completely or part way, keeps every ban backed and leaves the surplus entries as they were |
| `AggregateBans.ApplyExceptionsBacked` | src/ban_attack/aggregate.rs:142-191 | lifting excepted bans, completely or part way, keeps every ban backed and leaves the surplus entries as they were |
| `AggregateBans.LongerBans` | src/ban_attack/aggregate.rs:606-623 | automatic durations never shrink as offenses grow and stay within the maximum; which they are is `BanEffects.AddressBanRecord` |
| `AggregateBans.OneTargetPerNetwork` | src/ban_attack/aggregate.rs:762-832 | two active targets never stand for networks written alike; two spellings of one network can both be active (see `Kernel.SecondSpellingIsLost`) |
| `AggregateBans.RecordOutlives` | src/ban_attack/aggregate.rs:606-645 | under tuned durations recording keeps every remembered reputation longer-lived than its network's ban |
| `AggregateBans.AddManualOutlives` | src/ban_attack/aggregate.rs:606-645 | so does a manual ban of at most the maximum duration |
| `AggregateBans.CleanupKeepsBannedReputation` | src/ban_attack/aggregate.rs:345-384 | an expiry pass forgets no reputation of a network still banned |
| `Exceptions.ExceptedIsCovered` | src/ban_attack/aggregate.rs:862-876 | a target is excepted exactly when its network is covered |
| `Exceptions.SubnetNotCovered` | src/ban_attack/aggregate.rs:870-876 | the subnet of an unexcepted address is never covered, so promotion never bans inside an exception |
| `Exceptions.RecordUnexcepted` | src/ban_attack/aggregate.rs:204-304 | recording an unexcepted address keeps bans, reputations, scores and crossings off the exceptions |
| `Exceptions.AddManualUnexcepted` | src/ban_attack/aggregate.rs:306-343 | so does a manual ban of an unexcepted target |
| `Exceptions.ApplyExceptionsUnexcepted` | src/ban_attack/aggregate.rs:142-202 | after a complete exception pass, whatever was there before, nothing is excepted and the bans left are exactly those not covered, which are the ones sent to the backend; a stopped pass keeps what held under the old exceptions |
| `Exceptions.ClearedUnexcepted` | src/ban_attack/aggregate.rs:142-191 | a pass over tables that already respect the exceptions changes no ban, no score and no crossing |
| `IpSet.Restore` | src/ban_attack/backend.rs:487-523 | the restore script's additions in order build a set where an exception's entry replaces a ban of the same network |
| `IpSet.BuiltDropsExactly` | src/ban_attack/backend.rs:487-523 | with no ban covered, longest-prefix lookup drops an address exactly when a ban contains it and no exception does |
| `IpSet.ReconciledDropsExactly` | src/ban_attack/aggregate.rs:193-202 | the set built without excepted targets drops an address exactly when some active ban contains it and no exception does |
| `IpSet.PassDropsExactly` | src/ban_attack/backend.rs:608-614 | after an exception pass has deleted lifted entries an address is dropped exactly when a surviving ban contains it and no exception whose entry is left does |
| `IpSet.PassIsRightExactlyWhen` | src/ban_attack/backend.rs:608-614 | the verdict is right unless a surviving ban contains the address and every exception containing it is written exactly like a lifted ban (exact condition of the failing case) |
| `IpSet.LiftedExceptionIsLost` | src/ban_attack/backend.rs:608-614 | the failing family: an excepted address inside a wider ban is dropped after the pass |
| `IpSet.ExceptedRangeIsDropped` | src/ban_attack/backend.rs:608-614 | a concrete state in which that happens: 203.0.0.0/16 and 203.0.0.0/24 are banned, then the latter is excepted |
| `Persistence.RestoreIsCleanup` | src/ban_attack/aggregate.rs:454-591 | restoring a saved state into a fresh aggregator gives exactly what an expiry pass at that time leaves of the original, except the eviction count, when no unexpired subnet ban has host length and what is unexpired is within the caps on addresses, bans and reputations |
| `Persistence.RestoreIsCleanupExactlyWhen` | src/ban_attack/aggregate.rs:515-591 | for every agreeing state, whether or not within caps, that equality holds if and only if no unexpired subnet ban has host length and the unexpired scores, bans and reputations are within the caps |
| `Persistence.HostSubnetComesBackAsAddress` | src/ban_attack/aggregate.rs:529-557 | a concrete state with a ban of host length, for which it fails |
| `Persistence.ShrunkCapLosesBan` | src/ban_attack/aggregate.rs:529-557 | a concrete state of two bans that no longer fit, for which it fails |
| `Persistence.RestoredBansAreLive` | src/ban_attack/aggregate.rs:515-575 | under those conditions bans and reputations come back exactly without the expired ones, in whatever order the file lists them |
| `Persistence.RestoredScoresAreLive` | src/ban_attack/aggregate.rs:575-591 | when the fresh scores are within the cap, scores, times, crossings and the regrouped index come back exactly without the stale ones |
| `Persistence.RestoredAgrees` | src/ban_attack/aggregate.rs:515-591 | any file whatever, in any order, restores to agreeing tables within the caps on addresses, bans and reputations |
| `Worker.BanWorker.Start` | src/ban_attack/engine.rs:283-366 | loads the file, rebuilds the backend without excepted targets and drops them, saving the cleared state; an unusable backend prevents the start with nothing changed |
| `Worker.BanWorker.SavePersistenceIfConfigured` | src/ban_attack/engine.rs:387-403 | saves only when dirty and due; a failed save leaves file and flag |
| `Worker.BanWorker.HandleHit` | src/ban_attack/engine.rs:615-660 | one matched address: skipped when excepted, recorded otherwise, saved at once when it bans |
| `Worker.BanWorker.HandleLine` | src/ban_attack/engine.rs:583-663 | rules are tried in order up to the first whose hit is recorded; excepted and refused hits pass on |
| `Worker.BanWorker.CleanUp` | src/ban_attack/engine.rs:540-556 | an expiry pass and a save, or an error with the part done |
| `Worker.BanWorker.HandleAddBan` | src/ban_attack/engine.rs:448-471 | durations outside 60 seconds to the maximum are refused; a placed ban is saved at once |
| `Worker.BanWorker.HandleReset` | src/ban_attack/engine.rs:412-418 | counts are reset and saved |
| `Worker.BanWorker.HandlePersist` | src/ban_attack/engine.rs:439-447 | a timed or forced save; a flush reports what is still unsaved |
| `Worker.BanWorker.HandleReconcile` | src/ban_attack/engine.rs:423-438 | the backend is rebuilt from the active targets |
| `Worker.BanWorker.HandleUpdate` | src/ban_attack/engine.rs:506-534 | startup-only settings are refused; otherwise reconcile, except, adopt and save, stopping at the first failure with the old configuration; refused as startup-only exactly when those settings differ |
| `Worker.BanWorker.Poll` | src/ban_attack/engine.rs:536-664 | a poll is a run of the transition system: reverification when due, cleanup or a timed save, then every line in order |
| `WorkerRuns.RunAgrees` | src/ban_attack/engine.rs:405-664 | in every world of every run, through updates, failures and restarts, the tables agree |
| `WorkerRuns.RunWithinCaps` | src/ban_attack/engine.rs:405-664 | under one configuration addresses, bans and reputations never exceed their caps, restarts included |
| `WorkerRuns.RunIndexWithinCaps` | src/ban_attack/aggregate.rs:682-745 | under one configuration and without restarts the subnet index and the crossings never exceed their caps either |
| `WorkerRuns.RunKeepsExceptions` | src/ban_attack/engine.rs:302-307 | when manual bans passed the allowlist check and startup passes completed, no ban, reputation, score or crossing ever concerns an exception in force |
| `WorkerBackend.RunBacked` | src/ban_attack/backend.rs:708-745 | while exception passes complete, every ban is among the entries as the memory backend keeps them, told apart by target, and each surplus entry is a single address whose removal failed when some earlier move banned a subnet around it; the kernel sets are the subject of `Kernel` |
| `WorkerBackend.ReconcileRestores` | src/ban_attack/engine.rs:423-438 | one successful reconciliation makes the entries exactly the bans |
| `WorkerBackend.StoppedPassMisses` | src/ban_attack/engine.rs:516-523 | a pass stopped part way leaves without entries exactly the excepted bans it did not reach |
| `WorkerBackend.UpdateAdopts` | src/ban_attack/engine.rs:506-534 | a policy update with other startup settings changes nothing; one whose passes complete is adopted, leaves exactly the bans it does not except, unchanged, with exactly those in the backend, and regroups the index under the new configuration |
| `Kernel.CallsAmountToEffect` | src/ban_attack/backend.rs:600-614 | whatever order a move's removals come in, its calls leave one and the same kernel set, keyed by truncated networks |
| `Kernel.StepExplains` | src/ban_attack/engine.rs:405-664 | the calls charged to a move turn the entries before it into those after it; every ban after it was there or was added, and no removed target is still a ban |
| `Kernel.LiftingKeepsOthersExactlyWhen` | src/ban_attack/backend.rs:608-614 | lifting bans leaves every other ban its kernel entry if and only if none of those lifted is of the same truncated network as one that stays |
| `Kernel.EffectKeepsKeyedExactlyWhen` | src/ban_attack/backend.rs:600-614 | the same for every kind of move, rebuilding, addition and takeover by a promoted subnet included |
| `Kernel.RunKeyedExactlyWhen` | src/ban_attack/engine.rs:405-664 | over every run with completed exception passes and guarded manual bans, every ban has its kernel entry in every world if and only if no move removed a target of the same truncated network as a ban that stays or is placed |
| `Kernel.RunTakesNothing` | src/ban_attack/engine.rs:405-664 | no move does, when manual bans are written with host bits zero, none is a subnet of host length, and promotion is to shorter prefixes than an address |
| `Kernel.KernelFollowsBans` | src/ban_attack/engine.rs:405-664 | in every world of such a run every ban has its kernel entry, every banned address outside the exceptions is dropped, and whatever is dropped is banned or was left behind by a failed removal |
| `Kernel.KernelFollowsBansFromStart` | src/ban_attack/engine.rs:283-664 | the same from an empty disk on, through failures, crashes and policy updates |
| `Kernel.SecondSpellingIsLost` | src/firewall.rs:239-250 | a concrete state, 10.0.0.0/24 and 10.0.0.1/24 both banned: lifting one deletes the entry of both, and an address still banned is no longer dropped |
| `Kernel.HostPromotionIsLost` | src/ban_attack/aggregate.rs:762-795 | with a promotion prefix of host length, promoting a banned address deletes the entry just added |
| `WorkerRecovery.CrashRecovery` | src/ban_attack/engine.rs:283-324 | a restart at any later time gives the lost worker's bans and reputations, minus only what has expired |
| `WorkerRecovery.StepKeepsSound` | src/ban_attack/engine.rs:387-403 | every move keeps the state file able to rebuild the bans and reputations at any later time |
| `WorkerRecovery.RunCrashRecovery` | src/ban_attack/engine.rs:387-664 | from an empty disk that works and whatever the backend refuses, stopping after any move and restarting gives back the same bans and reputations, minus only what has expired |
| `WorkerEscalation.NthBan` | src/ban_attack/aggregate.rs:606-645 | from an empty disk that works, through restarts and whatever the backend refuses, under one configuration that saves and promotes to subnets: the n-th ban of a network since its reputation was last forgotten carries offense count n, saturating |
| `WorkerEscalation.RunCounts` | src/ban_attack/aggregate.rs:606-645 | in the same runs, remembered offense counts are the numbers of bans since the network was last forgotten |
| `WorkerEscalation.RunOutlives` | src/ban_attack/engine.rs:448-454 | in the same runs with tuned durations, every remembered reputation outlives its network's ban |
| `WorkerEscalation.CleanupForgetsNoBannedNetwork` | src/ban_attack/aggregate.rs:345-384 | so in the same runs no expiry pass forgets the remembered reputation of a network that stays banned |
| `WorkerEscalation.NthBanWhileSound` | src/ban_attack/aggregate.rs:606-645 | the n-th ban carries offense count n also through policy updates and failing saves, provided each restart happens when the file can rebuild the bans (none does in a run without restarts) |
| `WorkerDurations.NthBanLasts` | src/ban_attack/aggregate.rs:614-623 | in the runs of `WorkerEscalation.NthBan`, an address's n-th automatic ban since it was last forgotten ends the first, second or third time after it was placed, and the maximum time from the fourth on |
| `WorkerDurations.NthPromotionLasts` | src/ban_attack/aggregate.rs:779-783 | in the same runs, a promoted subnet's n-th ban lasts the longer of the n-th time and the subnet's own |
| `WorkerDurations.BanLasts` | src/ban_attack/engine.rs:405-664 | in the same runs, through crashes and restarts, a ban stays unchanged until its end unless a new ban renews it or takes it over |
| `WorkerDurations.StepKeepsBan` | src/ban_attack/engine.rs:405-664 | every move before a ban's end leaves it unchanged unless it renews it, takes it over or excepts it |
| `WorkerDurations.ManualBanRunsItsTime` | src/ban_attack/aggregate.rs:323-326 | in the same runs, a manual ban is there, ending when asked, in every world until then, and a completed expiry pass from then on lifts it |
| `WorkerDurations.TimesAccepted` | src/ban_attack/engine.rs:448-454 | a requested time is refused exactly when it is under a minute or over the maximum, and then nothing changes |
| `WorkerDurations.StaysForgotten` | src/ban_attack/engine.rs:412-418 | in the same runs, a reset network's reputation stays forgotten until it is banned again |
| `WorkerDurations.FirstBanAfterReset` | src/ban_attack/aggregate.rs:386-407 | in the same runs, the next ban of a reset network carries offense count 1 |
| `Firewall.ValidateTuning` | src/firewall.rs:430-474 | accepts exactly the tunings that meet every relation |
| `Firewall.ValidTuningBuilds` | src/ban_attack/compiled.rs:109-161 | an accepted tuning builds a configuration the engine accepts, under which reputations outlive bans |
| `Firewall.SettingsAreTuned` | src/firewall.rs:386-402 | each setting is the tuning value or limit of its name, days counted as 86400 seconds; there are none exactly when some number of days does not fit 64 bits |
| `Firewall.RequestedBansAreGuarded` | src/firewall.rs:221-243 | a manual ban that passes the allowlist check is never covered by an exception and never a subnet of host length |
| `Firewall.RequestPassesExactlyWhen` | src/firewall.rs:221-243 | a request passes exactly when the policy is enabled, the engine runs, and no address of the network is in the allowlist |
| `Firewall.ManualTargetIsNetworkExactlyWhen` | src/firewall.rs:239-243 | the ban placed covers exactly the requested network if and only if it is not an IPv6 network of length 32 |
| `Firewall.UnbanExcepts` | src/firewall.rs:273-286 | unbanning excepts exactly the old exceptions and the network's addresses, and once more changes nothing |
| `LineSplitting.FedInChunks` | src/ban_attack/tailer.rs:280-323 | feeding bytes in two portions is feeding them at once |
| `LineSplitting.FedIsOneShot` | src/ban_attack/tailer.rs:280-323 | byte-at-a-time splitting equals cutting the whole text at newlines, dropping what is over the limit and one trailing carriage return; pending text, the discarding flag and the saturating drop count included; that what is kept is the text is `LineSplitting.WrittenComesBack` |
| `LineSplitting.CutRejoins` | src/ban_attack/tailer.rs:280-323 | the cut pieces rejoin to the text and contain no newline |
| `LineSplitting.WrittenComesBack` | src/ban_attack/tailer.rs:280-342 | what is handed out is the text: of any lines, each written with LF or CR LF, and an unterminated rest, exactly the texts that fit the limit together with their CR, in order |
| `LineSplitting.FittingComeBack` | src/ban_attack/tailer.rs:280-342 | lines that all fit come back unchanged |
| `LineSplitting.EveryTextIsWritten` | src/ban_attack/tailer.rs:337-342 | every text is lines written so and an unterminated rest |
| `Tailing.OpenFile.Open` | src/ban_attack/tailer.rs:200-245 | a handle starts at the beginning or the end, in agreement with its file |
| `Tailing.OpenFile.Reset` | src/ban_attack/tailer.rs:248-256 | reading starts over at the first byte with the drop count kept |
| `Tailing.OpenFile.WasRewritten` | src/ban_attack/tailer.rs:258-278 | says rewritten exactly for a shorter file or a changed one with other text before the offset; never while the anchor is the text before the offset |
| `Tailing.RewriteIsSeenExactlyWhen` | src/ban_attack/tailer.rs:258-278 | a changed file is taken for rewritten if and only if it is shorter than what was read, or one of the 64 bytes before the offset differs |
| `Tailing.OpenFile.ReadCompleteLines` | src/ban_attack/tailer.rs:280-323 | consumes at most the byte budget in order, hands out lines up to the line budget, keeps agreement with the one-shot splitter, whose lines are the text (`LineSplitting.WrittenComesBack`), and reads at least one byte when there is data and room |
| `Tailing.OpenFile.Serve` | src/ban_attack/tailer.rs:159-181 | a retired handle's turn: untouched without budget, read with it, closed at its second idle poll with its unterminated tail as a line |
| `Tailing.GrowthKeeps` | src/ban_attack/tailer.rs:258-278 | a file that only grew still agrees with its handle |
| `Tailing.ClosesOnlyDrained` | src/ban_attack/tailer.rs:172-177 | a handle closes only at the end of its file, having been idle the turn before and reading nothing in this one |
| `Tailing.ReadingResetsIdle` | src/ban_attack/tailer.rs:159-181 | a retired handle that read anything is not closed by that turn or the next |
| `Tailing.TwoIdleTurnsClose` | src/ban_attack/tailer.rs:172-177 | two turns with budget that find nothing close it, the second with its rest |
| `Tailing.ClosedFileIsFullyRead` | src/ban_attack/tailer.rs:172-177 | when it closes, every line of its file from where it began has been handed out, an unterminated last one included; only those too long are missing |
| `Tailing.TailingIsOneShot` | src/ban_attack/tailer.rs:280-323 | however an append-only file is cut into polls and whatever their budgets, the lines handed out and the state are those of the one-shot splitter on the bytes consumed, and the anchor is the text before the offset |
| `Tailing.TailedTextComesBack` | src/ban_attack/tailer.rs:280-342 | so the lines handed out are the texts that fit, whatever lines the bytes consumed were written as |
| `Tailing.TailingCatchesUp` | src/ban_attack/tailer.rs:280-323 | polls with room consume at least a byte each until the end of the file |
| `Tailing.PathState.Locate` | src/ban_attack/tailer.rs:112-148 | a missing or replaced path retires its handle untouched, a new file opens at its start position, a rewritten one is read again |
| `Tailing.PathState.Drain` | src/ban_attack/tailer.rs:150-183 | retired handles are served in order, each with what the ones before left of both budgets, and exactly the open ones are kept |
| `Tailing.PathState.ReadLinesBounded` | src/ban_attack/tailer.rs:104-197 | a poll hands out at most the allowed lines and consumes at most the allowed bytes over all handles, retired ones first, and keeps every handle in agreement with its file |
| `Tailing.FollowedPath.Poll` | src/ban_attack/tailer.rs:104-197 | over any number of polls and rotations of growing files, a record of the lines handed out stays true: from each open handle they are the one-shot splitting of the bytes consumed, in order, from each closed one all lines to the end of its file |
| `Tailing.LoggedIsOneShot` | src/ban_attack/tailer.rs:104-197 | what such a record says for one handle: the lines handed out from it over all polls are the splitting of its file's bytes from where it began, each once and in order |
| `Tailing.LoggedTextComesBack` | src/ban_attack/tailer.rs:104-197 | so over any polls and rotations each handle's lines are its file's texts that fit, each once and in order, with the rest's text once it is closed |
| `Tailing.Append` | src/ban_attack/tailer.rs:258-278 | a file that grows between polls keeps the record true |
| `Transactions.RevertedIsOriginal` | src/nginx_render.rs:982-996 | putting back what was saved, last first, gives the original files whatever happened to the saved ones |
| `Transactions.FileTransaction.Rollback` | src/nginx_render.rs:982-996 | on success the files are the original ones; stopped by a failure it stays uncommitted, still guards the original, and each file holds what it held or what was saved of it |
| `Transactions.FileTransaction.Drop` | src/nginx_render.rs:999-1006 | what was not committed is put back; what was committed is left alone |
| `Transactions.FileTransaction.Preflight` | src/nginx_render.rs:944-953 | saves what every path holds before anything is written |
| `Transactions.FileTransaction.Attempt` | src/nginx_render.rs:934-976 | however far writing and removing get, everything changed is saved and each file holds its old or intended content |
| `Transactions.Apply` | src/nginx_render.rs:927-976 | on success exactly the writes and removals are done; on failure everything is as before when putting back succeeds, and no file holds anything but its old or intended content even when it does not |
| `Transactions.SaveSettings` | src/api/nginx.rs:609-630 | saved exactly as asked after an accepted test and reload; reported as restored only when every file is as before |
| `Migration.Collect` | src/nginx_render.rs:1012-1049 | finds the inputs present, refuses equal directories and conflicting text, and changes nothing |
| `Migration.Migrate` | src/nginx_render.rs:1010-1070 | moves all known inputs or, when putting back succeeds, leaves all files as before; no file ever holds anything but its old or migrated content, and where nothing is left to move nothing changes whatever fails |
| `Migration.MigrationLosesNothing` | src/nginx_render.rs:1024-1047 | every input's text is in the inputs directory afterwards, no text there was overwritten, `.conf` inputs stay in place, all other files are untouched |
| `Migration.MigrationIsIdempotent` | src/nginx_render.rs:1010-1070 | after a migration nothing is left to move |
| `Migration.InputsAreDistinct` | src/nginx_render.rs:1012-1019 | the known inputs are different files |
| `Migration.InputsThatStay` | src/nginx_render.rs:1012-1047 | the six `.conf` inputs stay in the legacy directory as well, the other four do not |
| `Migration.LegacyAfterMigration` | src/nginx_render.rs:1043-1047 | after a migration a `.conf` input is in the legacy directory as it was, and no other is there |
| `Migration.MigrateInputs` | src/nginx_render.rs:1010-1070 | the migration of the known inputs keeps every text found, overwrites none, leaves the `.conf` inputs in the old place and removes the others, touches no other file and leaves nothing to move again; or all is as before |
| `WireGuard.ParseWgConf` | src/api/wireguard.rs:45-102 | the loop over lines computes the reading that the round-trip lemmas are about |
| `WireGuard.WriteWgConf` | src/api/wireguard.rs:104-148 | the appending loops write exactly the lines that the round-trip lemmas are about |
| `WireGuard.EntryIsRead` | src/api/wireguard.rs:67-71 | a written entry reads back as its own assignment, equals signs in the value included |
| `WireGuard.CaseIsIgnored` | src/api/wireguard.rs:67-71 | a key is read whatever the case of its letters |
| `WireGuard.CommentsAreIgnored` | src/api/wireguard.rs:50-54 | comments and blank lines change nothing |
| `WireGuard.PeersAreRead` | src/api/wireguard.rs:131-146 | any number of written peers is read back in order after those already there |
| `WireGuard.RoundTripsExactlyWhenPlain` | src/api/wireguard.rs:45-148 | reading what was written gives the same configuration if and only if every text field is trimmed and without newline; every port and MTU round-trips |
| `WireGuard.ReadingIsStable` | src/api/wireguard.rs:45-148 | for every text, writing what was read and reading it again changes nothing |
| `Text.ParseU16OfDecimal` | src/api/wireguard.rs:78-82 | the decimal form of every 16-bit number parses back |
| `ShellValues.ShellRoundTrip` | src/state.rs:596-598 | for every text, quoting it and reading it back gives it, white space around the quoting or not |
| `ShellValues.QuotedExactly` | src/storage.rs:358-382 | a value that begins with a single quote reads as v if and only if it is exactly the quoting of v |
| `ShellValues.DoubleQuotedExactly` | src/storage.rs:380-385 | a value that begins with a double quote reads as v if and only if it is v between two double quotes |
| `ShellValues.BareExactly` | src/storage.rs:386-390 | an unquoted value reads as itself if and only if it has no white space inside |
| `ShellValues.ParseShellValue` | src/storage.rs:358-391 | the character loop computes the value that those lemmas are about |
| `Dehydrated.RenderConfig` | src/state.rs:460-523 | writes the configuration, or nothing exactly when name, hook or environment is invalid |
| `Dehydrated.ParseConfig` | src/storage.rs:323-356 | the loop over lines computes the settings that the round trip is about |
| `Dehydrated.ConfigRoundTrip` | src/state.rs:460-523 | reading a written configuration recovers authority, challenge, domains path, hook and the whole environment, in whatever order that was written |
| `Dehydrated.RenderDomains` | src/state.rs:525-543 | writes the domain file, or nothing exactly when the name or a domain is invalid or there is none |
| `Dehydrated.ParseDomains` | src/storage.rs:393-416 | gives the de-duplicated words of all lines; an error exactly when one is invalid or there is none |
| `Dehydrated.DeduplicatedKeepsAll` | src/storage.rs:407-409 | de-duplication keeps every domain, once, and changes nothing where there are no repetitions |
| `Dehydrated.DomainsRoundTrip` | src/state.rs:525-543 | a written domain file names exactly the written domains, in order |
| `Dehydrated.BareDomainLineIsRead` | src/storage.rs:400-405 | a line of domains without the certificate's name reads as the domains too |
| `Dehydrated.CommentsSayNothing` | src/storage.rs:323-330 | comments and blank lines say nothing in either file |
| `Dehydrated.MissingDomainsAreLookedUp` | src/storage.rs:285-300 | with its domain file missing a certificate loads as if the one its configuration names were there, and not at all when that is missing too |
| `Dehydrated.SavedIsLoaded` | src/storage.rs:270-321 | a certificate written to its two files loads as it was, but for repeated domains and the default DNS hook made explicit |
| `Upstreams.NormalizeServerNames` | src/nginx.rs:390-414 | gives the names or the site's own one, and fails exactly when one is empty or has white space or nginx syntax |
| `Upstreams.SiteUpstream` | src/nginx.rs:438-468 | the scan finds the first entry of any of the keys |
| `Upstreams.SyncSiteUpstream` | src/nginx.rs:483-527 | fails exactly for invalid upstreams and keys; otherwise writes the edited text that the laws are about |
| `Upstreams.EntryKeyIsFirstWord` | src/nginx.rs:455-462 | wherever the reader, which strips comments, finds an entry, its key is the raw first word the writer compares |
| `Upstreams.SyncedExactly` | src/nginx.rs:511-526 | unless a newline stands before the upstream, the edited file's entries are those of untouched keys, then one for each new key with the trimmed upstream |
| `Upstreams.KeptIsFilter` | src/nginx.rs:511-519 | an edit leaves out exactly the lines whose first word is one of the keys; every other line stays where it was among the rest |
| `Upstreams.SyncedLines` | src/nginx.rs:511-526 | the lines of the edited file are those kept, without a carriage return at their end, and the new ones |
| `Upstreams.CommentsAreNotRead` | src/nginx.rs:455-462 | what follows a hash is not read |
| `Upstreams.HandWrittenIsRead` | src/nginx.rs:455-468 | a line written by hand is read as its key and value, however it is spaced and with or without semicolons behind the value |
| `Upstreams.NewKeysAreFound` | src/nginx.rs:438-526 | unless a newline stands before the upstream, after an edit old and new keys look up the trimmed upstream when one of them is new, else nothing |
| `Upstreams.OtherKeysAreUnchangedExactlyWhen` | src/nginx.rs:511-526 | for every accepted upstream, looking up any other keys gives what it gave before if and only if the upstream left no stray line, or is not itself among the keys, or there was something to find |
| `Upstreams.OtherKeysAreUnchanged` | src/nginx.rs:511-526 | so it does for all keys other than the trimmed upstream itself, comments and foreign lines included |
| `Upstreams.FoundExactlyWhen` | src/nginx.rs:523-526 | the new keys look up the trimmed upstream if and only if no newline stands before it in the given text |
| `Upstreams.NewlineLosesUpstream` | src/nginx.rs:523-526 | a concrete upstream that is accepted and written and then not found |

## Left out

- IpSet.PassDropsExactly: assumes of the kernel that lookup is by longest prefix, that an entry is known by its truncated network, and that deleting one ignores its `nomatch` flag.
- Kernel.KernelFollowsBansFromStart: assumes besides that an addition over an entry makes it one for matching addresses; under the exceptions it never meets a `nomatch` entry.
- Kernel.RunTakesNothing: asks of each manual ban that its host bits are zero, which the program does not check.
- Aggregation.Aggregator.RestorePersistentState: bounds neither the subnet index nor the crossings, as in the program; those two caps are proved for every other step.
- Aggregation.Aggregator.AddTimed: times are unbounded integers, so saturation of dates far in the future is not modelled.
- Aggregation.Aggregator.Record: one clock reading serves the whole call, where the program reads the clock again for a promotion.
- WorkerRecovery.RunCrashRecovery: asks for promotion prefixes shorter than the host lengths and a single configuration; scores recorded between saves may be lost and are not claimed.
- WorkerEscalation.NthBan: stated for runs under one configuration whose saves succeed, as crash recovery is; with policy updates or failing saves a crash may lose the newest bans.
- WorkerDurations.BanLasts: stated for the same runs, as are the other run results of that module; `WorkerDurations.StepKeepsBan` covers policy updates one move at a time.
- WorkerRuns.RunWithinCaps: policy updates may shrink caps without evicting, so runs with updates are excluded.
- WorkerRuns.RunIndexWithinCaps: restoring a file bounds neither the subnet index nor the crossings, so runs with restarts are excluded too.
- Worker.BanWorker.Start: an unreadable state file and one with another schema load as nothing; health counters, events and error texts are not modelled.
- Tailing.FollowedPath.Poll: for files that only grow; a rewritten file is read again from its first byte (`Tailing.PathState.Locate`).
- Tailing.PathState.ReadLinesBounded: errors while reading an open handle, the reuse of a file identity and links swapped between two system calls are not modelled; a path is one entry of the program's table of paths.
- Tailing.OpenFile.ReadCompleteLines: how many of the available bytes one system call returns is left open, at least one.
- Transactions.Apply: directories created on the way, file modes and the check of managed paths are not modelled; the check of the global settings is a parameter.
- Migration.Migrate: the check that renders every site is a parameter.
- Upstreams.SyncSiteUpstream: the runtime map rendered from the data, and the writing of both files, are not modelled beyond the transaction they use.
- Dehydrated.ConfigRoundTrip: asks for a certificate directory without a newline; text is taken as characters, without lossy conversion of paths.
- The table of followed paths as a whole: adding and dropping configured paths, and the total of dropped lines over all handles, which falls when a retired handle goes.
- Server names extracted from rendered nginx files, and the settings validators.
- Rule matching: a rule is what it makes of a line, an address or nothing; the regular expressions and their automata are not modelled.
- Threads, channels, time-outs and the engine's replacement by the firewall manager: commands and polls are atomic moves.
- Firewall chains, process calls and the observe-only and test modes of the backend.
- JSON and TOML encodings, temporary files and syncing: a save is one atomic write.
- Snapshots and status reports, which read the tables and keep no state.
- Templates and nginx validation; HTTP handlers, authentication, the other services.
