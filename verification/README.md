# Verified model of the crash-recoverable and asynchronous parts

This project models, in Dafny 4.11, the parts of the parental-control system whose correctness
depends on crashes, interleavings or unbounded text, and proves what they promise.
`dafny verify dfyconfig.toml` checks everything.

**Storage that survives crashes** (`CrashSteps`, `Lifecycle`, `LifecycleExact`, `Migration`,
`PolicyCapture`, `PolicyExact`, `KeyFile`, `Visibility`, `VisibilityExact`, `TrustConfig`,
`TrustShapes`, `TrustBackend`, `TrustExact`). Every durable write is one atomic step; the power may
fail before any of them and a rerun starts from the disk alone. `Progress` says how far an operation
got, `Power` how many writes remain. Each operation is a function from (disk, power) to progress,
and a class performs the same operation in place and is proved equal to the function. The main
results quantify over every sequence of attempts with every cut.

**Asynchronous state machines** (`SessionUnlock`, `SessionAnswers`, `Wellbeing`, `WellbeingHistory`,
`CountdownRefresh`, `CountdownLocks`, `ResumeRefresh`, `ResumeHistory`). An object's handlers run to
completion; between them any event may come. `Step` is the effect of one event, a log records what
the object asked of the world, and the main results quantify over every event sequence. A class
holds the source's fields, and each handler method is proved equal to `Step` or to the part of it
that it performs.

**A two-process protocol** (`TurnProtocol`, `TurnAnswers`, `Framing`). The client, the bridge, the
two channels and the SDK are one system whose moves interleave freely. `Framing` shows that the byte
streams below it are FIFO channels of messages, however they are cut into chunks.

**Text and graph algorithms** (`PythonText`, `ByteText`, `CodeSpans`, `ExampleShapes`, `LinkSyntax`,
`LinkShapes`, `Brackets`, `Links`, `DefinitionShapes`, `LinkCompleteness`, `HeadingSlugs`,
`DistroPam`, `LogicalLines`, `StackShapes`, `ArtifactInputs`, `ArtifactSelection`). Each loop of the
source is a method proved against a simple reference; what the algorithm is for is proved about the
reference.

## Where the code does less than its comments or design say

* `release_account` refuses after a first quarantine that was cut between its record and the expiry
  change (`ReleaseRefusalIsReachable`). `OwnCrashesAreNeverRefused` shows this is the only such case;
  rerunning the whole configuration repairs it (`ConfigureConverges`).
* A policy capture cut right after it created its directory blocks retirement for good once the
  legacy state is erased: what the state's erasure leaves decides it (`RetireConverges`,
  `ErasureDecidesRetirement`). The gate in prepare prevents this in every run that neither captures
  while prepared nor records the removal intent through a rollback (`OrderlyRunsRetire`); each of the
  two escapes the gate (`CutCaptureBlocksRetirement`, `UngatedRollbackBlocksRetirement`).
* The idle dispatch check of the unlock recovery keeps the request, whatever else it sees, while the
  request is young, its owner stays and the shield is locked (`DispatchCheckOnlyWaits`). A notification
  that finds the session inactive or exhausted again withdraws it; the check that finds the same only
  waits and does not remember what it saw (`InactivityIsForgiven`, `ExhaustionIsForgiven`). The answered
  Unlock respects everything observed exactly when no observation was lost that way
  (`ObservationsAreRespectedExactly`). The guards are not read again after the retry record
  (`GuardsAtTheCall`).
* A link inside a bracketed phrase that is no link itself is not reported (`PhraseHidesItsLink`), and so
  not masked; `LinksAreComplete` says exactly which links are, and `OutermostIsReached` when all are.
* After close, a release that the bus refuses to take is never tried again (`RefusedReleaseIsFinal`);
  then the helper's own deadline ends the window. `ReleaseIsExact` says exactly when everything was
  released.

## Model

| member | source | states |
|---|---|---|
| LifecycleMigration.EveryCrashStateIsSafe | packaging/lifecycle_migration.py:672-862 | over every sequence of cut operations: an expiry record holds the original expiry and the live expiry is 1 or it; without a record the live expiry is the original; an open account means no removal marker and no removing state; the marker implies the state; every PAM file is one the record explains; nothing original is lost |
| LifecycleMigration.OwnCrashesAreNeverRefused | packaging/lifecycle_migration.py:672-862 | no crash of the code's own makes a later operation report a foreign marker, a modified PAM file (except commit before restore) or a changed identity (except restore before prepare); a changed expiry is reported exactly by release after a quarantine cut between its two writes |
| LifecycleMigration.ReleaseRefusalIsReachable | packaging/lifecycle_migration.py:209-247 | that refusal happens: the power fails inside the first quarantine |
| LifecycleMigration.ConfigureConverges | packaging/lifecycle_migration.py:672-777 | crash convergence: from every reachable disk prepare, restore, commit and release succeed exactly when the legacy record is gone or was admitted in another boot, and then the three records are gone and every PAM file and the expiry are the originals |
| LifecycleMigration.NextBootConverges | packaging/lifecycle_migration.py:672-707 | a refused first attempt records the boot, so the attempt of the next boot succeeds |
| LifecycleMigration.RemovalConverges | packaging/lifecycle_migration.py:840-862 | after account deletion the finalizer succeeds exactly when the record is gone or was prepared for removal in another boot, and restores every PAM original |
| LifecycleMigration.OnlyReleaseReopens | packaging/lifecycle_migration.py:230-247 | only release (without state) and a releasing rollback (with the legacy gates and policy back) reopen a closed account |
| LifecycleExactness.OperationsAreExact | packaging/lifecycle_migration.py:209-862 | on every disk, even one edited by others, and for every cut: an uncut operation succeeds exactly when the disk and the surroundings permit it and then leaves exactly one disk; a cut one leaves a disk on the way there; one that is not permitted leaves at most the boot recorded by a first prepare, or the barred account of a rollback that misses its policy |
| LifecycleExactness.ErasureIsAuthorised | packaging/lifecycle_migration.py:752-862 | in every run the record is erased only by a commit with the replacement ready and visible, nothing of the kiosk running, the removal prepared in an earlier boot and both PAM files original, or by the finalizer after the account is gone; by then every PAM file is its original |
| LifecycleExactness.UnloadIsAuthorised | packaging/lifecycle_migration.py:655-707 | the policy is unloaded only by prepare or a closing rollback whose inputs were attested, with nothing of the kiosk running, in a later boot than the admission |
| LifecycleExactness.ConfigureIsExact | packaging/lifecycle_migration.py:672-777 | from every reachable disk and in any surroundings a whole configuration succeeds exactly when every one of its observations passes |
| LifecycleExactness.CutsCanBeResumed | packaging/lifecycle_migration.py:209-862 | a permitted operation that was cut anywhere is still permitted, and its rerun leaves the very disk the uncut one would have left |
| MigrationInPlace.Migration.DoQuarantine | packaging/lifecycle_migration.py:209-220 | the journalled closing of the account, write by write |
| MigrationInPlace.Migration.DoPrepare | packaging/lifecycle_migration.py:672-707 | admission, quarantine, removal intent, marker, barriers and policy unload in their order |
| MigrationInPlace.Migration.DoRestoreOriginalPam | packaging/lifecycle_migration.py:725-749 | restores or erases each PAM file under quarantine |
| MigrationInPlace.Migration.DoCommit | packaging/lifecycle_migration.py:752-777 | checks originals and readiness, then erases marker and state |
| MigrationInPlace.Migration.DoReleaseAccount | packaging/lifecycle_migration.py:230-247 | journals the release, reopens the account, drops the journal |
| MigrationInPlace.Migration.DoRollback | packaging/lifecycle_migration.py:780-837 | reinstates the gates under the reloaded policy, or bars them again, then settles the expiry |
| MigrationInPlace.Migration.DoReinstate | packaging/lifecycle_migration.py:809-823 | reloads the policy before it puts the legacy gates back |
| MigrationInPlace.Migration.DoFinishRemove | packaging/lifecycle_migration.py:840-862 | the post-erase finalizer |
| PolicyCapture.EveryCrashStateIsJournalled | packaging/lifecycle_migration.py:479-652 | in every crash state each retained member has the inode and digest of the receipt, or the directory is empty and there is no receipt; ready means all members are present |
| PolicyCapture.CaptureConverges | packaging/lifecycle_migration.py:540-610 | rerunning the capture finishes it exactly when it is ready or the old inputs can still be attested and are the recorded ones |
| PolicyCapture.RetireConverges | packaging/lifecycle_migration.py:613-652 | rerunning retirement removes everything exactly when the capture was completed or never begun |
| PolicyCapture.ErasureDecidesRetirement | packaging/lifecycle_migration.py:752-777 | once commit or the finalizer has erased the state, whatever is attempted afterwards, retirement succeeds exactly when nothing had been retained or the capture was complete at that moment |
| PolicyCapture.OrderlyRunsRetire | packaging/lifecycle_migration.py:672-707 | in every run without a capture while prepared and without a rollback into the prepared state, a prepared disk is retirable and retirement succeeds after every erasure: the gate in prepare is enough |
| PolicyCapture.CutCaptureBlocksRetirement | packaging/lifecycle_migration.py:540-652 | the first order is needed: prepare, a capture cut after creating its directory, and the erasure make retirement refuse |
| PolicyCapture.UngatedRollbackBlocksRetirement | packaging/lifecycle_migration.py:780-805 | so is the second: a cut capture, the rollback that records the removal intent before it looks at the policy, and the erasure make retirement refuse |
| PolicyCapture.ReadyIsKept | packaging/lifecycle_migration.py:540-610 | once a capture is ready, no further attempts with any cuts touch it as long as the legacy state exists |
| PolicyCapture.MembersDieOnlyRetiring | packaging/lifecycle_migration.py:613-652 | a member that a run published and no longer holds was lost at one attempt, a retirement after the state was gone and under the retiring phase |
| PolicyCapture.TamperedMembersAreLeftAlone | packaging/lifecycle_migration.py:518-537 | on any disk, even one edited by others, no number of retirements with any cuts changes anything while one member is not the recorded one |
| PolicyExactness.CaptureIsExact | packaging/lifecycle_migration.py:540-610 | on every disk, even one edited by others: an uncut capture succeeds exactly when it may be made and leaves exactly the captured disk; a cut one is on the way, every record before its member; one that may not be made leaves at most the first name published |
| PolicyExactness.RetirementIsExact | packaging/lifecycle_migration.py:613-652 | on every disk: an uncut retirement succeeds exactly when nothing is retained, or the state is gone and what is retained is the recorded capture, and then nothing is left; a cut one is on the way out, and one that may not be made changes nothing |
| PolicyExactness.NeighboursAreExact | packaging/lifecycle_migration.py:451-466 | on every disk: while the state exists prepare and a releasing rollback need an available policy, the complete capture or, with nothing retained, the attested package's, and a closing rollback needs none; the state is erased only if it was prepared; each changes one fact, and a refused or cut one nothing |
| PolicyCapture.Retention.DoCapture | packaging/lifecycle_migration.py:540-610 | the capture in place |
| PolicyCapture.Retention.DoComplete | packaging/lifecycle_migration.py:570-610 | links the missing members, verifies them all and records readiness |
| PolicyCapture.Retention.DoRetire | packaging/lifecycle_migration.py:613-652 | the retirement in place |
| KeyFile.FindPosition | packaging/lifecycle_migration.py:911-939 | the scanning loop computes the position of the one boolean to replace or of the one line to insert |
| KeyFile.AcceptedMeans | packaging/lifecycle_migration.py:911-939 | a cache is accepted exactly when it decodes, has one User group and at most one boolean SystemAccount in it; it is visible exactly when that one is false |
| KeyFile.EditPreservesMeaning | packaging/lifecycle_migration.py:1018-1026 | the edit yields an accepted, visible cache with the same groups and the same values of every other key |
| KeyFile.EditIsMinimal | packaging/lifecycle_migration.py:1018-1026 | one boolean is exchanged or one line inserted; every other byte stays |
| KeyFile.EditIsIdempotent | packaging/lifecycle_migration.py:1018-1026 | a second edit changes nothing |
| Visibility.EveryCrashStateIsAtomic | packaging/lifecycle_migration.py:968-1057 | after any crashes the cache name refers to exactly the old or exactly the new bytes with the original metadata, and any slot or mark is the evidence of this transaction |
| Visibility.RerunConverges | packaging/lifecycle_migration.py:968-1057 | a rerun at start-pre removes slot and mark and reaches the visible content, without editing twice; elsewhere it succeeds exactly when nothing is pending |
| VisibilityExactness.TransactionIsExact | packaging/lifecycle_migration.py:968-1057 | on every directory, even one edited by others: an uncut run succeeds exactly when it may proceed and leaves exactly one directory; a cut one stops at a step of the way; a refused one changes nothing, or drops the mark of a finished transaction |
| Visibility.CacheDirectory.DoRecover | packaging/lifecycle_migration.py:968-996 | finishes or discards an interrupted transaction |
| Visibility.CacheDirectory.DoMakeVisible | packaging/lifecycle_migration.py:999-1057 | the transaction in place |
| SessionUnlock.DeactivationIsAuthorised | child/sessionUnlock.js:73-188 | in every event sequence a deactivation answers a trusted Unlock of a native limit lock that no notification, signal, timeout, failed handler or dispatch check since withdrew; a dispatch check with all guards within two seconds of it precedes the call in the same main-loop turn |
| SessionUnlock.WithdrawalIsExact | child/sessionUnlock.js:73-188 | in every run a request that is not dispatched survives an event exactly when the event is not one of these withdrawals |
| SessionUnlock.ObservationsAreRespectedExactly | child/sessionUnlock.js:91-188 | no handler observed an unlocked shield, inactivity after activity or exhaustion after clearing between the Unlock and its deactivation exactly when no such observation was made by the waiting dispatch check or rested on what a check had seen |
| SessionUnlock.InactivityIsForgiven | child/sessionUnlock.js:161-165 | for every owner, lock and grant: inactivity seen by the dispatch check alone is answered with a deactivation |
| SessionUnlock.ExhaustionIsForgiven | child/sessionUnlock.js:170-173 | the same for exhaustion after clearing |
| SessionUnlock.GuardsAtTheCall | child/sessionUnlock.js:174-185 | the call is made whatever its world is, so all guards hold at it for certain only if the retry record returns in the world of the check |
| SessionUnlock.DeactivatesAtMostOnce | child/sessionUnlock.js:141-188 | one Unlock is answered by at most one deactivation |
| SessionUnlock.ClosedForGood | child/sessionUnlock.js:238-247 | nothing is pending or deactivated after close |
| SessionUnlock.DispatchCheckOnlyWaits | child/sessionUnlock.js:141-173 | in every run a request that was not yet retried survives the dispatch check exactly when it is younger than two seconds, its owner still owns the name and the shield is locked, whatever else the check sees |
| SessionAnswers.WaitingIsExact | child/sessionUnlock.js:73-188 | in every run a request waits exactly since a trusted Unlock of a native limit lock that nothing withdrew since, and until it is answered |
| SessionAnswers.BeginsExactly | child/sessionUnlock.js:141-181 | a dispatch begins exactly when a check that is due finds, outside another dispatch, a waiting request that is young, its owner still there and everything granted |
| SessionAnswers.DeactivatesExactly | child/sessionUnlock.js:174-188 | the shield is deactivated exactly when the retry record of a begun dispatch returns in the same turn to a request that is still waiting |
| SessionAnswers.FramesAreExact | child/sessionUnlock.js:141-188 | what a suspended dispatch is, told by the events: it begins with the retry record, goes on into the deactivation or ends at the record's return, and ends at the next return or exception; nothing else touches it |
| SessionAnswers.SourcesAreHeld | child/sessionUnlock.js:212-230 | in every run the lifetime timer is armed exactly while a request is held, and no dispatch check is scheduled without one |
| SessionUnlock.SessionUnlockRecovery.DoChanged | child/sessionUnlock.js:91-139 | the judgement of a notification |
| SessionUnlock.SessionUnlockRecovery.DoUnlockRequested | child/sessionUnlock.js:73-89 | arms a request for a native limit lock only |
| SessionUnlock.SessionUnlockRecovery.Resume | child/sessionUnlock.js:179-187 | the return from the retry record and from the native call |
| SessionUnlock.SessionUnlockRecovery.DoContinue | child/sessionUnlock.js:141-188 | the dispatch check up to the retry record |
| SessionUnlock.SessionUnlockRecovery.Handle | child/sessionUnlock.js:13-54 | every handler performs its step |
| TurnProtocol.BridgeNeverMismatches | tools/agent_claude_bridge.py:145-168 | over every interleaving the mismatch branch is unreachable, exactly the turn the client believes live is live, in one place, and a pending interrupt's acknowledgement is always on its way |
| TurnProtocol.EveryScheduleDrains | tools/agent_claude_bridge.py:113-168 | whatever the schedule, after any run the moves of the processes and the results of the SDK that change anything number at most the outstanding work plus the texts in between; they stop only where the turn and the interrupts are settled and a turn can start |
| TurnProtocol.EveryRunDrains | tools/agent_claude_bridge.py:113-168 | from every reachable state the processes and the SDK alone settle the turn and the interrupts, after which a turn can start |
| TurnProtocol.EveryTurnHasOneVerdict | tools/agent_claude.py:247-275 | every started turn is consumed once with one verdict; an interrupted turn is never accepted or failed later, and a completion says exactly whether it was interrupted |
| TurnProtocol.SteeredTextsAreConserved | tools/agent_claude.py:237-275 | the steered texts, in order, are those handed back for retry followed by those still queued: none lost, doubled or reordered |
| TurnAnswers.VerdictIsTheAnswer | tools/agent_claude_bridge.py:113-121 | every consumed turn was answered by exactly one coordinator result of the SDK; unless it was interrupted it is accepted exactly if that result was a success and failed exactly if it was not |
| TurnAnswers.AnswersArrive | tools/agent_claude.py:258-275 | every coordinator result of a live turn is consumed or still on its way |
| TurnAnswers.CommandsArriveInOrder | tools/agent_claude.py:222-245 | the bridge takes exactly the prompts and interrupts the caller was granted, in order, with their texts and numbers |
| TurnAnswers.CallsAreExact | tools/agent_claude_bridge.py:149-168 | the SDK is called once for each query and for each interrupt that finds its turn live, in order, and for nothing else |
| TurnAnswers.AcksAreConserved | tools/agent_claude_bridge.py:158-164 | every interrupt is acknowledged exactly once, and not before its SDK call returned |
| TurnAnswers.AcknowledgedBeforeTheNext | tools/agent_claude.py:229-254 | a turn starts only after an interrupt of the one before was acknowledged |
| TurnAnswers.TextsAreConserved | tools/agent_claude_bridge.py:122-127 | every main text the SDK speaks in a live turn before its interrupt is taken reaches the caller exactly once, and nothing else does |
| TurnProtocol.ClaudeProtocol.StartTurn | tools/agent_claude.py:229-235 | refuses before the previous turn drained, else sends the query |
| TurnProtocol.ClaudeProtocol.Steer | tools/agent_claude.py:237-240 | queues a text |
| TurnProtocol.ClaudeProtocol.RequestInterrupt | tools/agent_claude.py:242-245 | flags the turn and sends the interrupt |
| TurnProtocol.ClaudeProtocol.Event | tools/agent_claude.py:247-275 | the new state and the events of one packet |
| TurnProtocol.InteractiveBridge.Receive | tools/agent_claude_bridge.py:149-168 | one command up to its SDK call, or the mismatch |
| TurnProtocol.InteractiveBridge.Resume | tools/agent_claude_bridge.py:149-168 | acknowledges an interrupt once the SDK call returned |
| TurnProtocol.InteractiveBridge.ReceiveResult | tools/agent_claude_bridge.py:113-121 | forwards the coordinator's result of the current turn and ends it |
| TurnProtocol.InteractiveBridge.ReceiveText | tools/agent_claude_bridge.py:122-127 | forwards main text of an uninterrupted turn |
| Framing.ChunkingIsIrrelevant | tools/agent_claude.py:183-192 | the frames depend on the bytes only, not on how they are cut into reads; they are refused exactly when a line or the unfinished end is too long |
| Framing.TransportIsFifo | tools/agent_claude_bridge.py:89-107 | sent messages arrive exactly, in order, with nothing left over |
| Framing.Receiver.DoFeed | tools/agent_claude.py:183-192 | the client's buffering |
| Framing.Receiver.ReadInput | tools/agent_claude_bridge.py:89-107 | the bridge's buffering delivers the same frames |
| WellbeingSuppression.AtMostOneCallInFlight | child/wellbeingSuppression.js:85-128 | over every order of updates, replies, failures and owner changes a dispatched request is answered before the next one is made |
| WellbeingSuppression.KnownLeaseWasAcknowledged | child/wellbeingSuppression.js:50-128 | a known lease is what the current owner last acknowledged, or zero when the helper vanished; an idle open lease is the desired one unless the last call failed |
| WellbeingSuppression.ReleasedAfterClose | child/wellbeingSuppression.js:85-144 | once closed and quiescent, every non-zero window that may hold at the current owner was followed by a zero request to it, unless the bus refused that last release |
| WellbeingSuppression.CloseReleasesExactly | child/wellbeingSuppression.js:130-144 | closing an idle object leaves nothing behind exactly when the bus takes the release or every window had been given back before |
| WellbeingSuppression.LateReplyReleasesExactly | child/wellbeingSuppression.js:97-118 | the same for the reply to a non-zero request that arrives after close |
| WellbeingSuppression.ReleaseIsExact | child/wellbeingSuppression.js:85-144 | in every run that ends closed and quiescent one event brought the object to rest, and everything is released exactly when the bus took the release due at that event or nothing was left |
| WellbeingSuppression.RefusedReleaseIsFinal | child/wellbeingSuppression.js:119-144 | a refused release after close is never repeated |
| WellbeingHistory.CallsAreExact | child/wellbeingSuppression.js:50-144 | the whole log of requests and answers follows from the events: a request is made exactly when a window is computed or released, no call is in flight and the lease known from the answers is another, and it asks for the window computed last (zero if computing failed, and after close) of the process that owns the name then |
| WellbeingHistory.EveryCallAsksTheWindow | child/wellbeingSuppression.js:61-97 | every request asks for the window computed last before it, of the owner then |
| WellbeingHistory.IdleLeaseIsTheWindow | child/wellbeingSuppression.js:61-128 | while open, an idle object whose last call did not fail holds an acknowledged lease of exactly the window computed last |
| WellbeingSuppression.Suppression.FlushRequest | child/wellbeingSuppression.js:85-128 | one request, or none when one is pending or the lease is right |
| WellbeingSuppression.Suppression.UpdateWindow | child/wellbeingSuppression.js:61-76 | takes the computed window, or zero when computing it failed |
| WellbeingSuppression.Suppression.Finish | child/wellbeingSuppression.js:97-118 | what a reply changes and sends next |
| WellbeingSuppression.Suppression.ChangeOwner | child/wellbeingSuppression.js:50-59 | a new owner starts a generation without a known lease |
| WellbeingSuppression.Suppression.CloseLease | child/wellbeingSuppression.js:130-144 | close asks for zero once nothing is pending |
| CountdownRefresh.LocksAreFresh | child/remainingTimeIndicator.js:870-881 | the session is locked only for an expired deadline returned by a read begun after the last refresh request; no deadline comes from a superseded or failed read |
| CountdownRefresh.DeadlineIsLastTaken | child/remainingTimeIndicator.js:621-688 | the cached deadline is the last one taken, whatever was superseded or failed since |
| CountdownRefresh.OneReadOrOneRetry | child/remainingTimeIndicator.js:621-688 | reads never overlap, and an armed retry timer means no read is pending |
| CountdownRefresh.RestMeansFresh | child/remainingTimeIndicator.js:596-688 | with nothing pending or armed the deadline answers the last request, or the three retries with their delays were armed since the last trigger |
| CountdownRefresh.TicksAreNotPostponed | child/remainingTimeIndicator.js:1012-1028 | display updates and finished reads never move a pending tick later |
| CountdownLocks.LocksAreExact | child/remainingTimeIndicator.js:824-912 | in every run an event locks the session at most once, at its display update, and exactly when the object is neither destroyed nor a preview, no lock call is pending, the session is unlocked with limits, and a read begun after the last request returned a deadline that has passed; and then it is that deadline |
| CountdownLocks.TicksAreExact | child/remainingTimeIndicator.js:824-888 | the display tick after every event: the earlier of the armed and the next one while an unlocked session shows time left, else none |
| CountdownLocks.AnsweredReadIsTaken | child/remainingTimeIndicator.js:621-656 | a read that nothing supersedes takes the deadline it is answered |
| CountdownRefresh.Indicator.RefreshEstimate | child/remainingTimeIndicator.js:596-602 | cancels the retry, resets the count and starts or queues a read |
| CountdownRefresh.Indicator.StartRead | child/remainingTimeIndicator.js:621-630 | numbers a refresh, and begins a read unless one is pending |
| CountdownRefresh.Indicator.EstimateReturned | child/remainingTimeIndicator.js:634-645 | goes on to the broker unless superseded |
| CountdownRefresh.Indicator.EndRead | child/remainingTimeIndicator.js:678-687 | updates the display, then starts the read that was asked for meanwhile |
| CountdownRefresh.Indicator.RetryFired | child/remainingTimeIndicator.js:670-674 | a fired retry begins a read |
| CountdownRefresh.Indicator.DeadlineReturned | child/remainingTimeIndicator.js:644-656 | takes a current deadline, ignores a superseded one, and ends the read |
| CountdownRefresh.Indicator.ReadFailed | child/remainingTimeIndicator.js:656-688 | arms the next retry of a current read and ends it |
| CountdownRefresh.Indicator.Synchronize | child/remainingTimeIndicator.js:824-888 | locks or schedules the next tick |
| CountdownRefresh.Indicator.Lock | child/remainingTimeIndicator.js:890-912 | one lock call at a time |
| CountdownRefresh.Indicator.ScheduleTick | child/remainingTimeIndicator.js:1012-1028 | keeps an earlier tick |
| CountdownRefresh.Indicator.TickFired | child/remainingTimeIndicator.js:1022-1027 | a fired tick is forgotten before the display update |
| CountdownRefresh.Indicator.LockReturned | child/remainingTimeIndicator.js:900-910 | the returned lock call, successful or not, allows the next one |
| CountdownRefresh.Indicator.DisposeResources | child/remainingTimeIndicator.js:496-556 | drops the retry and the tick |
| ResumeEstimateRefresh.OneReplayPerActivePeriod | child/resumeEstimateRefresh.js:35-150 | an uninterrupted active period starts at most one replay |
| ResumeEstimateRefresh.TimersOnlyWhileIdle | child/resumeEstimateRefresh.js:60-150 | replays never overlap; an armed timer means enabled, inactive, open and nothing in flight; delays lie between 100 ms and a minute |
| ResumeEstimateRefresh.NothingIdleIsForgotten | child/resumeEstimateRefresh.js:60-150 | an enabled idle policy that waits for nothing ended with an exhausted balance or a permanent failure; a cancelled replay is followed by another |
| ResumeHistory.EntriesAreExact | child/resumeEstimateRefresh.js:35-171 | in every run the observations, starts, ends and delays are exactly those that follow from the events: when a replay starts or is queued, what cancels it, how it ends, and after which delay the next one comes |
| ResumeHistory.HalfMeans | child/resumeEstimateRefresh.js:84 | the delay from a balance is the least number of milliseconds not shorter than half of it, kept between 100 ms and a minute |
| ResumeHistory.BackoffIsFailureDelay | child/resumeEstimateRefresh.js:116 | the failure delays double from a second up to a minute |
| ResumeEstimateRefresh.EstimateRefresh.UpdatePolicy | child/resumeEstimateRefresh.js:35-58 | what a notification cancels and starts |
| ResumeEstimateRefresh.EstimateRefresh.RefreshUsage | child/resumeEstimateRefresh.js:60-69 | starts a replay or queues one |
| ResumeEstimateRefresh.EstimateRefresh.ReplayReturned | child/resumeEstimateRefresh.js:74-95 | what a finished replay asks for next |
| ResumeEstimateRefresh.EstimateRefresh.EstimateReturned | child/resumeEstimateRefresh.js:76-95 | the delay from the remaining balance |
| ResumeEstimateRefresh.EstimateRefresh.SettleReplay | child/resumeEstimateRefresh.js:135-149 | the queued replay, or the timer |
| ResumeEstimateRefresh.EstimateRefresh.ReplayFailed | child/resumeEstimateRefresh.js:95-148 | the failure branch and the settling of the replay |
| ResumeEstimateRefresh.EstimateRefresh.TimerFired | child/resumeEstimateRefresh.js:142-146 | a fired timer starts a replay |
| ResumeEstimateRefresh.EstimateRefresh.CloseRefresh | child/resumeEstimateRefresh.js:163-171 | cancels the timer and the replay |
| TrustConfig.EnabledIsIdempotent | packaging/package_activation.py:261-272 | the edited configuration is left alone by a second edit |
| TrustConfig.OnlyTheValueChanges | packaging/package_activation.py:261-272 | only the value of the one trust line changes, from debdb to debdb and file; every other byte stays, and nothing changes exactly when file was listed |
| TrustShapes.EnabledIsExact | packaging/package_activation.py:261-272 | a configuration is accepted exactly if one line sets trust, and to something that names file or is debdb alone; it is ambiguous exactly if not one line does; and it stays unchanged exactly if file was named |
| TrustBackend.ConfigIsBeforeOrAfter | packaging/package_activation.py:274-353 | after any crashes and reboots the configuration is byte for byte the original or its edit, and the edit only once the rollback record and the receipt are durable |
| TrustBackend.NothingMeansLoaded | packaging/package_activation.py:326-353 | a retry answers "none" only if file trust was on, the edit was installed in an earlier boot, or readiness was recorded; without a legacy record exactly then |
| TrustBackend.RetryConverges | packaging/package_activation.py:274-353 | from every crash state a rerun ends with file trust on and a second one writes nothing; the exact condition for refusal |
| TrustExactness.ConfigurationIsExact | packaging/package_activation.py:274-353 | on every disk, even one edited by others: an uncut run succeeds exactly when the disk can be configured and leaves exactly one disk; a cut one is on the way; a refused one changes nothing |
| TrustExactness.AnswerIsExact | packaging/package_activation.py:326-353 | a finished run asks for a restart exactly if the configuration was not yet edited, or no receipt was there, or it is of this very boot |
| TrustExactness.AcknowledgementIsExact | packaging/package_activation.py:382-392 | readiness is recorded exactly beside a record with a receipt; without a record there is nothing to acknowledge, and nothing else changes |
| TrustBackend.TrustFiles.DoPrepare | packaging/package_activation.py:274-353 | the files in place, with the answer |
| TrustBackend.TrustFiles.DoInstall | packaging/package_activation.py:336-353 | the receipt before the configuration |
| TrustBackend.TrustFiles.DoComplete | packaging/package_activation.py:382-392 | records readiness only beside an existing receipt |
| CodeSpans.MaskCode | tools/document_checks.py:120-151 | the next-run table and the forward skip compute the text with the spans of the quadratic rule masked |
| CodeSpans.FindRuns | tools/document_checks.py:123 | the list of backtick runs |
| CodeSpans.PaintSpans | tools/document_checks.py:133-148 | the forward skip masks exactly the chosen spans |
| CodeSpans.FindClosings | tools/document_checks.py:124-132 | the table from right to left holds, for every run, the nearest later run of its length |
| CodeSpans.ChosenAreDelimited | tools/document_checks.py:133-146 | every masked span is opened by an unescaped run and closed by the nearest later run of equal length |
| CodeSpans.UncoveredRunsAreOpen | tools/document_checks.py:133-146 | a run left visible is escaped or has no later run of its length |
| CodeSpans.RunsAreMaximal | tools/document_checks.py:123 | the runs are in order, as long as possible, and exactly the backticks |
| CodeSpans.WithoutCodeMasks | tools/document_checks.py:120-151 | length and newlines never change, in both grammars |
| CodeSpans.WithoutExamplesMasks | tools/document_checks.py:96-117 | the same for fences, indented examples and comments |
| CodeSpans.NoCommentLeft | tools/document_checks.py:116-117 | no comment opening is left |
| ExampleShapes.FenceIsExact | tools/document_checks.py:102 | a line is read as a fence exactly if it is up to three spaces, at least three backticks or tildes and no more of them, and the text to its newline |
| ExampleShapes.ExamplesAreExact | tools/document_checks.py:96-115 | exactly the example lines are masked: fenced blocks from their opening to the first line that closes them, and indented lines |
| ExampleShapes.CommentsAreExact | tools/document_checks.py:116-117 | exactly the characters of comments are masked: from an opening mark outside earlier comments to the first closing mark after it, or to the end |
| CodeSpans.MaskExamples | tools/document_checks.py:96-115 | the line loop with its fence state |
| LinkSyntax.PlainMeans | tools/document_checks.py:158-189 | a plain destination has no white space, no unescaped angle bracket and balanced parentheses, and ends at white space, an unbalanced parenthesis or the limit |
| LinkSyntax.AngleMeans | tools/document_checks.py:158-189 | an angled destination is not empty, stays on its line and has no unescaped bracket |
| LinkShapes.DestinationIsExact | tools/document_checks.py:158-189 | a destination is found exactly where one is written, plain or angled, with these bounds: which characters, escapes, nesting and lengths it may have and where it ends |
| LinkShapes.InlineEndingIsExact | tools/document_checks.py:192-215 | a link ends exactly at the parenthesis behind white space around an optional title |
| LinkShapes.LineEndingIsExact | tools/document_checks.py:192-215 | a definition ends exactly if nothing but a title and white space is left on its line |
| LinkSyntax.FindDestination | tools/document_checks.py:158-189 | the scanning loop computes exactly these |
| LinkSyntax.FindEnding | tools/document_checks.py:192-215 | the title loop computes where a link or definition ends |
| Brackets.PairsNeverCross | tools/document_checks.py:255-279 | recorded bracket pairs are apart or nested |
| Brackets.PairsBalance | tools/document_checks.py:255-279 | every pair is an unescaped opening bracket and the bracket that balances it |
| Brackets.PairsAreExact | tools/document_checks.py:255-279 | the pairs are exactly the balanced unescaped brackets, except those that close after a 33rd bracket was open and before all are closed again |
| Brackets.FindPairs | tools/document_checks.py:255-279 | the loop with its stack and overflow count |
| Links.LinksAreDisjoint | tools/document_checks.py:280-326 | links are increasing and disjoint, the leading exclamation mark included |
| Links.EveryLinkIsJustified | tools/document_checks.py:280-326 | a link has a paired label, and its own destination in parentheses or the first definition named by its label or by the paired text after it |
| LinkCompleteness.LinkIsExact | tools/document_checks.py:280-326 | a bracket is taken for a link exactly if one is written there: a paired short label with a destination and an ending of its own in parentheses, or naming a definition; with these bounds and kind |
| LinkCompleteness.LinksAreComplete | tools/document_checks.py:280-326 | in every text exactly those links are reported that are written at a bracket which no earlier reached bracket hides |
| LinkCompleteness.OutermostIsReached | tools/document_checks.py:280-326 | a short paired bracket inside no other pair and no reported link is never hidden, so every link written there is reported |
| LinkCompleteness.PhraseHidesItsLink | tools/document_checks.py:280-326 | the link in a bracketed phrase that is no link itself is written but not reported |
| LinkCompleteness.PlainLinkIsMasked | tools/document_checks.py:348-359 | every plain name and target in link form outside examples, code, definitions, other brackets, other links and stretches of more than 32 open brackets is masked as a whole |
| Links.DefinitionsAreApartOrInside | tools/document_checks.py:222-252 | a definition line that meets a link lies inside it |
| Links.FirstDefinitionStands | tools/document_checks.py:234 | a later definition never replaces an earlier one |
| DefinitionShapes.DefinitionIsExact | tools/document_checks.py:222-238 | a line is read as a definition exactly if it is written as one, with this key and destination |
| DefinitionShapes.DefinitionsAreExact | tools/document_checks.py:222-238 | the spans are those of exactly the defining lines, and a key is bound exactly if a line defines it, to the destination of the first such line |
| Links.Parse | tools/document_checks.py:246-326 | the parser's loops compute these links and definition lines |
| Links.FindDefinitions | tools/document_checks.py:222-238 | the line loop collects the definitions and their lines |
| Links.FindLinks | tools/document_checks.py:280-326 | the scan over opening brackets |
| Links.DefinitionsAreLines | tools/document_checks.py:222-238 | definition spans are separate, in order and inside the text |
| Links.MaskSorted | tools/document_checks.py:352-359 | one pass over sorted spans, skipping nested ones, masks their union |
| Links.EvidenceProse | tools/document_checks.py:348-359 | keeps length and newlines, masks exactly the characters of links and definitions, and is elsewhere the text without examples |
| HeadingSlugs.AssignSlugs | tools/document_checks.py:433-443 | the counter gives every heading the least free candidate of its slug, and the suffix search terminates |
| HeadingSlugs.NextSuffix | tools/document_checks.py:436-440 | the suffix search ends at the least free candidate |
| HeadingSlugs.AssignedIsDistinct | tools/document_checks.py:433-443 | no two headings share a name, even when a literal heading looks like a numbered duplicate |
| HeadingSlugs.AssignedIsUnique | tools/document_checks.py:433-443 | the headings alone determine the names |
| DistroPam.RenderRoundTrip | packaging/distro_pam.py:107-130 | rendered normal lines are read back exactly |
| DistroPam.LogicalLinesAreNormal | packaging/distro_pam.py:107-130 | every logical line is words with single spaces and no comment |
| LogicalLineShapes.RunIsOneLine | packaging/distro_pam.py:107-130 | lines that run on, up to the first that does not, give one logical line: the words of all of them, each up to its comment or its mark, one space apart; none if there is no word |
| LogicalLineShapes.OpenRunIsRefused | packaging/distro_pam.py:107-130 | lines that run on to the end of the text are refused exactly when one has something before its mark |
| DistroPam.ReadLogicalLines | packaging/distro_pam.py:107-130 | the loop over physical lines, with the refusal of an open continuation |
| DistroPam.VerifyTimePolicy | packaging/distro_pam.py:133-149 | accepts exactly when every required stack holds the owned entries in one piece |
| DistroPam.CountsMeans | packaging/distro_pam.py:146-147 | the entries of a type are the lines whose first word is the type, its quiet form or an include |
| StackShapes.ActiveIsExact | packaging/distro_pam.py:133-149 | the policy is accepted exactly when in every required stack, of each type, the owned lines stand in order with no other entry of the type, quiet entry or include between them |
| DistroPam.OwnedBlocksAreGuarded | packaging/distro_pam.py:87-104 | read from their texts, the owned checks come first and each jumps exactly one past the block |
| DistroPam.BlockStaysTogether | packaging/distro_pam.py:133-149 | the owned entries stay in one piece whatever the others expand to |
| DistroPam.AcceptedStackEnforces | packaging/distro_pam.py:133-149 | in an accepted stack, whatever the other entries expand to: the block runs in one piece, control leaves exactly one past it, and each owned module runs exactly when no check exempted the user |
| DistroPam.ActivePolicyEnforces | packaging/distro_pam.py:87-149 | once the verifier accepts the files, every stack it requires runs the distribution's own rules: each owned module runs exactly when none of the distribution's checks spares the user, whatever the other entries expand to |
| ArtifactInputs.PackageRecords | tools/artifact_inputs.py:53-78 | terminates with exactly the least set of installed packages that holds the providers of the roots and is closed under dependencies, whatever order names are taken in |
| ArtifactInputs.LeastIsReachable | tools/artifact_inputs.py:53-78 | that set is exactly what chains of installed dependencies reach from the roots |
| ArtifactSelection.NamesAreExact | tools/artifact_inputs.py:46-50 | a field names exactly the packages that its alternatives start with after white space, each as long as it can be |
| ArtifactSelection.SelectionIsExact | tools/artifact_inputs.py:53-78 | said of the records alone: the selected keys are exactly those of installed, unreplaced records that a path of needs (Depends or Pre-Depends) and offers (name or Provides) leads to from a root or an essential package, with the identity of that record |
| ArtifactInputs.BuildIndex | tools/artifact_inputs.py:57-60 | the provider index holds exactly the providers of every name |
| ArtifactInputs.NamesUnite | tools/artifact_inputs.py:46-50 | no alternative of a dependency field hides another |
| ArtifactInputs.OneDependency | tools/artifact_inputs.py:46-50 | one dependency is its package name, whatever clause follows |

## Left out

- Files below the atomic writes: descriptors, owners, modes, links, fsync, restorecon and the temporary files of an atomic replacement.
- Parsing and validation of the JSON records, and the contents of the policy material: the records are typed values and the checks on material, readiness and idleness are environment answers.
- Process scanning behind `idle`, and the lock files of `barriers`: one operation runs at a time.
- ReleaseAccount: the release after a cut first quarantine is refused, as the code does; see the findings above.
- DeactivationIsAuthorised: inactivity and exhaustion seen only by the dispatch check are not withdrawals, because the code only waits there; ObservationsAreRespectedExactly says exactly when that makes a difference. That the guards still hold at the call is not promised, because the code does not read them again.
- SessionUnlock: the diagnostic request counter and the records of stages and reasons; other callbacks of the same handler run before or after it, and only the retry record and the native deactivate call deliver events in between.
- ReleasedAfterClose: does not promise delivery of a release the bus refused to take, because the code does not repeat it; ReleaseIsExact gives the exact condition.
- RetireConverges: does not promise that an erased state can be retired, because two ways into the prepared state avoid the gate; OrderlyRunsRetire says when it can.
- RestMeansFresh: exceptions thrown by drawing code inside a display update are not modelled.
- CountdownRefresh: the session preparation and its retries, notifications, and everything drawn; whole microseconds stand for the floating-point times.
- ResumeEstimateRefresh: error reporting and the per-stage failure counts, which only decide what is reported; whole microseconds stand for the floating-point balance.
- EveryTurnHasOneVerdict: a caller that acts between two events of one packet is not modelled; the session object only reacts after each packet. The one-off ready handshake, failure packets and the end of a process are not part of this model.
- Prepare and Complete of the trust backend: malformed receipts and boot identifiers, and the copy's metadata; the scan of other trust files is one environment answer.
- Links: label folding is a parameter; decoded destinations, line numbers and the legacy inline grammar are left out.
- MaskCode: the 8 MiB bound on the text, checked before anything else.
- AssignSlugs: which lines are headings and what their slug text is; the slugs are the input.
- PackageRecords: the header parser of the package status; records are typed values.
- VerifyTimePolicy: the surrounding checks of the PAM files and the tools that change them.
- Package builders, launchers, panels, menus, translations, the LMDB reader and the supervisor code around these components.
