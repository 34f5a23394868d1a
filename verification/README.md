# A model of amux's daemon state

amux coordinates coding agents through a local daemon. This project models the parts of it whose
correctness is a matter of protocol rather than plumbing, and proves what each is for:

- **The replay ledger** (`JournalCodec`, `ReplayStore`, `ReplayProtocol`, `ReplayLedger`, `ReplayCapacity`,
  `ReplayRuns`, `ReplayFailures`). Accepted
  requests are remembered in memory, in eight checksummed journals and in a compacted snapshot. A step is
  one critical section or one disk operation; every disk operation may fail, and a power loss may undo
  whatever was not synced.
- **Credentials** (`Registry`, `Authority`, `RegistryWriters`, `Watch`, `Framing`). The registry of key
  generations, its publication to each subject's directory, leases and invalidation watchers, and the bytes
  that are signed.
- **Launch-pinned accounts** (`Accounts`). Which login each harness process may receive over its life.
- **Configuration homes** (`CfgHome`, `PathRewrite`, `PathRewriteExact`, `ClaudeConfig`). The three-way comparison of a
  template, an agent's copy and the recorded baseline, and the laws that the Claude transforms keep.
- **Goal mode** (`Goal`, `Utf8`), **the central credential store** (`CentralStore`), **authorization**
  (`Policy`), and **hook and status-line installation** (`Hooks`, `StatusLine`, `Base64`).

`Bytes` and `Text` hold the integers, decimals and string order the others rest on.

Code that updates objects in place is a class or a method with loops, proved equal to a function on values;
runs are sequences of states related by those functions. I/O results, crashes, clocks and random bytes are
parameters. JSON, CRC-32C, SHA-256, FNV, signatures and the conversion between strings and bytes are function
values with stated laws (`Lawful`: what is encoded decodes to itself, and a string has no more characters than bytes).

## What does not hold, and when it does

Seventeen properties one would expect fail for some input. The code is modelled as it is; each has a lemma with the
failing input and the condition under which the property holds. The runs of the replay ledger name the conditions they
keep (`Rules`): each breaks only the one in its own row.

| expected | fails | holds exactly when, or provided that |
|---|---|---|
| an acknowledged replay record is read back | an append lands behind a partial write (`AcknowledgedAfterTearIsLost`; the run `TornAppendIsForgotten`) | nothing is appended behind a partial write (`RecoversAfterTearIffNothingFollows`, `CleanAppend`) |
| a request is accepted at most once | a Verify decides with a clock reading older than a prune (the run `StaleReadingAcceptsTwice`) | its cutoff is not below the last prune's (`FreshReading`) |
| an accepted request is not forgotten | a client uses its id again and the first request's append, delayed past a prune, lands behind it (the run `ReusedIdIsForgotten`) | a client does not use an id again for another request (`ClientRecords`, `AcceptanceIsNeverForgotten`) |
| what a power loss leaves of an append is dropped | the frame's length is the part that did not land, and the daemon does not open (`LateLengthIsCorrupt`) | nothing landed, or the length that did reaches the end of the file (`PartlyWrittenIsDroppedIff`) |
| what a crash leaves can be loaded | enough appends whose sync failed, of records of any size, fill a journal past the reader's limit while the counter stays at zero (the run `UncountedFramesBlockRecovery`) | the journals are within that limit (`LoadFilesSucceedsIff`), as they are while the records leave room for the appends that run at once and those that fail in one generation (`RecoverySucceeds`, `LeavesRoom`; records of half the cap leave as much room again, `HalfSizedRecordsLeaveRoom`) |
| a revocation that succeeded is permanent | a revocation whose rename was not synced is retried, then a crash (`RetriedRevokeIsUndone`) | the subject did not leave the registry in a commit whose sync failed and which nothing durable has followed, `Loose` (`RevokeIsPermanentIff`, `CurrentSomewhereIff`), as when it found a key to revoke |
| the current key's credential is always on disk | `Current` publishes a key whose registry rename was not synced, then a crash (`UnsyncedRotationThenPublishLosesTheOldKey`) | every other key a crash could bring back has its staged file (`PublishIsSafeIff`) |
| a credential generation never names two records | a record shown but not synced is lost, then `Delete` lowers the counter (`LostRecordThenDeleteReusesGeneration`, `SpoiledLegacyStoreRestartsAtOne`) | `RemovalSafe` (`DeleteKeepsFloorIff`), and a clock ahead of the counter where only the clock decides (`IssuesAboveIff`) |
| a fresh seed scans clean | a seeded file's entry is followed by its directory's (`OverlapSeedsDirty`) | each path's first and last entry agree (`SeedIsCleanIff`, `DirtySeedNeedsTwoEntries`), as where entries do not overlap (`FreshSeedScansClean`); Claude's do not (`EntriesDoNotOverlap`) |
| promoting `.claude.json` completes | the template is `null` and the copy has a configuration key: the process stops (`NullTemplateStopsMerge`) | that is not so (`MergeStopsIff`, `PromotionFailsIff`) |
| promoting settles `.claude.json` | the copy is not JSON (`UnreadableCopyStaysListed`) | it completes, and the copy decodes or neither side does and they are equal (`MergeSettlesIff`) |
| a settings file's path rewriting is invisible to the comparison | the copy's path holds the template's, as when it lies below it (`CopyHoldsTemplate`) | the two paths are kept apart, `Apart` (`RewriteIsInvisibleIff`) |
| the user's hook groups survive | a group names amux and an agent (`UsersMentionOfAmuxIsDropped`) | none does (`GroupsSurviveIff`) |
| the user's status line still runs | it holds amux's marker (`UsersMarkerIsDropped`) | it does not (`CommandIsKeptIff`), or under a path that forwards a command of its own it is that command (`InstallRunsUsersCommandIff`) |
| reinstalling hooks replaces them | the binary's path does not contain `amux` | it does (`ReinstallHooksIff`) |
| a wrapped status line unwraps to the user's command | the path carries a marker and a forward flag of its own (`PathWithFlagHidesCommand`) | the path forwards no other command (`UnwrapsToOriginalIff`) |
| a listed session's events can be read | its id is blank (`BlankIdIsListedButUnreadable`) | its id is not blank (`SurvivesIffEventsReadable`) |

The comment on goal steering says host and console only; `allowSteer` refuses it to the console as well
(`NoSelfApproval`, `ConsoleMayExactly`). The model follows the code.

## Model

| member | source | states |
|---|---|---|
| JournalCodec.ReplayKeyInjective | internal/access/replay_journal.go:72-74 | two records share a ledger key only if they have the same key id, generation and request id |
| JournalCodec.ReadJournal | internal/access/replay_journal.go:121-176 | the offset loop returns exactly the parse of the file: its records in order, or a size or corruption error |
| JournalCodec.ParseFrames | internal/access/replay_journal.go:121-200 | intact frames are read one by one, whatever bytes follow |
| JournalCodec.CrashTailIsDropped | internal/access/replay_journal.go:121-185 | up to a frame of zeros, or a frame of which any bytes landed and whose length reaches the end, reads as no record and no error |
| JournalCodec.ReadsBackJournal | internal/access/replay_journal.go:121-200 | a journal of encoded records and any crash tail reads back as exactly those records |
| JournalCodec.PartlyWrittenIsDroppedIff | internal/access/replay_journal.go:121-185 | a frame of which any bytes landed is dropped without an error exactly when its length reaches the end of the file or nothing landed; the records before it are read either way |
| JournalCodec.LateLengthIsCorrupt | internal/access/replay_journal.go:121-185 | a frame whose length bytes did not land is an error behind any journal |
| JournalCodec.AcceptedJournalShape | internal/access/replay_journal.go:121-176 | a journal that reads without error is intact frames followed by at most one maximum frame of other bytes |
| JournalCodec.RecoversAfterTearIffNothingFollows | internal/access/replay_journal.go:302-334 | records appended behind a partial write are read back exactly when there are none |
| JournalCodec.AcknowledgedAfterTearIsLost | internal/access/replay_journal.go:302-334 | behind a longer partial frame an acknowledged record is skipped without an error |
| ReplayStore.DroppedWouldExpire | internal/access/replay_journal.go:341-368 | what a prune drops fails the expiry check then and at every later time |
| ReplayStore.WriteAppendsBytes | internal/access/replay_journal.go:302-334 | a write adds to the file exactly the bytes of the frame that reached it |
| ReplayLedger.FileAuthority.Decide | internal/access/replay_journal.go:341-363 | the locked decision: duplicate, pruned, full or consumed, and the ledger after it |
| ReplayLedger.FileAuthority.UnexpiredReplay | internal/access/replay_journal.go:243-252 | the snapshot loop keeps exactly the entries at or above the cutoff |
| ReplayLedger.FileAuthority.Append | internal/access/replay_journal.go:302-334 | an acknowledged append added exactly the frame's bytes to one journal, a failed one a prefix of them, a refused one nothing; refused as too large iff the payload is |
| ReplayLedger.FileAuthority.BeginCompaction | internal/access/replay_journal.go:388-417 | the snapshot taken and the rotation, with fresh shards or none installed |
| ReplayLedger.FileAuthority.RemoveOld | internal/access/replay_journal.go:425-439 | journals of the rotated generations are unlinked and no others |
| ReplayLedger.FileAuthority.LoadJournals | internal/access/replay_journal.go:204-216 | recovery folds every journal over the snapshot or reports an error |
| ReplayLedger.RemovesExactlyOld | internal/access/replay_journal.go:425-439 | after the deletions a file remains iff its generation is above the rotated one |
| ReplayProtocol.DecisionKeepsEntries | internal/access/replay_journal.go:341-363 | a decision drops only entries below its own cutoff, and none unless it prunes |
| ReplayProtocol.LoadFilesSucceedsIff | internal/access/replay_journal.go:121-216 | on any reachable disk loading fails only on a journal above the reader's size limit |
| ReplayProtocol.NextKeeps | internal/access/replay_journal.go:204-439 | every step, failure and crash keeps the durability invariant |
| ReplayProtocol.AcceptanceIsNeverForgotten | internal/access/replay_journal.go:302-439 | at every instant of every run an accepted unexpired request is in the live ledger and durably on disk |
| ReplayProtocol.RecoveryLoadsEveryAcceptance | internal/access/replay_journal.go:204-239 | a power loss at any instant, then recovery in any file order, fails exactly on a journal over the reader's limit and otherwise loads every accepted unexpired request |
| ReplayProtocol.ConsumedAgainOnlyIfPruned | internal/access/replay_journal.go:341-363 | an already taken request is consumed again only below the last prune |
| ReplayProtocol.AcceptedAtMostOnce | internal/access/authority.go:986-1032 | over prunes, compactions, crashes and restarts no request is accepted twice, given fresh clock readings |
| ReplayCapacity.NextKeepsSize | internal/access/replay_journal.go:302-439 | every step keeps each journal within the counter and the failed appends of one generation |
| ReplayCapacity.JournalsStayCounted | internal/access/replay_journal.go:302-439 | over any run the counter and every journal stay within the limit, the appends under way and the most that failed in one generation |
| ReplayCapacity.RecoverySucceeds | internal/access/replay_journal.go:121-239 | where records of that size leave room for those, recovery after any kill or power loss succeeds and loads every accepted unexpired request |
| ReplayRuns.ReachableByRun | internal/access/replay_journal.go:204-439 | a state of the runs below is one that a run from an empty root, keeping the named conditions at every step, ends in |
| ReplayRuns.FillReaches | internal/access/replay_journal.go:341-363 | any number of distinct requests, up to the ledger's size, can be accepted at one moment |
| ReplayFailures.UncountedFramesBlockRecovery | internal/access/replay_journal.go:302-360 | for records of any size a clean run with fresh readings, the counter at zero, whose journal no restart can read |
| ReplayFailures.TornAppendIsForgotten | internal/access/replay_journal.go:302-334 | a run with fresh readings that acknowledges a request every restart has forgotten or fails on |
| ReplayFailures.StaleReadingAcceptsTwice | internal/access/authority.go:986-1032 | a clean run that accepts one request twice, the second time with a reading older than the prune |
| ReplayFailures.LastWins | internal/access/replay_journal.go:204-216 | whatever the order the journals are read in, a restart holds the record of a key that was appended last to its journal |
| ReplayFailures.ReusedIdIsForgotten | internal/access/replay_journal.go:302-363 | a clean run with fresh readings that acknowledges a request under a used id, and every restart drops its key |
| Registry.GenerationsAreOneToN | internal/access/authority.go:567-719 | a subject's generations are 1..n with one key each; all but the newest are revoked; current iff the newest is live |
| Registry.IssuedKeeps | internal/access/authority.go:640-672 | issuing keeps the registry's shape and adds the next generation |
| Registry.WithdrawnKeeps | internal/access/authority.go:954-981 | revoking keeps the registry's shape |
| Authority.IssuesFromLast | internal/access/authority.go:425-565 | every key handed to issuing as the one to replace is the subject's newest |
| Authority.ApplyKeepsRegistries | internal/access/authority.go:413-719 | every operation, at every failure point and in every registry a crash could leave, keeps that shape |
| Authority.EveryRegistryIsOk | internal/access/authority.go:413-719 | the same over whole runs of ensure, current, rotate, regrant, renew, revoke and crashes |
| Authority.SuccessRevokesEverywhere | internal/access/authority.go:624-719 | a revocation, rotation or renewal that succeeded has revoked the old key in every registry a crash could leave |
| Authority.RevokeIsPermanentIff | internal/access/authority.go:954-981 | in any run, a revocation that succeeded leaves no current key in any registry a crash could leave iff the subject did not leave memory in a commit that is still unsynced; so it is whenever it found a key |
| Authority.CurrentSomewhereIff | internal/access/authority.go:413-981 | over any run, a crash could leave a subject a current key iff memory has one or it left memory in a commit that is still unsynced |
| Authority.RetriedRevokeIsUndone | internal/access/authority.go:954-981 | a failed revocation, its successful retry, and the crash that brings the key back |
| Authority.RevokedNeverCurrentAgain | internal/access/authority.go:919-981 | a key revoked everywhere is never current again in any later state |
| Authority.IssueKeepsPublication | internal/access/authority.go:640-719 | at every failure point of issuing, each current key's credential is in `current` or staged |
| Authority.RevokeKeepsPublication | internal/access/authority.go:954-981 | so it is at every failure point of revoking |
| Authority.PublishIsSafeIff | internal/access/authority.go:746-780 | renaming the staged file is crash-safe exactly when every other key a crash could restore is staged |
| Authority.PublishKeepsPublication | internal/access/authority.go:746-801 | a Current or Ensure on a live key completes publication |
| Authority.CurrentKeyIsAlwaysPublished | internal/access/authority.go:640-801 | over whole runs with crashes every current key's credential is on disk, provided publishing waits for the registry |
| Authority.CurrentReplacedOnlyAfterCommit | internal/access/authority.go:680-719 | `current` names a new key only once the registry naming it is durable |
| Authority.UnsyncedRotationThenPublishLosesTheOldKey | internal/access/authority.go:448-465 | the run that loses a current key's credential |
| RegistryWriters.SubjectWasIssued | internal/access/authority.go:588-595 | the scan finds a record of the subject iff there is one |
| RegistryWriters.LastRecordLocked | internal/access/authority.go:597-620 | the scan returns the newest record, absence, or an error only for a malformed registry |
| RegistryWriters.FileAuthority.Issue | internal/access/authority.go:640-719 | memory, registry file, directory and result after each failure point |
| RegistryWriters.FileAuthority.Ensure | internal/access/authority.go:413-441 | issue, publish or refuse, as the registry says |
| RegistryWriters.FileAuthority.Publish | internal/access/authority.go:746-780 | success means `current` holds the key; refused iff neither file does; a failure loses neither, and no other directory changes |
| RegistryWriters.FileAuthority.Rotate | internal/access/authority.go:624-638 | success means one registry is left, the new key current in it and the old one revoked |
| RegistryWriters.FileAuthority.Regrant | internal/access/authority.go:500-523 | only the expected, revoked, newest generation is followed by a new one |
| RegistryWriters.FileAuthority.Revoke | internal/access/authority.go:954-981 | success on a current key means no registry a crash could leave has one; an expected key is the one revoked; other subjects keep theirs |
| Watch.WatcherTable.Register | internal/access/authority.go:1094-1108 | a new channel is added under the key |
| Watch.WatcherTable.Cancel | internal/access/authority.go:1109-1118 | that channel is no longer open, none was closed, and every other is open as before |
| Watch.WatcherTable.Invalidate | internal/access/authority.go:1202-1207 | the loop closes each of the key's channels once and removes the key |
| Watch.NextKeeps | internal/access/authority.go:321-337 | every step of a watch, cancel, publish, close or lease keeps the watcher invariant, with the view free to change while a watch registers |
| Watch.NoInvalidationIsMissed | internal/access/authority.go:1094-1135 | outside a publication every open watcher's key is current; no channel is closed twice; none is lost |
| Watch.RacingWatchIsClosed | internal/access/authority.go:1089-1135 | a watch checked before a swap and registered after it is closed by that publication |
| Watch.LeaseExcludesPublication | internal/access/authority.go:1057-1070 | from a lease's check to its end no registry is published and its principal stays valid |
| Watch.WritersNameWhatTheyInvalidate | internal/access/authority.go:640-719 | an issue or a revocation drops at most the key it names to the watchers |
| Framing.Frame | internal/access/socket.go:200-209 | the loop writes each part behind its 8-byte length |
| Framing.FramedInjective | internal/access/authority.go:1250-1265 | no two lists of parts, of any lengths, share an encoding |
| Framing.SignatureBindsRequest | internal/access/authority.go:1250-1265 | equal signing bytes mean equal boot id, key, generation, request id, times and body digest |
| Framing.SignatureBindsProof | internal/access/socket.go:190-198 | equal proof bytes mean equal key, generation, client nonce and challenge digest |
| Framing.KindsNeverCollide | internal/access/socket.go:190-198 | a request, a challenge and a proof never have the same bytes |
| Framing.NewRequestId | internal/access/authority.go:1228-1243 | the backward loop writes the low 48 bits of the time, then the random bytes, as 32 hex digits |
| Framing.IdsSortByIssueTime | internal/access/authority.go:1228-1243 | ids of different 48-bit times sort exactly as the times do, whatever the random bytes |
| Framing.IdsAreFifo | internal/access/authority.go:1228-1243 | for times below 2^48 ms an earlier request has the smaller name |
| Accounts.AccountStore.BeginLaunch | internal/accounts/store.go:522-548 | binds, numbers and queues a launch, evicting the oldest of more than 16 |
| Accounts.AccountStore.RetireLaunch | internal/accounts/store.go:552-569 | removes exactly that launch from the queue |
| Accounts.AccountStore.AcceptAuthorized | internal/accounts/store.go:585-655 | which requests are refused, and the binding after a delivery to the current or a pending launch |
| Accounts.BeginKeeps | internal/accounts/store.go:522-548 | beginning a launch keeps numbering, queue order and delivery memory |
| Accounts.RedeliveryKeeps | internal/accounts/store.go:585-655 | a second delivery to the current launch stays with its login |
| Accounts.TakeoverBinding | internal/accounts/store.go:608-651 | a takeover appends the replaced runtime to a history cut to its last eight |
| Accounts.DeliveriesPinToTheirLaunch | internal/accounts/store.go:585-655 | over any run all deliveries to a launch have one mode; once one carried an account, or a Claude or API one a version, every later one carries the same |
| Accounts.LaunchOrderAndHistory | internal/accounts/store.go:522-655 | numbers increase strictly; the queue is ascending, above the current launch and at most 16; history is the last eight of the full log |
| Accounts.LaunchNeverDecreases | internal/accounts/store.go:608-651 | no event lowers a session's current launch |
| Accounts.RetiredIsOver | internal/accounts/store.go:552-569 | a retired launch is neither pending nor current |
| Accounts.EvictedIsOver | internal/accounts/store.go:522-548 | so is an evicted one |
| Accounts.SupersededIsOver | internal/accounts/store.go:608-651 | so is one older than the launch that took over |
| Accounts.OverNeverDelivered | internal/accounts/store.go:522-655 | such a launch receives nothing in any later run |
| CfgHome.StatusNamesTheSideThatMoved | internal/cfghome/cfghome.go:575-595 | each status says exactly which side left the baseline and how |
| CfgHome.BaselineMovesExactlyWhereSidesAgree | internal/cfghome/cfghome.go:555-567 | the baseline takes the common content at agreed unshared paths and stays elsewhere |
| CfgHome.Compare | internal/cfghome/cfghome.go:535-597 | the pass over all known paths, in any order, gathers exactly the diverged ones and the moved baseline |
| CfgHome.ConfigHome.Scan | internal/cfghome/cfghome.go:510-620 | one change for exactly each diverged path, sorted, and the manifest advanced where it could be written |
| CfgHome.ListIsUnique | internal/cfghome/cfghome.go:535-620 | the sorted list is determined by the three sides, so no map order shows |
| CfgHome.SecondScanRepeatsTheFirst | internal/cfghome/cfghome.go:510-620 | scanning again with no edits gives the same list and baseline |
| CfgHome.ConfigHome.SnapshotCopy | internal/cfghome/cfghome.go:872-921 | the entry loop digests exactly the templated files of the copy |
| CfgHome.ConfigHome.SnapshotTemplate | internal/cfghome/cfghome.go:832-868 | and of the template, each as a fresh seed would make it |
| CfgHome.EntryForIsFirst | internal/cfghome/cfghome.go:1017-1024 | an entry is found iff one covers the path, and it is the first that does |
| CfgHome.ConfigHome.CopyEntries | internal/cfghome/cfghome.go:389-431 | the entry loop copies files through their transform and directories as they are |
| CfgHome.ConfigHome.Seed | internal/cfghome/cfghome.go:331-384 | a new home is copied and recorded; a seeded one is kept, its copy adopted if the manifest is lost |
| CfgHome.SeedMakesTheTree | internal/cfghome/cfghome.go:389-431 | without overlapping entries the copy is every templated file, each seeded as its own entry says |
| CfgHome.SeedIsClean | internal/cfghome/cfghome.go:331-431 | a fresh copy compares equal to its template everywhere |
| CfgHome.FreshSeedScansClean | internal/cfghome/cfghome.go:331-620 | so scanning it lists nothing and moves no baseline |
| CfgHome.SeedIsCleanIff | internal/cfghome/cfghome.go:331-431 | with any entries a fresh copy is clean exactly when, path by path, the last entry's copy compares as the first entry's |
| CfgHome.DirtySeedNeedsTwoEntries | internal/cfghome/cfghome.go:389-431 | a path seeded dirty has two entries, one its own file entry with a transform |
| CfgHome.OverlapSeedsDirty | internal/cfghome/cfghome.go:389-431 | a seeded file entry followed by its directory's does not scan clean |
| CfgHome.AdoptedCopyIsNotBlamed | internal/cfghome/cfghome.go:354-367 | after adoption every listed path is the template's change |
| CfgHome.ConfigHome.Reset | internal/cfghome/cfghome.go:674-712 | the copy and manifest after each outcome, and when it is refused |
| CfgHome.ConfigHome.Promote | internal/cfghome/cfghome.go:627-668 | the template and manifest after each outcome, and when it is refused |
| CfgHome.ResetDropsItsLine | internal/cfghome/cfghome.go:674-738 | the next scan is the previous list without that path |
| CfgHome.PromoteSettlesIff | internal/cfghome/cfghome.go:627-668 | the promoted path stays listed exactly when the written file, seeded again, compares unequal |
| CfgHome.PromoteDropsItsLine | internal/cfghome/cfghome.go:627-738 | otherwise the next scan is the previous list without that path |
| PathRewrite.RewriteIsInvisible | internal/claudecfg/template.go:137-145 | for paths kept apart, rewriting and restoring any text gives what restoring alone gives |
| PathRewrite.RestoreUndoesRewrite | internal/claudecfg/template.go:137-145 | restoring gives the file back iff it did not name the copy's path |
| PathRewriteExact.CopyHoldsTemplate | internal/claudecfg/template.go:137-145 | where the copy's path holds the template's, a text for which it does not |
| PathRewriteExact.ShowsUnlessApart | internal/claudecfg/template.go:137-145 | for any other two paths, a text for which it does not |
| PathRewriteExact.RewriteIsInvisibleIff | internal/claudecfg/template.go:137-145 | the law holds for every text exactly when the paths are kept apart |
| ClaudeConfig.ProjectKeys | internal/claudecfg/template.go:99-111 | the loop keeps exactly the configuration keys present |
| ClaudeConfig.FoldKeys | internal/claudecfg/template.go:115-132 | the loop takes the copy's configuration keys and nothing else |
| ClaudeConfig.SeedJsonIsInvisible | internal/claudecfg/template.go:88-111 | dropping the project table never shows in the comparison |
| ClaudeConfig.ComparesConfigKeysOnly | internal/claudecfg/template.go:99-111 | two readable files compare equal iff they agree on every configuration key |
| ClaudeConfig.MergeKeepsStateKeys | internal/claudecfg/template.go:115-132 | every other key of the template is unchanged by a promotion |
| ClaudeConfig.MergeStopsIff | internal/claudecfg/template.go:115-132 | the merge has no result iff the template is `null` and the copy has a configuration key |
| ClaudeConfig.MergeSettlesIff | internal/claudecfg/template.go:88-132 | for all files: the merge completes and its result, seeded, compares equal to the copy iff `Settles` |
| ClaudeConfig.EntriesDoNotOverlap | internal/claudecfg/template.go:24-58 | no configured path lies inside another |
| ClaudeConfig.PromotionLeavesListedIff | internal/claudecfg/template.go:41-132 | in a Claude home a promotion that went through settles every path but a `.claude.json` whose copy does not; only the settings files need the paths kept apart |
| ClaudeConfig.PromotionFailsIff | internal/claudecfg/template.go:41-132 | a promotion the file system allows goes through, except that of a `.claude.json` whose merge stops |
| ClaudeConfig.NullTemplateStopsMerge | internal/claudecfg/template.go:115-132 | a `null` template and a copy with a model |
| ClaudeConfig.UnreadableCopyStaysListed | internal/claudecfg/template.go:115-132 | that case: the template is written back and still differs |
| Goal.Truncate | internal/claudegoal/claudegoal.go:328-337 | the backward loop cuts at the last character boundary within the cap |
| Goal.TruncatedIsBounded | internal/claudegoal/claudegoal.go:328-337 | a prefix and an ellipsis, at most three bytes over the cap |
| Goal.TruncatedIsValid | internal/claudegoal/claudegoal.go:328-337 | valid UTF-8 stays valid |
| Goal.TruncatedTwice | internal/claudegoal/claudegoal.go:328-337 | truncating again changes nothing, for any bytes |
| Goal.AddedTurnsAreBounded | internal/claudegoal/claudegoal.go:178-268 | without a user turn, forced continuations and counted restarts add up to the count's increase and fit the budget left |
| Goal.StopsAreLetThrough | internal/claudegoal/claudegoal.go:217-235 | more Stops than the budget left means one was let through |
| Goal.StopsExhaustTheBudget | internal/claudegoal/claudegoal.go:217-235 | Stops alone continue an active goal to its last turn and then leave it budget-limited |
| Goal.OnlyTheUserRenews | internal/claudegoal/claudegoal.go:145-310 | only a user prompt or control lowers the count |
| Goal.SettledGoalsStayPut | internal/claudegoal/claudegoal.go:178-235 | stops and restarts leave a paused, complete, blocked, input or budget-limited goal exactly as it was |
| Goal.WaitingLetsOneStopThrough | internal/claudegoal/claudegoal.go:217-221 | a waiting goal lets one Stop through and keeps its count |
| Goal.StoredTextStaysBounded | internal/claudegoal/claudegoal.go:145-337 | through any history the stored objective is valid text within the cap and its ellipsis |
| CentralStore.Store.SaveKind | internal/centralauth/store.go:132-218 | generation, both files' possible contents and result after each failure point |
| CentralStore.Store.Delete | internal/centralauth/store.go:290-306 | success means no record is visible; every floor the unlinked record carried, or a counter did, stays |
| CentralStore.IssuesAboveIff | internal/centralauth/store.go:144-167 | a save issues above everything remembered, unless a clock not ahead of it decides |
| CentralStore.SaveRaisesFloor | internal/centralauth/store.go:132-185 | what a save shows or issues is above the floor and becomes the floor, at every failure point |
| CentralStore.DeleteKeepsFloorIff | internal/centralauth/store.go:290-306 | after a completed delete every next save, whatever a crash left, issues above the floor exactly when the record carried it or a counter does |
| CentralStore.AckedGenerationsIncrease | internal/centralauth/store.go:132-306 | over any saves, deletes, failures, crashes and corruption acknowledged generations strictly increase |
| CentralStore.NoGenerationIsShownTwice | internal/centralauth/store.go:132-306 | so do the generations of all records ever visible, while no delete removes one older than another shown |
| CentralStore.LostRecordThenDeleteReusesGeneration | internal/centralauth/store.go:290-306 | the run in which a generation names two tokens |
| CentralStore.SpoiledLegacyStoreRestartsAtOne | internal/centralauth/store.go:144-167 | a spoiled record without a counter, once deleted, restarts at one |
| Policy.SplitList | internal/access/policy.go:203-212 | the loop returns the trimmed, non-empty items in order |
| Policy.SplitUndoesJoin | internal/access/policy.go:203-212 | a list of names reads back as written |
| Policy.CheckAddAgent | internal/access/policy.go:184-201 | field names in any order, then repositories in turn |
| Policy.RefusalNamesFirstUngranted | internal/access/policy.go:184-201 | a refusal names the first repository not granted |
| Policy.FilterSnapshot | internal/access/policy.go:215-264 | the loop's result for each kind of principal, errors included |
| Policy.ScopedSucceedsIff | internal/access/policy.go:240-263 | the filter fails exactly on a session that cannot be looked up, and otherwise keeps the in-scope ones in order |
| Policy.ScopeIsEventAccess | internal/access/policy.go:64-169 | runtime events are readable exactly in scope, for non-blank ids |
| Policy.SurvivesIffEventsReadable | internal/access/policy.go:64-264 | a session survives the filter exactly when its events may be read |
| Policy.BlankIdIsListedButUnreadable | internal/access/policy.go:117-119 | the blank id is listed and cannot be read |
| Policy.ActionsStayInTheWorkgroup | internal/access/policy.go:117-148 | an allowed action of any other caller than the console names a live target that is itself or its direct member |
| Policy.NoSelfApproval | internal/access/scope.go:124-133 | no session answers its own permission prompt, and an answer names its request and generation |
| Policy.ForcedArchiveNamesAMember | internal/access/scope.go:144-152 | a forced archive is a coordinator's, on a direct member |
| Policy.AgentMayExactly | internal/access/scope.go:44-102 | exactly what an ordinary agent may do |
| Policy.RepoHomeMayExactly | internal/access/policy.go:100-149 | exactly what a repository home may do |
| Policy.CoordinatorMayExactly | internal/access/policy.go:64-201 | exactly what a coordinator may do, adding agents included |
| Policy.ConsoleMayExactly | internal/access/policy.go:100-149 | exactly what the console may do |
| Hooks.BuildCommands | internal/claudecfg/claudecfg.go:894-916 | the loops gather each event's commands in table order |
| Hooks.ReplaceGroups | internal/claudecfg/claudecfg.go:918-931 | amux's groups are replaced in each of its events and nothing else changes |
| Hooks.KeepUsers | internal/claudecfg/claudecfg.go:919-926 | the loop keeps exactly the groups that are not amux's, in order |
| Hooks.Settings.EncodeHooks | internal/claudecfg/claudecfg.go:884-945 | the whole settings file after an install |
| Hooks.InstalledGroupsRecognised | internal/claudecfg/claudecfg.go:1118-1141 | amux recognises its own groups exactly when the path names amux |
| Hooks.UsersGroupsSurvive | internal/claudecfg/claudecfg.go:918-931 | for every path the user's groups come first and in order, now and after the next install, and alone exactly when the path names amux; other events are untouched |
| Hooks.GroupsSurviveIff | internal/claudecfg/claudecfg.go:919-926 | a group is kept iff it is not taken for amux's, and all are iff none is |
| Hooks.UsersMentionOfAmuxIsDropped | internal/claudecfg/claudecfg.go:1118-1141 | a user's group with a command that names amux and an agent is dropped |
| Hooks.ReinstallHooksIff | internal/claudecfg/claudecfg.go:884-931 | installing again, with any path and goal flag, equals installing once iff the earlier path names amux |
| Hooks.ReinstallIsIdempotent | internal/claudecfg/claudecfg.go:884-973 | the same for the whole file, status line and renderer included |
| StatusLine.Unwrap | internal/claudecfg/claudecfg.go:1034-1048 | the scan returns the first forward flag that decodes |
| StatusLine.UnwrapOfWrap | internal/claudecfg/claudecfg.go:954-1048 | what unwrapping finds, for every path and command |
| StatusLine.UnwrapsToOriginalIff | internal/claudecfg/claudecfg.go:954-1048 | it is the original exactly when the path forwards no other command |
| StatusLine.ReinstallIsInstall | internal/claudecfg/claudecfg.go:954-973 | wrappers never nest: reinstalling under a new path is installing once |
| StatusLine.PathWithFlagHidesCommand | internal/claudecfg/claudecfg.go:1034-1048 | a path with a flag of its own hides the command |
| StatusLine.CommandIsKeptIff | internal/claudecfg/claudecfg.go:1034-1048 | a user's command is taken as it is iff it does not hold the marker |
| StatusLine.InstallRunsUsersCommandIff | internal/claudecfg/claudecfg.go:954-1048 | the installed line runs the user's command iff that does not hold the marker, or, under a path that forwards a command itself, iff it is that command |
| StatusLine.UsersMarkerIsDropped | internal/claudecfg/claudecfg.go:954-1048 | a user's status line that holds the marker and forwards nothing is dropped |
| Base64.DecodeUndoesEncode | internal/claudecfg/claudecfg.go:966-969 | decoding base64url gives the encoded bytes back |

## Left out

- Locking itself: `lockPublish`, `yieldToWriter` and lock-wait accounting are timing; a critical section is one step, except that a watch takes two under its mutex, which does not keep the view from changing.
- Ed25519, TLS identities, SHA-256, CRC-32C, FNV and JSON internals: opaque functions with the laws named above.
- Verify's signature check and `validatePublishedCredential`'s issuer and key-pair comparison: a request reaches the ledger only once verified.
- A clock that runs backwards or stands at or below zero: ticks do not decrease and registry times are positive.
- Journal file names and the compaction worker's wake-ups and back-off: compaction is a step that may happen at any time.
- Collisions of freshly generated key ids: `FreshKey` takes a new key to be new.
- 64-bit wrap-around of launch numbers; registry generations have the code's upper bound.
- Accounts migration from version 1, profile administration and the first credential version of an older binding.
- Symbolic links, shared credential links and their detached state, files or directories named `.git`, file modes and empty directories: trees are maps of regular files.
- `filepath.Clean` on the argument of Promote and Reset: paths are taken as already clean.
- Template-side source overrides of an entry: the template is keyed by the entry's own path.
- The hash, mode and summary caches, which rest on file times.
- CentralStore.AckedGenerationsIncrease: starts from an empty store or from a readable record below the largest counter; at the largest counter without a marker the next generation wraps to zero.
- Goal prompts are classified before they reach the model: trimming and the marker prefixes are not modelled, nor the wording of the prompts.
- Base64's acceptance of line breaks, and Codex's own configuration template.
- `UninstallHooks`, where the inherited status line is looked up, and the daemon's dispatch around all of these.
- The command line, the terminal UI, providers, harness launch planning and the message types: plumbing, or only easy members.
