# Glacic control-plane laws

Glacic is a firewall and router. This project models the parts of it whose correctness is a
statement about every input or every run, and proves those statements:

* **Policies.** Wildcard zone policies are expanded into zone pairs (`PolicyExpansion`), and
  policies inherit rules along parent links (`PolicyInheritance`). Policies are ordered and the
  first match wins, so expansion must keep, for each pair of zones, the ordered list of policies
  that apply, and must not disturb inheritance.
* **Configuration migration.** Schema versions (`SchemaVersions`), the chain search over registered
  migrations (`SchemaMigrations`) and the post-load migrations for DNS, web and zone fields
  (`PostLoadMigrations`), which run repeatedly and whose order must not show.
* **Backups.** A versioned store with pinning, pruning, restoring and limit changes (`Backups`).
* **Staged against running configuration.** Five keyed diffs that form a patch (`ConfigDiff`).
* **Runtime state.** The per-key rate limiter (`RateLimiting`), the failed-attempt window with its
  released lock (`AttemptTracking`), users and sessions (`UserStore`), and the WebSocket hub
  (`WebSocketHub`).
* **Text algorithms.** The password repetition test (`PasswordRepetition`) and the salvage of a
  broken configuration file (`Salvage`).

`Prelude`, `Strings`, `Walks` and `ConfigModel` hold shared vocabulary. Loops and in-place updates of
the source are methods and classes proved equal to specification functions; the laws are lemmas about
those functions. `Walks` gives one termination argument (a walk in a finite set stops exactly when it
visits nothing twice), used for inheritance, for the migration search and for validation's check for
circular inheritance. The first two have no cycle check of their own; validation makes one for
inheritance, and `HasCircularInheritance` proves that it reports exactly the policies on which the
recursion would not end. `dafny verify dfyconfig.toml` checks everything.

Where a promise does not hold of the code, the model keeps the code, a lemma shows an input that
breaks it, and another lemma gives the condition under which it holds:

* "Requests per minute": a key can get twice its limit in one minute and no more (`DoubleBurst`,
  `TwiceLimitPerMinute`), so it holds exactly for limits that allow nothing (`PerMinuteIff`).
* The migration search follows only the first entry that starts at a version and so can miss a chain
  (`FirstEntryCanMissChain`); it misses none exactly when no entry leads further than the first one
  with its start version (`SearchCompleteIff`, `SearchCompleteIffFurthest`).
* The clock is read before the lock when a failed attempt is recorded, so an overtaken call can
  trigger a block that no window of attempts justifies (`StaleReadingBlocksTooEarly`). A block is
  justified when the tracker held no later reading (`AutomaticBlockIsEarned`); as long as the tracker
  holds the window's failures, exactly when what it keeps less the later readings reaches the
  threshold (`EarnedIffEnoughTimely`).
* A configuration compared with itself shows pending edits exactly when two items share a key and
  differ (`UnchangedIsQuietIff`), for instance two policies for one pair of zones, which validation
  allows (`TwoPoliciesOfOnePair`).
* A staged configuration can drop a running item without any status showing it, because the diff sees
  only the last running item of a key (`HiddenDeletion`). The flag is off exactly when staged items
  that share a key are equal and both sides give the same table by key (`QuietIff`, `FlagOffIff`), and
  that means no change for every well-keyed
  staged configuration exactly when the running one is well keyed too (`QuietTellsAllIff`,
  `FlagTellsAllIff`).
* As a patch of the table by key the statuses fail exactly when a later staged item of the same key
  hides an edit (`DiffIsPatchIff`, `HiddenEdit`); carried out item by item they fail exactly when a
  live item's key is carried by several running items (`DiffRebuildsStagedIff`).
* A wildcard parent is lost by expansion and a generated name can shadow a parent
  (`WildcardParentIsLost`, `GeneratedNameShadowsParent`); ancestors survive exactly when every policy
  that disturbs a name of the chain stands at or behind one that still answers for it
  (`AncestorsSurviveIff`), which is a concrete bearer unless copies are written out
  (`SettledIffUndisturbed`).
* Two pairs of zones can share the diff's policy key, exactly when one key cut at a later arrow gives
  the other pair (`PolicyKeySharedIff`).
* A restore can prune its own source (`RestoreKeepsSourceIff` says when).
* Inheritance and the migration search do not end on a cycle (`SelfParentNeverResolves`,
  `VersionCycleNeverEnds`), and only then (`ResolvesIff`, `SearchEndsIff`).
* Zone canonicalization compares interface names only; `FullMembershipLostIff` says exactly which
  memberships it narrows, and `NarrowMatchSuppresses` shows one.
* Version numbers are reused exactly when a deletion of the newest backup is followed by the making of
  another (`VersionsNewIff`, `DeleteThenCreateReuses`).
* A zone named like a wildcard leaves wildcards in the expanded list (`ExpansionCompleteIff`).

The comment on `pruneOldBackups` speaks of auto-backups; the code prunes every unpinned backup, manual
ones included (`ManualBackupPruned`), and the model follows the code.

## Model

| member | source | states |
|---|---|---|
| PolicyExpansion.CollectCandidates | internal/config/expand.go:28-49 | the zones a side of a policy stands for: the known zones matching a wildcard, in order, or the plain name |
| PolicyExpansion.ExpandRow | internal/config/expand.go:53-69 | one copy for every target zone other than the source zone, in order |
| PolicyExpansion.ExpandWildcard | internal/config/expand.go:28-70 | the copies of a wildcard policy, source zone by source zone |
| PolicyExpansion.ExpandPolicies | internal/config/expand.go:6-74 | with distinct zone names, the output for two different zones holds, once each and in order, what the policies do whose sides reach the two: a plain side its own zone, a wildcard every declared zone and "self" that it matches; for any zone list it is the expansion that the lemmas below are about |
| PolicyExpansion.ExpansionForZones | internal/config/expand.go:6-74 | the same of the expansion, and for any zone list the deciding policy |
| PolicyExpansion.ExpandedMembers | internal/config/expand.go:51-70 | a policy is in the output if and only if it was written without wildcards or is a copy of one with wildcards for two different zones it reaches, named "from-to", or "name_from_to" when the original has a name |
| PolicyExpansion.ExpansionIsWeighted | internal/config/expand.go:17-71 | on every pair of different zones, for any zone list, the expanded policies are the original ones in order, each repeated by how often the pair occurs among its candidates |
| PolicyExpansion.ExpansionPreservesMatches | internal/config/expand.go:6-74 | with distinct zone names, every pair of different zones keeps exactly its applicable policies, once each and in order |
| PolicyExpansion.ExpansionPreservesFirstMatch | internal/config/policy.go:3-4 | the deciding policy of every pair of different zones survives expansion, for any zone list |
| PolicyExpansion.DiagonalKeepsOnlyConcrete | internal/config/expand.go:54-57 | a zone paired with itself keeps exactly the policies written for it without wildcards |
| PolicyExpansion.ExpansionCompleteIff | internal/config/validate.go:12-30 | all outputs are concrete for every policy list if and only if no zone is named like a wildcard; expanding again then changes nothing |
| PolicyExpansion.WildcardZoneLeaks | internal/config/expand.go:31-36 | a known zone named like a wildcard makes some policy list expand to a list with wildcards |
| PolicyInheritance.FindParent | internal/config/policy.go:39-46 | the first policy carrying the name, or none |
| PolicyInheritance.GetEffectiveRules | internal/config/policy.go:34-60 | the recursion with its linear search computes the effective rules whenever parent links come to an end |
| PolicyInheritance.GetInheritanceChain | internal/config/policy.go:68-85 | the recursion computes the chain of parent names, a dangling last name included |
| PolicyInheritance.ResolvesIff | internal/config/policy.go:34-60 | the recursion ends if and only if no ancestor repeats, and then within as many calls as there are policies |
| PolicyInheritance.SelfParentNeverResolves | internal/config/policy.go:39-53 | a policy that names itself as its parent makes the recursion endless |
| PolicyInheritance.WalkRepeats | internal/config/validate.go:494-515 | the walk over parent names with its visited set always ends, and finds a repetition if and only if the walk without it would not |
| PolicyInheritance.HasCircularInheritance | internal/config/validate.go:493-516 | validation reports circular inheritance if and only if the recursion would not end, so a configuration that passes always resolves |
| PolicyInheritance.EffectiveRulesFollowChain | internal/config/policy.go:52-59 | effective rules are the own rules along the reported chain, root first, then the policy's own; a dangling name adds none; the parent's are a prefix |
| PolicyInheritance.ChainNamesAncestors | internal/config/policy.go:73-84 | the chain is what the policy and its ancestors name as parents, in order; each name leads to the next ancestor, and only a last one may resolve to nothing |
| PolicyInheritance.LookupSurvivesExpansion | internal/config/expand.go:59-68 | a name resolves alike before and after expansion when every wildcard policy that bears it, or makes a copy so named, stands at or behind one whose expansion answers the name with its first bearer |
| PolicyInheritance.LookupSurvivesIff | internal/config/expand.go:59-68 | exactly then; a copy that is already written out must be free of wildcards, which plain zone names ensure |
| PolicyInheritance.PlainNamesListedConcrete | internal/config/expand.go:59-61 | with plain zone names every written-out copy is free of wildcards |
| PolicyInheritance.SettledIffUndisturbed | internal/config/expand.go:59-68 | when no copy is written out, the condition says: behind a concrete bearer |
| PolicyInheritance.ExpansionKeepsEffectiveRules | internal/config/expand.go:59-68 | expansion commutes with inheritance for a policy and all its copies when every name of its chain is settled in that sense |
| PolicyInheritance.AncestorsSurviveIff | internal/config/expand.go:59-68 | a policy keeps its line of ancestors through expansion if and only if every name of its chain is settled |
| PolicyInheritance.WildcardParentIsLost | internal/config/expand.go:62-67 | a child of a wildcard parent loses the inherited rules in expansion |
| PolicyInheritance.GeneratedNameShadowsParent | internal/config/expand.go:62-67 | a copy with a generated name can take a parent's place |
| SchemaVersions.ParsePrint | internal/config/version.go:20-47 | parsing what was printed gives every representable version back |
| SchemaVersions.ParseIff | internal/config/version.go:20-42 | a missing version is 1.0; any other text parses if and only if it is two integers with one dot between them, the major one first |
| SchemaVersions.PrintNormalises | internal/config/version.go:20-47 | whatever parses is representable and prints to a text that parses to the same version |
| SchemaVersions.CompareIsTotalOrder | internal/config/version.go:50-64 | comparison is by major and then minor, antisymmetric, transitive and zero exactly on equal versions |
| SchemaMigrations.MigrationRegistry.Register | internal/config/migration.go:27-29 | appends the migration |
| SchemaMigrations.MigrationRegistry.GetMigrationPath | internal/config/migration.go:32-57 | the search loop returns the greedy path, or an error exactly when it gets stuck below the target |
| SchemaMigrations.SearchEndsIff | internal/config/migration.go:40-54 | the search ends if and only if it meets no version twice, and then within one move more than there are entries |
| SchemaMigrations.RaisingSearchEnds | internal/config/migration.go:40-54 | the search ends whenever every registered migration raises the version |
| SchemaMigrations.VersionCycleNeverEnds | internal/config/migration.go:40-54 | two entries that lead back and forth below the target keep the search going for ever |
| SchemaMigrations.PathIsMinimalChain | internal/config/migration.go:37-56 | a returned path is a contiguous chain of registered entries from the start version, below the target until its last step, with no entry twice |
| SchemaMigrations.SearchCompleteIff | internal/config/migration.go:40-54 | for every registry and target, the search finds a path from exactly the versions that have a registered chain, if and only if wherever an entry leads to success so does the first entry with its start version |
| SchemaMigrations.SearchCompleteIffFurthest | internal/config/migration.go:40-54 | for raising registries and all targets at once: the search misses no chain if and only if no entry leads further than the first one with its start version |
| SchemaMigrations.FailsIffNoChain | internal/config/migration.go:50-53 | the instance of one entry per start version: the search ends with a path if and only if some registered chain reaches the target |
| SchemaMigrations.FirstEntryCanMissChain | internal/config/migration.go:42-49 | an instance of the failure: a dead end registered first hides an existing chain |
| SchemaMigrations.MigrateConfig | internal/config/migration.go:60-89 | every outcome: unparsable version, nothing to do, no path, a failing step with its partial edits, or all steps followed by canonicalization |
| SchemaMigrations.MigrateOutcome | internal/config/migration.go:75-88 | along a found path it succeeds if and only if the configuration can be taken through every step, each result stamped with its version, and ends with the post-load migrations run on the last; otherwise it ends with the edits of the first failing step |
| SchemaMigrations.MigrateLeavesAlone | internal/config/migration.go:61-73 | with nothing to do it succeeds, with an unreadable version or no path it fails, and the configuration is untouched; one without a version needs nothing to reach 1.0 |
| SchemaMigrations.MigrateReachesTargetAndIsIdempotent | internal/config/migration.go:60-89 | success leaves a version that parses to at least the target, and a second call succeeds and changes nothing |
| PostLoadMigrations.Config.MigrateDNSServer | internal/config/migrate_dns.go:5-62 | the legacy server moves into the new block unless that is already configured; nothing else changes |
| PostLoadMigrations.Config.TakeApiFields | internal/config/migrate_web.go:20-46 | each legacy listener field fills an empty new one; the redirect flag is only ever switched on |
| PostLoadMigrations.Config.CollectWebInterfaces | internal/config/migrate_web.go:51-61 | interface names in order, one entry for each of the two legacy reasons |
| PostLoadMigrations.Config.MigrateLegacyAPIConfig | internal/config/migrate_web.go:11-84 | the web block is created if missing, takes the legacy fields and gets one allow rule only when no rule exists |
| PostLoadMigrations.Config.FindOrCreateZone | internal/config/migrate_zones.go:9-22 | index of the first zone with the name; an empty zone is appended when there is none |
| PostLoadMigrations.Config.PlaceInterface | internal/config/migrate_zones.go:29-47 | the zone gains an unconditional match unless it has some match for the interface |
| PostLoadMigrations.Config.MoveInterface | internal/config/migrate_zones.go:26-51 | the interface is placed in the zone it names and only its zone field is emptied |
| PostLoadMigrations.Config.AbsorbInterfaces | internal/config/migrate_zones.go:53-70 | every zone's interface list moves to the end of its matches |
| PostLoadMigrations.Config.CanonicalizeZones | internal/config/migrate_zones.go:24-73 | both loops together; only interfaces and zones change |
| PostLoadMigrations.Config.ApplyPostLoad | internal/config/migrate_registry.go:53-60 | runs the registered migrations in order |
| PostLoadMigrations.MigrationsCommute | internal/config/migrate_registry.go:53-60 | any two post-load migrations commute on every configuration |
| PostLoadMigrations.MigrationIdempotent | internal/config/migrate_registry.go:53-60 | each post-load migration is idempotent on every configuration |
| PostLoadMigrations.OnlyTheSetMatters | internal/config/migrate_registry.go:53-60 | for any sequence of runs the result depends only on which migrations occur in it |
| PostLoadMigrations.LoadIsScheduleIndependent | internal/config/migrate_registry.go:53-60 | all schedules that run each migration at least once agree, and any further runs change nothing |
| PostLoadMigrations.LoadedWeb | internal/config/migrate_web.go:11-84 | after every complete schedule each web field that was set is kept and each empty one equals the legacy field of the same name; the redirect is off exactly when either side said so; given rules stay, and otherwise one rule allows exactly the interfaces with a legacy reason |
| PostLoadMigrations.LoadedDns | internal/config/migrate_dns.go:5-62 | after every complete schedule a configured block is untouched; otherwise it resolves like the legacy server and has exactly one block serving "*" when that was enabled |
| PostLoadMigrations.LoadedElsewhere | internal/config/migrate_registry.go:53-60 | everything else is as before, apart from zones and the interfaces' zone fields |
| PostLoadMigrations.VersionUntouched | internal/config/migration.go:83-86 | no schedule changes the schema version |
| PostLoadMigrations.CanonicalZonesKeepMentions | internal/config/migrate_zones.go:24-73 | a zone mentions an interface after canonicalization if and only if it did before; both deprecated fields end up empty |
| PostLoadMigrations.CanonicalZonesExtend | internal/config/migrate_zones.go:9-22 | existing zones stay an ordered prefix with their matches kept; exactly the undeclared zones named by interfaces are added, each once and empty but for matches; every added match carries no condition |
| PostLoadMigrations.FullMembershipLostIff | internal/config/migrate_zones.go:35-47 | membership with no condition in the match itself is never gained, and is lost exactly when the first zone of that name already has a narrower match for an interface that joins through its own field |
| PostLoadMigrations.NarrowMatchSuppresses | internal/config/migrate_zones.go:35-47 | a configuration that loses such a membership |
| Backups.BackupManager.constructor | internal/config/backup.go:35-47 | opens on any directory; a limit of zero or less becomes twenty; the invariant holds exactly when the files found are numbered in order from one up |
| Backups.BackupManager.ListBackups | internal/config/backup.go:114-171 | for any directory exactly its files, no version rising; strictly descending when versions are distinct |
| Backups.BackupManager.GetBackup | internal/config/backup.go:174-187 | the backup with that version, or none |
| Backups.BackupManager.CollectUnpinned | internal/config/backup.go:300-306 | the unpinned backups, newest first |
| Backups.RemoveFrom | internal/config/backup.go:312-316 | the removal loop deletes exactly the unpinned backups whose rank is at or past the limit |
| Backups.BackupManager.PruneOldBackups | internal/config/backup.go:294-317 | keeps exactly the pinned backups and those with fewer newer unpinned ones than the limit |
| Backups.BackupManager.CreateBackup | internal/config/backup.go:55-111 | fails when the file is missing; otherwise stores the current text under the next version, prunes, and the new backup survives |
| Backups.BackupManager.CreatePinnedBackup | internal/config/backup.go:385-402 | as creating, and the stored and returned backup is pinned |
| Backups.BackupManager.SetBackupPinned | internal/config/backup.go:415-431 | changes the flag of that version alone; fails exactly when it is missing |
| Backups.BackupManager.SetMaxBackups | internal/config/backup.go:434-439 | a positive limit is set and applied at once; others are ignored |
| Backups.BackupManager.RestoreBackup | internal/config/backup.go:206-245 | backs up the current text first, then writes the chosen text, migrated when its schema is not current |
| Backups.BackupManager.DeleteBackup | internal/config/backup.go:320-330 | removes that version alone; fails exactly when it is missing |
| Backups.PruneKeepsNewest | internal/config/backup.go:292-317 | pruning keeps every pinned backup and exactly the newest unpinned ones up to the limit, in order |
| Backups.ManualBackupPruned | internal/config/backup.go:292-317 | an unpinned backup made by hand is pruned like any other |
| Backups.NewestRetained | internal/config/backup.go:294-317 | the newest backup survives every prune |
| Backups.CreateRecords | internal/config/backup.go:66-101 | the newest file after creating holds the current text, its schema version or "1.0", time, description and kind, unpinned, numbered one above the newest before |
| Backups.OthersRecord | internal/config/backup.go:385-402 | a pinned backup is recorded alike but pinned; the one before a restore is automatic, with its own description |
| Backups.SetMaxApplies | internal/config/backup.go:434-439 | a positive limit cuts the unpinned backups to the newest ones at once |
| Backups.RunWithinLimit | internal/config/backup.go:294-317 | once the unpinned backups are within the limit, they stay so through every run that neither unpins nor opens a new manager |
| Backups.StepKeeps | internal/config/backup.go:320-439 | every operation keeps versions ordered and distinct and keeps pinned backups it does not release; the next version advances by one exactly when a backup is made and falls exactly when the newest is deleted |
| Backups.RunIssuesConsecutive | internal/config/backup.go:66-71 | over every run in which no deletion of the newest backup is followed by the making of another, the issued versions are consecutive |
| Backups.VersionsNewIff | internal/config/backup.go:66-71 | over every run, all issued versions are new and issued once if and only if no deletion of the newest backup is followed by the making of another |
| Backups.DeleteThenCreateReuses | internal/config/backup.go:320-330 | deleting the newest backup and making one reuses a number, from every state |
| Backups.RunKeepsPinned | internal/config/backup.go:292-317 | a pinned backup survives every run in which it is neither unpinned nor deleted |
| Backups.DeleteFreesVersionIff | internal/config/backup.go:320-330 | one deletion frees a number if and only if it hits the newest backup |
| Backups.RestoreIsExact | internal/config/backup.go:206-245 | restoring without migration writes the chosen text, even when that backup is pruned meanwhile, and the newest backup then holds the replaced text |
| Backups.RecentSurvives | internal/config/backup.go:294-317 | an unpinned backup survives every run that does not delete it and in which the newer unpinned ones, present or added, stay fewer than the smallest limit in force |
| Backups.RestoreIsUndoable | internal/config/backup.go:206-245 | after a restore, at once or after any further run that adds fewer backups than the limit and does not delete the one made before it, restoring that one brings the replaced text back, or its migrated form when its schema is old |
| Backups.RestoreKeepsSourceIff | internal/config/backup.go:217-218 | a restore keeps its own source if and only if there is no current configuration, the source is pinned, or it stays within the limit after one more backup |
| Backups.RestoreMayPruneItsSource | internal/config/backup.go:217-218 | with a limit of one every restore of an unpinned backup prunes it |
| RateLimiting.AuthMiddleware.CheckRateLimit | internal/api/auth.go:307-331 | the decision and the whole new table: only the caller's limiter changes |
| RateLimiting.KeysAreIndependent | internal/api/auth.go:307-331 | a key's grants in any run depend on its own calls alone |
| RateLimiting.GrantedIffEarly | internal/api/auth.go:307-331 | exactly the first calls up to the limit in each of a key's minutes are granted; a minute begins with the limiter or with the first call a minute after the beginning before it |
| RateLimiting.MinuteBudget | internal/api/auth.go:319-330 | what a limiter can still grant inside a minute, for every state and continuation |
| RateLimiting.TwiceLimitPerMinute | internal/api/auth.go:319-330 | at most twice the limit is granted in any half-open minute of any run with a nondecreasing clock |
| RateLimiting.LongRunBudget | internal/api/auth.go:319-330 | remaining tokens plus one limit per whole minute bound the grants up to any time |
| RateLimiting.LongRunRate | internal/api/auth.go:319-330 | within any span of a key's first call at most limit times one plus the whole minutes in it are granted |
| RateLimiting.DoubleBurst | internal/api/auth.go:319-323 | for every positive limit a legal run gets exactly twice the limit inside one minute |
| RateLimiting.PerMinuteIff | internal/api/auth.go:319-330 | every run stays within the limit in every minute if and only if the limit is not positive |
| AttemptTracking.SecurityManager.RecordFailedAttempt | internal/api/security.go:55-104 | local addresses are ignored; others get the attempt appended, pruned to the window and compared with the threshold |
| AttemptTracking.SecurityManager.ClearAttempts | internal/api/security.go:118-121 | removes the address's tracker |
| AttemptTracking.PrunedListIsSurvivors | internal/api/security.go:78-90 | for every run and clock order, the pruned list is the history since the last clear without the readings that a later-recorded one left more than a window behind |
| AttemptTracking.PrunedListIsWindowedHistory | internal/api/security.go:78-90 | when the readings reach the lock in order, that is the history filtered by the current window |
| AttemptTracking.RequestedIff | internal/api/security.go:92-101 | a call starts a block request if and only if there is a blocker and the surviving history reaches the threshold |
| AttemptTracking.RequestedIffWindowed | internal/api/security.go:92-101 | with ordered readings, if and only if the failures in the window since the last clear reach it: no block that is due is left out |
| AttemptTracking.TrackedWereRecorded | internal/api/security.go:78-90 | over all interleavings and clock orders, no interval holds more tracked readings than recorded failures |
| AttemptTracking.AutomaticBlockIsEarned | internal/api/security.go:92-101 | over all interleavings, an automatic block follows at least the threshold of real failures inside one window, if the tracker held no reading later than the call's own when it got the lock |
| AttemptTracking.OrderedMeansNoLater | internal/api/security.go:56-64 | that is so whenever the address's readings reach the lock in order |
| AttemptTracking.EarnedIffEnoughTimely | internal/api/security.go:78-92 | for a tracker that still holds the window's failures and any threshold, a request is earned if and only if the readings kept, less the later ones held, reach the threshold |
| AttemptTracking.EarnedIffNoLaterReading | internal/api/security.go:78-92 | the instance at the threshold with nothing dropped or cleared: earned if and only if no later reading was held |
| AttemptTracking.ClearedOnlyAfterAdded | internal/api/security.go:107-124 | a tracker is cleared only after the same request added the address |
| AttemptTracking.DecidedOnce | internal/api/security.go:107-124 | every request is decided at most once and clears its tracker at most once |
| AttemptTracking.ManualRequestOpens | internal/api/security.go:107-129 | a request made by hand is opened if and only if there is a blocker |
| AttemptTracking.LoopbackIsExempt | internal/api/security.go:58-61 | the two loopback addresses are never tracked, every other address that fails is |
| AttemptTracking.BlockedIff | internal/api/security.go:127-144 | the set holds exactly the addresses added and not unblocked since |
| AttemptTracking.StaleReadingBlocksTooEarly | internal/api/security.go:56-64 | an old clock reading that reaches the lock late causes a block that was not earned |
| WebSocketHub.StepKeepsSafe | internal/api/websocket.go:89-129 | every step keeps: no send on or close of a closed channel, a registered client's channel open exactly while it is in the map, buffers within capacity |
| WebSocketHub.HubIsSafe | internal/api/websocket.go:89-129 | after every prefix of every interleaving nobody has sent on or closed a closed channel, no buffer holds more than 256 messages, and the rest of that invariant holds |
| WebSocketHub.DeliveredInOrder | internal/api/websocket.go:328-337 | buffer and delivered messages are always consecutive parts of what was enqueued, in order, short of at most one failed write |
| WebSocketHub.EnqueuedAtMostOnce | internal/api/websocket.go:119-128 | no publication is enqueued twice for a client |
| WebSocketHub.DeliveredAtMostOnce | internal/api/websocket.go:109-129 | no client receives a publication twice |
| WebSocketHub.EnqueuedWhileWanted | internal/api/websocket.go:119-128 | every enqueued message was offered while the client was in the map and wanted its topic |
| WebSocketHub.HeldIffSubscribed | internal/api/websocket.go:315-324 | over every run a client holds exactly the topics it subscribed to and did not unsubscribe from since |
| WebSocketHub.ActiveWasPublished | internal/api/websocket.go:109-114 | a running publication carries the topic and data it was published with |
| WebSocketHub.DeliveredOnlySubscribed | internal/api/websocket.go:295-337 | everything received was published with that topic and data, and sent while its topic was "status" or one the client had subscribed to and not left since |
| WebSocketHub.PendingOrOffered | internal/api/websocket.go:116-128 | while a publication runs, a client that was in the map at its start is still to be visited or was offered the message exactly once |
| WebSocketHub.FinishedWasOffered | internal/api/websocket.go:109-129 | a finished publication was offered exactly once to every client in the map at its start |
| WebSocketHub.OfferEnqueuedIff | internal/api/websocket.go:121-127 | an offer is enqueued if and only if the topic is "status" or currently subscribed to, and the buffer of 256 has room |
| UserStore.Store.constructor | internal/auth/users.go:65-82 | a new store holds what the file holds, without expired sessions |
| UserStore.Store.Load | internal/auth/users.go:85-115 | loads users and unexpired sessions; a missing file leaves the store empty |
| UserStore.Store.RemoveExpired | internal/auth/users.go:106-112 | exactly the expired sessions go |
| UserStore.Store.CreateUser | internal/auth/users.go:181-208 | all failure cases, else the user is added and everything saved |
| UserStore.Store.Authenticate | internal/auth/users.go:211-245 | a session is issued and saved exactly when user and password agree |
| UserStore.Store.ValidateSession | internal/auth/users.go:248-273 | the user behind a known, unexpired token, else none |
| UserStore.Store.Logout | internal/auth/users.go:276-282 | removes and saves that token alone |
| UserStore.Store.UpdatePassword | internal/auth/users.go:315-333 | only the hash and time stamp of that user change |
| UserStore.Store.CountAdmins | internal/auth/users.go:374-379 | the number of administrators |
| UserStore.Store.UpdateRole | internal/auth/users.go:336-362 | refuses exactly for a missing user or the demotion of the last administrator |
| UserStore.Store.RemoveSessionsOf | internal/auth/users.go:386-391 | exactly that user's sessions go |
| UserStore.Store.DeleteUser | internal/auth/users.go:365-394 | refuses exactly for a missing user or the last administrator; else user and sessions go |
| UserStore.StepKeepsConsistent | internal/auth/users.go:181-394 | every operation, restarts included, keeps: each session's user exists, and memory holds nothing the file lacks |
| UserStore.RunKeepsConsistent | internal/auth/users.go:85-115 | so does every run |
| UserStore.UsersAgreeWithHistory | internal/auth/users.go:181-394 | over every run, restarts included, a user is there if and only if it was created and not deleted since, and its hash, role and times are what the last operation concerning each wrote |
| UserStore.LoginIff | internal/auth/users.go:211-223 | a login succeeds if and only if the password fits the hash that was set last |
| UserStore.StepKeepsAdmin | internal/auth/users.go:336-394 | an operation never removes the last administrator |
| UserStore.RunKeepsAdmin | internal/auth/users.go:336-394 | once there is an administrator, there is one ever after |
| UserStore.TablesAgreeWithHistory | internal/auth/users.go:85-115 | the tables in memory and on disk list a token only if it stands in the history, and until it expires |
| UserStore.TokenValidIff | internal/auth/users.go:248-273 | after any run a token validates if and only if it was issued, has not expired and was followed neither by its logout nor by its user's deletion, even if the name was created again |
| ConfigDiff.BuildMap | internal/api/config_diff.go:175-178 | the lookup table by key, the last of equal keys staying |
| ConfigDiff.ComputeStatuses | internal/api/config_diff.go:174-194 | each staged item with its status, in order |
| ConfigDiff.FindDeleted | internal/api/config_diff.go:196-210 | the running items whose key is not staged, in order |
| ConfigDiff.WrapAllPending | internal/api/config_diff.go:212-218 | every item as an addition |
| ConfigDiff.StatusMeans | internal/api/config_diff.go:174-194 | a staged item is an addition if and only if no running item has its key, and otherwise live or an edit as the last such item equals it or not |
| ConfigDiff.DeletionsMean | internal/api/config_diff.go:196-210 | the deletions are exactly the running items whose key is not staged, in order |
| ConfigDiff.SectionKeys | internal/api/config_diff.go:174-400 | policies are told apart by their pair, NAT rules, zones and sets by name, routes by destination |
| ConfigDiff.HasPending | internal/api/config_diff.go:432-459 | some item is not live |
| ConfigDiff.Section | internal/api/config_diff.go:147-165 | statuses followed by deletions |
| ConfigDiff.CompareSections | internal/api/config_diff.go:135-170 | all five sections and the flag, with a missing running configuration treated like an empty one |
| ConfigDiff.BuildConfigWithStatus | internal/api/config_diff.go:98-171 | nothing for a missing staged configuration, else that comparison |
| ConfigDiff.DropDeletesGivesStaged | internal/api/config_diff.go:147-165 | without the pending deletions the values are the staged list, in order |
| ConfigDiff.DiffIsPatchIff | internal/api/config_diff.go:174-210 | carrying out the statuses on the table of running items, which holds the last one of each key, yields the staged table if and only if no staged edit is followed by a staged item of the same key that equals the running one |
| ConfigDiff.HiddenEdit | internal/api/config_diff.go:174-194 | any two different items of one key, staged over the second, are such a failure |
| ConfigDiff.DiffRebuildsStagedIff | internal/api/config_diff.go:174-210 | carried out item by item, the statuses turn the running items into the staged ones if and only if no staged item is live while several running items carry its key |
| ConfigDiff.DiffIsPatch | internal/api/config_diff.go:174-210 | on that table they do so whenever staged keys are distinct |
| ConfigDiff.QuietIff | internal/api/config_diff.go:174-210 | for all lists, nothing is pending if and only if staged items that share a key are equal and both sides give the same table by key |
| ConfigDiff.HiddenDeletion | internal/api/config_diff.go:174-178 | dropping the earlier of two different running items of one key shows no status at all |
| ConfigDiff.QuietIffSameItems | internal/api/config_diff.go:174-210 | with distinct keys on both sides, nothing is pending if and only if both hold the same items up to order |
| ConfigDiff.QuietTellsAllIff | internal/api/config_diff.go:174-210 | no status means no change, for every staged list with distinct keys, if and only if the running keys are distinct |
| ConfigDiff.FlagOffIff | internal/api/config_diff.go:432-459 | for all configurations, the flag is off if and only if in each section staged items that share a key are equal and both sides give the same table |
| ConfigDiff.NoPendingChangesIff | internal/api/config_diff.go:432-459 | when both configurations have distinct keys in every section, the flag is off if and only if all five sections agree up to order |
| ConfigDiff.FlagTellsAllIff | internal/api/config_diff.go:432-459 | the flag can be trusted, for every well-keyed staged configuration, if and only if the running one has distinct keys in every section |
| ConfigDiff.UnchangedIsQuietIff | internal/api/config_diff.go:174-194 | an unchanged section is reported as unchanged if and only if items that share a key are equal |
| ConfigDiff.TwoPoliciesOfOnePair | internal/api/config_diff.go:174-194 | two different policies for one pair: compared with itself the configuration shows a change, and dropping the first policy shows none |
| ConfigDiff.NilRunningIsEmptyRunning | internal/api/config_diff.go:135-145 | the branch without a running configuration agrees with diffing against an empty one, flag included |
| ConfigDiff.PolicyKeySharedIff | internal/api/config_diff.go:177-182 | two different pairs share a key if and only if one pair's key, cut at a later arrow, gives the other pair |
| ConfigDiff.PolicyKeyInjective | internal/api/config_diff.go:177-182 | so the key tells pairs apart when no source zone contains an arrow |
| ConfigDiff.PolicyKeyCollision | internal/api/config_diff.go:177-182 | a policy's key can stand for another pair if and only if one of its zone names contains an arrow |
| PasswordRepetition.HasExcessiveRepetition | internal/auth/password.go:211-264 | true if and only if there are three equal bytes, a doubled block of two or three, a block of four that recurs without overlap, or four bytes ascending modulo 256 |
| PasswordRepetition.FindDoubled | internal/auth/password.go:224-234 | some block of a length in the searched range is directly doubled |
| PasswordRepetition.FindRecurring | internal/auth/password.go:236-247 | some block of a length in the searched range recurs without overlap |
| PasswordRepetition.FindClimb | internal/auth/password.go:249-261 | the counter finds exactly the ascending runs of four |
| PasswordRepetition.SearchBoundsDoNotMatter | internal/auth/password.go:226-247 | any cap of at least four gives the answer of lengths two, three and four alone |
| Salvage.FindStart | internal/config/forgiving.go:195-210 | the nearest block start at or above the error line, or the line after the previous block |
| Salvage.FindEnd | internal/config/forgiving.go:212-223 | the first line that closes the braces counted from the error line, or the end of the text |
| Salvage.FindBlock | internal/config/forgiving.go:191-223 | both bounds; the error line, clamped to the text, lies between them |
| Salvage.BlockUnique | internal/config/forgiving.go:195-223 | an error line has just one such block |
| Salvage.CommentLines | internal/config/forgiving.go:238-241 | exactly the lines of the block get one marker |
| Salvage.CommentOutBlock | internal/config/forgiving.go:189-244 | the report and the new text, which always differs from the old one |
| Salvage.CommentOutReported | internal/config/forgiving.go:99-126 | a round comments out exactly the block of the reported line, the first line when none is reported, and reports its bounds, shortened message and text |
| Salvage.LoadForgiving | internal/config/forgiving.go:70-137 | a clean parse is returned as it is; otherwise the result is reached from the data by one such round for each skipped block, each on a text that does not parse, and it parses or fifty blocks were skipped; the branch for lack of progress is never taken; if errors are never reported on commented lines, a text with fewer than fifty plain lines is always salvaged |
| Salvage.SalvagedLine | internal/config/forgiving.go:88-137 | every line of a salvage is the original behind exactly as many markers as skipped blocks hold it, so a line outside all of them is unchanged |
| Salvage.OneMoreMarker | internal/config/forgiving.go:238-243 | a round keeps the line count and adds at most one marker per line |
| Salvage.StripRecoversIff | internal/config/forgiving.go:238-241 | stripping markers from a salvage gives the original back if and only if no original line began with one |

## Left out

- `filepath.Match`, the HCL parser and printer, JSON marshalling, the regular expressions of the salvage, `strings.TrimSpace` and bcrypt are parameters; session tokens are parameters assumed pairwise different where the history of sessions is described.
- Reading and writing files always succeeds; a full disk or a corrupt file is not described.
- Nil and empty slices are not told apart, and fields that the modelled code only copies are grouped into one component (rule conditions, zone attributes, DNS serving options, most of the configuration).
- PostLoadMigrations.FullMembershipLostIff: a zone's own source, destination and VLAN defaults are not interpreted; they apply to all matches of the zone alike.
- Pointers to users, sessions, trackers, limiters and zones inside the source's maps and slices are modelled as values that are put back after an update; aliasing of a returned `*User` or `*Session` is not described.
- PolicyInheritance.GetEffectiveRules: requires that parent links end, because the source recurses forever on a cycle; `ResolvesIff` says when that is. The same holds of `GetInheritanceChain`.
- SchemaMigrations.MigrationRegistry.GetMigrationPath: requires that the search ends, because the source loops forever on a cycle; `SearchEndsIff` says when that is. The same holds of `MigrateConfig`.
- PolicyInheritance.ExpansionKeepsEffectiveRules: its condition is exact for the line of ancestors (`AncestorsSurviveIff`); the rules alone can also survive by chance, when other ancestors carry the same ones.
- PolicyInheritance.LookupSurvivesIff: leaves aside lists in which a written-out copy contains a wildcard, which takes a zone named like a wildcard. The same holds of `AncestorsSurviveIff`.
- RateLimiting.AuthMiddleware.CheckRateLimit: one call is one step, so two first calls of a key that overlap between the two locks are seen in the order of the second lock.
- AttemptTracking.PrunedListIsWindowedHistory: the window is the same for all calls of a run.
- The WebSocket hub is a step system over values rather than goroutines; the unsynchronised reads and writes of a client's topic map are treated as atomic, and the periodic status loop, notifications and `hasSubscribers` are not described.
- Backups.BackupManager.ListBackups: backups are kept in the order of creation instead of directory order, and metadata files are always present; parsing versions out of file names, and the order of two files that carry one number, are not described.
- Backup statistics, validation of a backup and the textual comparison with the current configuration: reading operations with nothing beyond their loops.
- `MigrateToLatest` and the support list of schema versions: one call of what is modelled, and one scan.
- Validation other than its check for circular inheritance, pre-parse migrations, zone and policy normalisation in the loader, `Config.Clone`, the HCL serializer and section editing.
- Password scoring and entropy, login handlers, CSRF, the other middleware, HTTP handlers and the command-line tools.
- Text is a sequence of characters; the salvage's limit of one hundred on a reason counts characters, where the source counts bytes.
- Salvage.CommentOutBlock: requires an error line of at least one, which `LoadForgiving` establishes.
