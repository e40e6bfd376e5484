# Verified model of DeployCrate CE's stateful core

A Dafny model of the parts of DeployCrate CE where correctness is a property of
whole runs rather than of one function: backup retention and the backup
lifecycle, the DNS binding protocol, buildpack settings, the build, deployment
and change lifecycles, the domain registry, cursor reading of logs, and turning
HTML mail into text. `dafny verify dfyconfig.toml` checks everything.

## How it is modelled

A stored table is a class with one field `rows`, a map from row identifier to
row. Each update of the source is one guarded compare-and-set on one row, so
each method is one atomic step: `Guard` is its `WHERE` clause, `Effect` its
`SET` clauses, `Updated` the table afterwards, and the method body, written out
column by column, is proved to compute just that. Runs are traces of these
steps in any order by any number of actors, and the laws are about runs. For every
lifecycle a second account of the rows is given that mentions no status: the steps
that took effect on a row tell each of its columns, by the first or last step that
concerns it, and which step is accepted next (`HistoryTells` in the `History`
modules); both accounts are proved to agree on every run.
Algorithms that are loops in the source (the retention selection, collecting
scripts, building the environment, numbering log entries, walking HTML,
collapsing newlines) are methods with loops, proved against declarative
definitions.

| Modules | Subject |
|---|---|
| `Retention`, `RetentionLaws`, `RetentionSurvivors` | which backups a prune pass keeps; early pruning, bounds, monotonicity |
| `Calendar`, `CalendarBound`, `RetentionBound` | UTC days, ISO weeks and months; how many backups are kept at most, and when that many are |
| `Backups`, `BackupHistory`, `BackupRuns`, `RetentionRuns`, `RestorePins` | the seven-state backup lifecycle with stale, overlapping and aborted prune passes and restores; what is kept in the end |
| `DnsBindings`, `BindingHistory`, `BindingRuns` | users bump generations, workers report under the one they read |
| `DnsRecords`, `DnsZones`, `ZoneSyncs` | synchronising tables with a remote provider |
| `Paths`, `Buildpacks`, `PackEnvironments` | relative paths, four settings schemas in one canonical form, the build environment |
| `Builds`, `BuildHistory`, `Deployments`, `DeploymentHistory`, `Changes`, `ChangeHistory` | worker and user racing on a row; completed setup |
| `Domains` | hostnames and primary domains |
| `Patterns` | the regular expressions of the source, and what is matched by hand here |
| `AppendLog` | numbering and reading by cursor |
| `PlainText`, `HtmlTree`, `HtmlWords`, `HiddenText`, `HtmlWalk` | HTML to text: words, lines, and when hidden elements show |
| `Common`, `Text`, `Histories` | shared vocabulary; trimming, splitting, joining; first and last steps of a kind |

## What the proofs found

Where a property one might expect is false of the code, the model keeps the
code and states exactly when it holds.

- A backup that a restore needs is hidden from new prune passes, but a pass that
  selected it before the restore was requested and is still running prunes it. A
  pin protects a backup in every continuation exactly if no running pass has it on
  its list
  (`RestorePins.PinProtectsExactly`, `RestorePins.PinnedBackupCanBePruned`).
  `DOMAIN_LOGIC_REVIEW.md:773` asks that retention never prune such a backup.
- Canonical settings read back as the same settings exactly if the frontend
  directory has no white space at its ends; `./ app` is stored as ` app`, which
  reads back as `app` (`Buildpacks.CanonicalisationIsStable`,
  `Paths.SpacedPathIsNotStable`).
- A binding's state `applied` means that the applied generation is current
  unless `MarkState` itself is given `applied`
  (`BindingRuns.AppliedMeansCurrentExactly`, `BindingRuns.MarkStateCanClaimApplied`).
- `PrepareDeployment` does not bump the generation, so a deployment request that
  arrives while a worker is busy can be marked dispatched although the worker
  dispatched the earlier one (`BindingRuns.DispatchedRequestIsTheOneRead`,
  `BindingRuns.OvertakenRequestIsMarkedDispatched`).
- An `Update` that archives or moves a primary domain, and `Destroy`, can leave
  aliases without a primary; nothing else can
  (`Domains.AliasesKeepPrimaryExactly`, `Domains.ArchivingUpdateOrphansAliases`).
- When two zones of a connection exchange names at the provider, each upsert is
  refused because the other row, archived or not, still holds the name, however
  often the sync is repeated and whatever other zones it carries
  (`DnsZones.ExchangeIsNeverStored`). A full sync goes through exactly if every
  zone may follow those listed before it, so the order of the list matters
  (`ZoneSyncs.SyncAcceptedExactly`).
- A hostname is normalised once before it is stored but twice before its format is
  checked, so `x..` passes and is stored as `x.` beside an active `x`. Two active
  names come to agree exactly if an active domain is written whose hostname ends open
  and what is left of it is an active hostname, which a caller can tell before the
  call (`Domains.NamesDistinctExactly`, `Domains.ClashesExactly`); over whole runs
  names stay distinct exactly if no step does so
  (`Domains.DistinctThroughoutExactly`, `Domains.DottedNameIsAcceptedTwice`).
- A week has seven days, so daily backups use up weekly ones: with 30 daily and 2
  weekly backups the weekly quota keeps nothing more. For quotas
  that the calendar can fill (`CalendarBound.Fits`; with at most 86,400,000,000 newest
  backups these are all with at most one monthly backup, and all with at most 31 daily
  backups and either at most 8 monthly or at most 35 weekly ones) the bound that adds
  up the quotas is reached exactly if the daily quota fits one week or there is at most
  one weekly backup, and it fits one month or there is at most one monthly backup
  (`CalendarBound.PlainBoundReachedExactly`).
- Completed setup survives everything builds do; the one step that undoes it is
  `MarkCancelled`, and a retry brings it back (`Changes.SetupLostExactly`,
  `Changes.CancelledSetupReturnsOnRetry`).
- Text of hidden elements shows inside links and nowhere else. A link reads the same
  without the hidden elements below it exactly if its trimmed text does; hidden
  elements that are not blank always show (`HiddenText.LinkShowsHiddenExactly`,
  `HiddenText.HiddenInkShowsInLinks`). The texts and links of a document show only
  what is not hidden exactly if all its links are clean
  (`HiddenText.HiddenTextShowsExactly`, `HiddenText.CleanLinksHideAll`).

## Model

| member | source | states |
|---|---|---|
| Retention.SelectBackupsToPrune | models/backup.go:363-403 | for every input the pruned list is what the marks leave after the newest; with distinct identifiers it is exactly the backups that the position rule `Keeps` rejects, in order |
| Retention.MarkNewest | models/backup.go:370-373 | the first loop marks the newest backup and the newest `last` ones, none beyond the list |
| Retention.MarkTiers | models/backup.go:374-395 | the loop over mutable period maps marks exactly the backups the map-free tier rule selects |
| Retention.CollectUnmarked | models/backup.go:396-402 | the third loop returns the unmarked backups after the newest, in order |
| Retention.FilledFacts | models/backup.go:374-395 | a tier's map holds every period so far, or as many as the quota allows |
| Retention.FilledDecides | models/backup.go:374-395 | testing the map decides like counting the distinct periods of all newer backups |
| Retention.MarkedByTheRule | models/backup.go:374-395 | the marks after the loop are those of the tier rule applied at each position |
| Retention.UnmarkedIsDropped | models/backup.go:363-403 | with distinct identifiers, marking by identifier is marking by position |
| RetentionLaws.KeptAfterKept | models/backup.go:363-403 | keep(new + keep(old)) = keep(new + old), for any quotas and lists |
| RetentionLaws.PruningIsIdempotent | models/backup.go:363-403 | a second pass over the survivors prunes nothing |
| RetentionRuns.SupersededAlways | services/backup_retention.go:30-134 | in every run whose passes of a policy use the same quotas, whatever such a pass has on its list or has pruned is rejected by the rule after some newer verified backups |
| RetentionRuns.OnlineIsOffline | services/backup_retention.go:30-134 | after any such run, with stale, overlapping and aborted passes that prune one backup at a time, with restores and with backups verified in any order, a pass over what is verified keeps exactly what one pass over everything ever verified keeps, and none of that was ever pruned |
| RetentionRuns.PassLeavesKept | services/backup_retention.go:130-134 | once a pass that sees everything has pruned its list one by one, exactly what the rule keeps of everything ever verified is verified |
| RetentionRuns.SupersededIsRejected | models/backup.go:363-403 | what was superseded at any time is rejected when everything ever verified is looked at |
| RetentionRuns.ListingExists | models/backup.go:333-349 | the listings these laws speak of always exist |
| RetentionSurvivors.RejectedAreSuperfluous | models/backup.go:363-403 | deleting rejected backups, whichever, changes nothing about what a pass keeps |
| RetentionSurvivors.DeletingLeavesKept | services/backup_retention.go:130-134 | with distinct identifiers, deleting the prune list leaves exactly the kept backups, in order |
| RetentionLaws.KeptByIndex | models/backup.go:370-402 | a backup is kept (dropped) exactly if it stands at a retained (not retained) position, and as many are kept as positions are retained |
| RetentionLaws.PruneListPartitions | models/backup.go:396-402 | kept and pruned lists are in input order, together make up the input, and the newest backup is kept |
| RetentionLaws.RetainedAtMost | models/backup.go:363-403 | at most max(1,last) + max(0,daily-1) + max(0,weekly-1) + max(0,monthly-1) are kept |
| RetentionBound.UpperBoundIsReached | models/backup.go:363-403 | no better bound follows from periods being monotone in time alone: some such list, not one of the calendar, reaches it |
| Calendar.CalendarFollowsTime | models/backup.go:377-381 | UTC days, ISO weeks and months of scheduled times are monotone in time |
| Calendar.EntryIsUnique | models/backup.go:377-381 | the scheduled time determines the three keys |
| Calendar.FirstDayIsGregorian | models/backup.go:377-381 | the first day of every month, past and future, is that of the Gregorian calendar in closed form |
| Calendar.EpochIsThursday | models/backup.go:377-381 | 1 January 1970 falls on a Thursday, so weeks start on Mondays as ISO weeks do |
| Calendar.KeysAdvance | models/backup.go:377-381 | a day's microseconds later it is the next day, seven times as many later the next week; month, week and day change at midnight of 1 February 2027 |
| Calendar.DaysPerPeriod | models/backup.go:377-381 | a list touches at most seven days a week and thirty-one a month |
| CalendarBound.RetainedAtMostOnCalendar | models/backup.go:363-403 | on the calendar at most max(1,last) + max(0,daily-1) + max(0,weekly-max(1,ceil(daily/7))) + max(0,monthly-max(1,ceil(daily/31))) are kept, for all quotas and lists |
| CalendarBound.CalendarBoundIsReached | models/backup.go:363-403 | distinct scheduled times reach that bound for all quotas that fit, back from a month that ends on a Sunday |
| CalendarBound.FitsUsually | models/backup_policy.go:155-160 | with at most 86,400,000,000 newest backups, quotas fit if at most one is monthly, or at most 31 are daily and either at most 8 monthly or at most 35 weekly |
| CalendarBound.PlainBoundReachedExactly | models/backup.go:363-403 | for quotas that fit, the bound of `RetainedAtMost` is reached by scheduled times exactly if daily <= 7 or weekly <= 1, and daily <= 31 or monthly <= 1 |
| RetentionLaws.RetainedAtLeast | models/backup.go:363-403 | at least min(n, max(1,last)) are kept, and for each tier at least min(quota, distinct periods) |
| RetentionLaws.RaisingQuotasKeepsMore | models/backup_policy.go:155-160 | raising any quota prunes no backup that was kept before |
| RetentionLaws.TierKeepsMostRecent | models/backup.go:374-395 | on a newest-first list a tier keeps a backup exactly if it is the newest of its period and fewer than quota non-empty periods are more recent |
| RetentionLaws.TierKeepsQuotaMany | models/backup.go:374-395 | a tier alone keeps exactly min(quota, distinct periods) backups |
| Backups.BackupTable.Create | models/backup.go:156-211 | inserts unless the policy has a backup in that scheduled slot; slots stay unique |
| Backups.BackupTable.Claim | models/backup.go:405-420 | pending, running or failed becomes running, keeping the first start time; reports whether it did |
| Backups.BackupTable.MarkFailed | models/backup.go:422-438 | only a backup not yet uploaded fails |
| Backups.BackupTable.MarkUploaded | models/backup.go:447-479 | a running backup without artifact receives artifact, size and digest |
| Backups.BackupTable.MarkVerified | models/backup.go:481-502 | uploaded or verification-failed becomes verified |
| Backups.BackupTable.MarkVerificationFailed | models/backup.go:504-529 | a verification failure keeps the uploaded artifact |
| Backups.BackupTable.MarkPruned | models/backup.go:542-562 | only a verified backup is pruned |
| BackupHistory.HistoryTells | models/backup.go:405-562 | whatever is tried on a new backup: start, finish, upload, verification and prune times, artifact, error and status are told by the first or last steps that took effect, and so is which step is accepted next |
| BackupHistory.AcceptedByTimes | models/backup.go:405-562 | a step is accepted exactly by which of the upload, verification and prune times are set |
| BackupHistory.RetryEndsVerified | models/backup.go:405-502 | from every reachable row not yet uploaded, failed or not, claim, upload and verify take effect and end verified |
| BackupHistory.RowsPlay | models/backup.go:405-562 | a row of any run is what the steps tried on it tell |
| BackupHistory.RefusedExactly | models/backup.go:193-206 | a new backup is refused exactly if its identifier is taken or two of its policy would share a slot |
| BackupHistory.NewIsGiven | models/backup.go:156-211 | a new backup is as given, with no time, size, digest or error |
| BackupRuns.SnapshotExists | models/backup.go:333-349 | the listing of verified, unpinned backups by falling scheduled time always has an answer |
| BackupRuns.SelectedHasNewer | models/backup.go:396-402 | whatever a pass selects is superseded by a verified backup of the policy scheduled strictly later |
| BackupRuns.OperationKeepsRow | models/backup.go:405-562 | every accepted step keeps the correspondence of status and time stamps and rewrites nothing fixed before |
| BackupRuns.UploadNeverRejectsRunning | models/backup.go:447-479 | in reachable rows the empty-artifact guard never rejects a running backup |
| BackupRuns.InvAlways | models/backup.go:405-562 | over every run: slots unique, rows coherent, every planned or pruned backup superseded |
| BackupRuns.WrittenOnce | models/backup.go:405-562 | over every run artifact, size, digest and time stamps are written once, nothing returns to running after upload, pruned is final |
| BackupRuns.WasVerified | models/backup.go:542-562 | what is verified or pruned was verified at some earlier or present moment |
| BackupRuns.NewestVerifiedIsNeverPruned | models/backup.go:333-349 | with stale snapshots, changing policies and pinned backups, the latest-scheduled backup ever verified in a policy is still verified |
| BackupRuns.RecoveryPointRemains | models/backup.go:542-562 | a policy that ever had a verified backup has one at every later moment |
| RestorePins.PinProtects | models/backup.go:333-349 | a pinned verified backup that no running pass had selected stays verified while pinned |
| RestorePins.PinProtectsExactly | models/backup.go:542-562 | a pin protects in every continuation exactly if no running pass has the backup on its list; passes may end at any point |
| RestorePins.PinnedBackupCanBePruned | models/backup.go:542-562 | a whole run from the empty table in which a backup is pinned while verified and then pruned by an older pass |
| DnsBindings.BindingTable.Create | models/environment_dns_binding.go:243-275 | inserts at generation 1 unless the domain has an active binding |
| DnsBindings.BindingTable.ReconciliationScope | models/environment_dns_binding.go:132-149 | a worker reads generation, zone, adoption time and deployment request of an unarchived binding whose zone is reachable, and nothing otherwise |
| DnsBindings.BindingTable.ArchiveGeneration | models/environment_dns_binding.go:151-158 | archives only under the current generation |
| DnsBindings.BindingTable.MarkApplied | models/environment_dns_binding.go:160-172 | records the current generation as applied, only under it |
| DnsBindings.BindingTable.MarkDeploymentDispatched | models/environment_dns_binding.go:174-182 | marks an undispatched request dispatched under the current generation |
| DnsBindings.BindingTable.MarkReconciling | models/environment_dns_binding.go:184-196 | takes up pending, failed, conflicting or reconciling work under the current generation |
| DnsBindings.BindingTable.MarkState | models/environment_dns_binding.go:198-216 | sets any state and message under the current generation |
| DnsBindings.BindingTable.Reconfigure | models/environment_dns_binding.go:334-356 | new zone, next generation, adoption and application times cleared; refused while reconciling or archived |
| DnsBindings.BindingTable.MarkRemoving | models/environment_dns_binding.go:358-379 | next generation in state removing; refused while reconciling or archived |
| DnsBindings.BindingTable.ConfirmAdoption | models/environment_dns_binding.go:381-396 | next generation with an adoption time |
| DnsBindings.BindingTable.PrepareDeployment | models/environment_dns_binding.go:398-417 | replaces the deployment request without a new generation |
| DnsBindings.BindingTable.Retry | models/environment_dns_binding.go:419-433 | next generation, pending |
| DnsBindings.BindingTable.Refresh | models/environment_dns_binding.go:435-451 | next generation, pending, application time cleared; refused while reconciling |
| DnsBindings.BindingTable.RetryRemoval | models/environment_dns_binding.go:453-467 | next generation, removing |
| BindingHistory.HistoryTells | models/environment_dns_binding.go:132-467 | whatever users and workers try on a new binding: zone, generations, adoption, application, archive and dispatch times, request, error and state are told by the last steps that took effect |
| BindingHistory.AcceptedByHistory | models/environment_dns_binding.go:132-467 | so is which step is accepted: requests unless archived, those that disturb a worker only when none is busy, deployments unless it went wrong; reports under the current generation, and taking up only where there is work |
| BindingHistory.TakenUpExactly | models/environment_dns_binding.go:184-196 | right after a request that opens a generation a worker may take it up exactly if it is not a removal |
| BindingHistory.RemovingWasAsked | models/environment_dns_binding.go:358-467 | a binding is being removed only if the request that opened its generation asked for it, or a report said so |
| BindingHistory.RowsPlay | models/environment_dns_binding.go:132-467 | a row of any run is what the steps tried on it tell |
| BindingHistory.RefusedExactly | models/environment_dns_binding.go:243-275 | a new binding is refused exactly if its identifier is taken or its domain would have two active ones |
| BindingHistory.NewIsGiven | models/environment_dns_binding.go:243-275 | a new binding is pending at generation 1 with the domain, zone and request given |
| BindingRuns.InvAlways | models/environment_dns_binding.go:132-216 | in every run 0 <= applied <= generation, one active binding per domain, and a scope agrees with its row while its generation stands |
| BindingRuns.GenerationFixesTarget | models/environment_dns_binding.go:334-467 | both generations only grow; moments of equal generation have equal zone and adoption time |
| BindingRuns.OnlyDeploymentRequestsBetween | models/environment_dns_binding.go:398-417 | between moments of equal generation the only requests that took effect are deployment requests |
| BindingRuns.AppliedReportIsCurrent | models/environment_dns_binding.go:160-172 | a report that takes effect rests on the current zone and adoption time, whatever other workers and users did since the read |
| BindingRuns.StaleReportChangesNothing | models/environment_dns_binding.go:151-216 | a scope is never ahead of its row, and a report under an older generation leaves the whole state as it was |
| BindingRuns.ArchiveIsFinal | models/environment_dns_binding.go:151-158 | after an archive no request takes effect; generation, zone and adoption time stay |
| BindingRuns.AppliedMeansCurrentExactly | models/environment_dns_binding.go:198-216 | a step breaks "applied implies applied generation is current" exactly if it is a `MarkState` claiming applied ahead of `MarkApplied` |
| BindingRuns.MarkStateCanClaimApplied | models/environment_dns_binding.go:198-216 | on a new binding `MarkState` with "applied" does break it |
| BindingRuns.AppliedAlwaysCurrent | models/environment_dns_binding.go:198-216 | in every run where `MarkState` is never given "applied", state applied implies the current generation was applied |
| BindingRuns.AppliedWasReadCurrent | models/environment_dns_binding.go:132-172 | in such runs an applied binding was reported by a worker that had read the zone and adoption time it has now, and only deployment requests came since |
| BindingRuns.DnsReadyByState | models/environment.go:248-255 | in such runs the two-part readiness test is decided by the state alone |
| BindingRuns.ReadyExactly | models/environment.go:248-255 | ready means that every unarchived binding of a primary domain is applied at its own generation |
| BindingRuns.RequestWithinGeneration | models/environment_dns_binding.go:398-417 | within a generation the deployment request is the one read unless a `PrepareDeployment` took effect, and then the last of those |
| BindingRuns.DispatchedRequestIsTheOneRead | models/environment_dns_binding.go:174-182 | the request marked dispatched is the one the worker read exactly if no different request was the last to overtake it |
| BindingRuns.OvertakenRequestIsMarkedDispatched | queue/dns.go:48-87 | a whole run from the empty table in which a worker applies a binding, reads it again to dispatch, and an overtaking request is marked dispatched unread |
| DnsRecords.RecordTable.Upsert | models/environment_dns_record.go:112-158 | refreshes and revives the row that has the key or inserts one; blank columns are rejected; keys stay unique |
| DnsRecords.RecordTable.ArchiveMissing | models/environment_dns_record.go:160-175 | archives exactly the binding's active rows not listed; an empty list archives all |
| DnsRecords.UpsertAllFacts | models/environment_dns_record.go:112-158 | upserting a list refreshes old rows with the last payload per key and adds one row per new key |
| DnsRecords.SyncIsExact | models/environment_dns_record.go:112-175 | after a sync exactly the remote keys are active, once each, with the last payload; rows keep identifier, key and creation time; other bindings are untouched |
| DnsRecords.SyncWrites | models/environment_dns_record.go:112-175 | every row after a sync: the last report with its key, trimmed, and the time; or archived now; or untouched |
| DnsRecords.ValidExactly | models/environment_dns_record.go:112-128 | a report is taken exactly if none of its three texts is blank |
| DnsRecords.KeysAreTrimmed | models/environment_dns_record.go:112-128 | stored keys are trimmed and not blank |
| DnsRecords.SecondSyncChangesNothing | models/environment_dns_record.go:112-175 | a second identical sync changes only update times |
| DnsZones.ZoneTable.Upsert | models/dns_zone.go:93-152 | refused exactly if a column is blank or another zone of the connection has the name; otherwise refreshes or inserts; both keys stay unique |
| DnsZones.ZoneTable.ArchiveMissing | models/dns_zone.go:173-191 | archives exactly the connection's active zones not listed |
| DnsZones.UpsertKeepsKeys | models/dns_zone.go:93-152 | an upsert keeps both uniqueness keys and every row's identity and creation time |
| DnsZones.AcceptsExactly | models/dns_zone.go:118-136 | an upsert is refused exactly if a column is empty or writing it would give two zones of a connection one name |
| DnsZones.ZoneKeysAlwaysUnique | models/dns_zone.go:93-191 | so does every run of accepted or refused upserts and archives |
| DnsZones.ExchangedNamesAreRefused | models/dns_zone.go:118-136 | zones that exchange names remotely are both refused |
| DnsZones.ExchangeIsNeverStored | models/dns_zone.go:93-191 | over every run of syncs that report the exchange, with any other zones of any connection, and of archives, the stored names stay and both upserts stay refused |
| ZoneSyncs.UpsertAllFacts | models/dns_zone.go:93-152 | accepted upserts of a list write each listed zone from its last report and leave all other rows alone |
| ZoneSyncs.SyncIsExact | services/dns_connections.go:315-332 | when no upsert is refused, exactly the listed zones of the connection are active, once each, with the name and status last reported; rows keep identity and creation time |
| ZoneSyncs.AcceptedExactly | models/dns_zone.go:118-136 | the next upsert of a sync is accepted exactly if no zone reported before has its name and every other stored holder of the name was reported before |
| ZoneSyncs.SyncAcceptedExactly | services/dns_connections.go:315-332 | no upsert of a full sync is refused exactly if that holds for each zone in turn |
| Paths.ContextPathAccepted | models/buildpack_configuration.go:64-77 | accepted exactly if relative and no prefix has more ".." than real segments, which is exactly when walking it never leaves the start; what is stored leads to the same place |
| Paths.StaysBelowIffNeverNegative | models/buildpack_configuration.go:64-77 | never leaving any base directory is the same as no negative prefix |
| Paths.CleanPreservesLocation | models/buildpack_configuration.go:64-77 | the cleaned path denotes the location of the original from every base |
| Paths.CleanedSegments | models/buildpack_configuration.go:64-77 | the segments of the cleaned path are the segment stack, or "." |
| Paths.CleanTwice | models/buildpack_configuration.go:64-77 | cleaning is idempotent |
| Paths.StoredIsLocation | models/buildpack_configuration.go:64-77 | what is stored spells the real segments it leads through from its start, or is "." |
| Paths.StoredAlikeExactly | models/buildpack_configuration.go:64-77 | two accepted values are stored alike exactly if they lead to the same place |
| Paths.StoredSegmentsAreReal | models/buildpack_configuration.go:64-77 | every segment of a stored path other than "." is real |
| Paths.DirectoryIsContextPath | models/buildpack_settings.go:95-104 | the frontend directory is normalised by the same rule |
| Paths.NormalizingAgain | models/buildpack_configuration.go:64-77 | a stored path normalises to itself exactly if it has no outer white space |
| Paths.SpacedPathIsNotStable | models/buildpack_configuration.go:64-77 | the family of names with leading white space whose stored form is not stable |
| Paths.StoredTrimmedExactly | models/buildpack_configuration.go:64-77 | in terms of the input: the stored path has no outer white space exactly if no segment is left, or the first left does not start and the last does not end with it |
| Paths.TrimmedSegmentsStayStable | models/buildpack_configuration.go:64-77 | without white space at segment ends the stored path is stable |
| Buildpacks.CollectScripts | models/buildpack_settings.go:106-129 | trimmed non-blank scripts, else the legacy script, then the server-side-rendering script, else "build" |
| Buildpacks.CheckScripts | models/buildpack_settings.go:130-134 | accepts exactly the lists whose every script matches the pattern |
| Buildpacks.NormalizeFrontendSettings | models/buildpack_settings.go:84-147 | absent stays absent; otherwise the folded frontend or the first failing check |
| Buildpacks.FrontendScripts | models/buildpack_settings.go:106-140 | what an accepted frontend builds: the listed scripts trimmed and in order, else the script of the oldest schema, else "build"; one more for server-side rendering, which keeps the Node runtime |
| Buildpacks.FrontendAcceptedExactly | models/buildpack_settings.go:84-147 | a frontend is accepted exactly if it runs on node, its directory is relative and never leaves, and every script that is not blank and would be used is a script name |
| Buildpacks.AdvancedAcceptedExactly | models/buildpack_settings.go:194-221 | advanced settings are accepted exactly if their trimmed values are all empty or canonical, and are those values |
| Buildpacks.AcceptedExactly | models/buildpack_settings.go:149-192 | settings are accepted exactly if the schema is 2 to 5, the runtime is known up to case and white space (schema 2 may leave it out) and the parts are accepted; the result has schema 5 |
| Buildpacks.FirstFault | models/buildpack_settings.go:84-221 | of several faults the first is reported, in the order schema, runtime, frontend, advanced settings |
| Patterns.ScriptIsPattern | models/buildpack_settings.go:32 | script names are the strings the regular expression matches |
| Patterns.VersionIsPattern | models/buildpack_settings.go:33 | versions are the strings the regular expression matches |
| Buildpacks.CanonicalExactly | models/buildpack_settings.go:253-259 | settings survive printing and reading exactly if they are canonical |
| Buildpacks.ParsedFrontend | models/buildpack_settings.go:84-147 | a parsed frontend has valid non-empty scripts and is canonical exactly if its directory is trimmed |
| Buildpacks.ParsedAdvanced | models/buildpack_settings.go:194-221 | parsed advanced settings are trimmed, matched, bounded and not all empty |
| Buildpacks.CanonicalisationIsStable | models/buildpack_settings.go:149-259 | whatever parses from schema 2, 3, 4 or 5 reads back from its canonical form as the same settings exactly if the directory has no outer white space |
| Buildpacks.StableExactlyOnInput | models/buildpack_settings.go:149-259 | the same as a condition on the raw directory: on the first and last of the segments that cleaning leaves |
| Buildpacks.TrimmedDirectoriesAreStable | models/buildpack_settings.go:149-259 | in particular if no directory segment has white space at its ends |
| Buildpacks.DirectoryStaysInside | models/buildpack_settings.go:95-104 | the accepted directory leads where the original led and stays inside the build context |
| PackEnvironments.PackEnvironment | models/buildpack_settings.go:227-251 | the whole emitted environment, empty advanced values left out |
| PackEnvironments.ScriptsRoundTrip | models/buildpack_settings.go:227-251 | splitting the emitted scripts value at commas gives the scripts back |
| PackEnvironments.ReadBack | models/buildpack_settings.go:227-251 | frontend and advanced settings can be read back from the variables |
| PackEnvironments.BuildSees | models/buildpack_settings.go:227-251 | read by their names, the three frontend variables give scripts, directory and node-runtime flag, and are absent without a frontend |
| PackEnvironments.BuildSeesVersions | models/buildpack_settings.go:227-251 | read by their names, the three advanced variables give Go version, Go flags and Node version, and are absent when empty |
| PackEnvironments.AssignmentInjective | models/buildpack_settings.go:227-251 | an assignment determines its name and value |
| PackEnvironments.EnvironmentDetermines | models/buildpack_settings.go:227-251 | canonical settings with equal environments have equal frontend and advanced settings |
| Builds.BuildTable.MarkRunning | models/build.go:89-109 | starts a pending or running build, keeping the first start time |
| Builds.BuildTable.MarkProgress | models/build.go:111-137 | records a non-blank step of a running build |
| Builds.BuildTable.MarkSucceeded | models/build.go:139-170 | a running build succeeds with an immutable reference and a 32-byte digest |
| Builds.BuildTable.MarkFailed | models/build.go:172-195 | fails a pending or running build |
| Builds.BuildTable.MarkCancelled | models/build.go:197-221 | cancels a pending or running build |
| Builds.BuildTable.ResetForRetry | models/build.go:223-250 | a failed or cancelled build is as new |
| BuildHistory.HistoryTells | models/build.go:89-250 | whatever is tried on a new build: every column, the status and which step is accepted next are told by the steps of the current attempt that took effect |
| BuildHistory.RowsPlay | models/build.go:89-250 | a row of any run is what the steps tried on it tell |
| Builds.CoherentAlways | models/build.go:89-250 | in every run artifact and digest are set exactly on succeeded builds, the finish time exactly on finished ones; succeeded is final |
| Builds.OneFinishBetweenResets | models/build.go:139-221 | without a reset, the number of finishing steps that took effect is one if the build is finished and none otherwise |
| Builds.PendingAgain | models/build.go:223-250 | a build is pending again only through a reset that took effect |
| Builds.RunningAgain | models/build.go:89-109 | a build is running again only through a `MarkRunning` that took effect on a pending row |
| Builds.SuccessAfterCancelNeedsReset | models/build.go:139-250 | a cancelled or failed build succeeds only after a reset, then a start, then a success, in that order |
| Deployments.DeploymentTable.Create | models/deployment.go:310-341 | inserts a deployment with status, step and times as given |
| Deployments.DeploymentTable.SetCurrentStep | models/deployment.go:91-107 | records the step of a running deployment |
| Deployments.DeploymentTable.MarkSucceeded | models/deployment.go:109-117 | only a running deployment succeeds |
| Deployments.DeploymentTable.RemainingForChange | models/deployment.go:119-124 | counts the deployments not succeeded; zero exactly if all of the change succeeded |
| Deployments.DeploymentTable.MarkRunning | models/deployment.go:204-223 | starts a queued or running deployment |
| Deployments.DeploymentTable.MarkFailed | models/deployment.go:225-247 | fails a deployment that has not ended |
| Deployments.DeploymentTable.MarkCancelling | models/deployment.go:249-270 | starts the rollback of a deployment that has not ended |
| Deployments.DeploymentTable.MarkCancelled | models/deployment.go:272-294 | ends a rollback |
| DeploymentHistory.HistoryTells | models/deployment.go:91-294 | whatever is tried on a queued deployment: every column, the status and which step is accepted next are told by the steps that took effect |
| DeploymentHistory.RowsPlay | models/deployment.go:91-294 | a row of any run is what the steps tried on it tell |
| Deployments.DeploymentsOnlyMoveForward | models/deployment.go:91-294 | in every run ended deployments never change and cancelling ones never run or succeed again |
| Deployments.FinishedExactlyWhenEnded | models/deployment.go:109-294 | from an empty table the finish time is set exactly on ended deployments, if it is on those inserted |
| Deployments.DoomedChangeNeverCompletes | models/deployment.go:119-124 | a change with a cancelling, cancelled or failed deployment never has none remaining, even if deployments are added |
| Deployments.RemainingShrinks | models/deployment.go:119-124 | while none is added, the remaining deployments only become fewer |
| Changes.ChangeTable.MarkRunning | models/change.go:398-414 | runs a change, keeping the first start time |
| Changes.ChangeTable.MarkCompleted | models/change.go:416-431 | completes a change |
| Changes.ChangeTable.MarkFailed | models/change.go:433-449 | fails a change |
| Changes.ChangeTable.MarkCancelling | models/change.go:451-466 | starts cancelling a committed, running or cancelling change |
| Changes.ChangeTable.MarkCancelled | models/change.go:468-485 | cancels a cancelling change |
| Changes.ChangeTable.MarkBuildCancelled | models/change.go:487-502 | a setup change goes back to committed, any other is cancelled |
| Changes.ChangeTable.ResetBuildForRetry | models/change.go:504-514 | any change goes back to committed |
| ChangeHistory.HistoryTells | models/change.go:398-514 | whatever is tried on a committed change: every column, the status and which step is accepted next are told by the steps that took effect |
| ChangeHistory.SetupByHistory | models/environment.go:159-182 | a change counts as setup exactly if it is a committed setup change of the environment and the last word on cancelling it is not that it was cancelled |
| Changes.SetupSurvivesBuilds | models/environment.go:159-182 | no sequence of build runs, failures, cancellations and retries undoes a complete setup |
| Changes.BuildStepKeepsSetup | models/change.go:398-449 | no such step clears the commit time or sets a cancel time on a setup change |
| Changes.SetupLostExactly | models/change.go:468-485 | of all accepted steps only `MarkCancelled` takes a setup change out of the count |
| Changes.SetupStepExactly | models/environment.go:159-182 | a step undoes a complete setup exactly if it cancels the only change that counts |
| Changes.CancelledSetupReturnsOnRetry | models/change.go:504-514 | cancelling a committed setup change undoes the setup and a retry restores it |
| Domains.DomainTable.EnsureUnique | models/environment_domain.go:53-112 | passes exactly if the row is archived, or its hostname is free and it is primary exactly when no other primary is active |
| Domains.DomainTable.Create | models/environment_domain.go:184-211 | normalises the hostname, rejects malformed ones, then inserts a domain that passes the uniqueness check |
| Domains.DomainTable.Update | models/environment_domain.go:222-257 | normalises the hostname, rejects malformed ones, then overwrites a row that passes the uniqueness check |
| Domains.DomainTable.Destroy | models/environment_domain.go:259-266 | removes a row unchecked |
| Domains.DomainTable.Archive | models/environment_domain.go:283-330 | archives an active alias; a primary is refused |
| Domains.CheckedExactly | models/environment_domain.go:53-112 | the check passes exactly if writing the row leaves hostnames distinct, one primary at most, and one there; otherwise it names the first of these that would fail |
| Domains.WriteStores | models/environment_domain.go:184-257 | a write is accepted exactly if its normalised hostname is valid, the check passes and it creates a new row or updates one there is; it stores what it was given and touches no other row |
| Domains.ArchivedExactly | models/environment_domain.go:283-330 | archiving takes effect exactly on an active alias of the environment; its primary is kept and nothing else is found |
| Domains.CaseDoesNotMatter | models/environment_domain.go:32-34 | hostnames that differ in case are stored alike, without capital letters |
| Patterns.HostnameIsPattern | models/environment_domain.go:28-30 | hostnames are the strings the regular expression matches |
| Patterns.HostnameValidExactly | models/environment_domain.go:36-39 | a hostname is valid exactly if, normalised, the expression matches it and it has at most 253 bytes |
| Domains.WrittenIsUnique | models/environment_domain.go:53-112 | an accepted write collides with no other active hostname or primary |
| Domains.RegistryInvariant | models/environment_domain.go:53-330 | after any sequence of writes active hostnames are distinct and each environment has at most one primary |
| Domains.AliasesKeepPrimaryExactly | models/environment_domain.go:222-266 | a write leaves an alias without a primary exactly if it takes away, by update or destroy, the primary of an environment with other active domains |
| Domains.AliasesAlwaysHavePrimary | models/environment_domain.go:184-330 | under `Create` and `Archive` alone an environment with an active domain has an active primary |
| Domains.ArchivingUpdateOrphansAliases | models/environment_domain.go:58-60 | for any valid name and any alias, an archiving update that orphans the alias |
| Domains.WordsAreValid | models/environment_domain.go:28-39 | two lower-case words with a dot between them are a valid, normalised hostname |
| Domains.NormalizedExactly | models/environment_domain.go:32-34 | normalising again changes nothing exactly if the input, trimmed and freed of one dot, does not end in a dot or white space |
| Domains.NamesDistinctExactly | models/environment_domain.go:41-112 | from names distinct after normalising, a step of any kind keeps them so exactly if it does not write an active domain whose name is in use by another once normalised |
| Domains.ClashesExactly | models/environment_domain.go:41-112 | while stored names are normalised, a step is such a write exactly if it is accepted, its hostname ends open and its final name is the hostname of another active domain |
| Domains.DistinctThroughoutExactly | models/environment_domain.go:53-330 | over every run names are distinct at every moment exactly if no step is such a write |
| Domains.NamesAlwaysDistinct | models/environment_domain.go:41-112 | in particular if no written hostname ends open |
| Domains.DottedNameIsAcceptedTwice | models/environment_domain.go:36-47 | in any registry with an active valid name, the name with two dots is accepted as a second active domain |
| AppendLog.LogTable.NextSequence | models/build_log.go:85-94 | one more than the greatest sequence of the owner, from 1 |
| AppendLog.LogTable.Create | models/build_log.go:60-83 | appends an entry with a positive sequence, a known stream and a non-blank message of at most 65536 bytes |
| AppendLog.LogTable.Append | models/build_log.go:60-94 | numbering and inserting together keep every log numbered 1..n; invalid messages change nothing |
| AppendLog.ValidExactly | models/build_log.go:32-58 | a message is taken exactly if its stream is known, it is not blank and it has at most 65536 bytes |
| AppendLog.MaxIsCount | models/deployment_event.go:33-43 | in a numbered log the greatest sequence is the number of entries |
| AppendLog.PageIsStretch | models/build_log.go:111-128 | a page is the stretch of entries after the cursor, as long as the clamped limit |
| AppendLog.PageSizes | models/build_log.go:111-128 | a limit from 1 to 501 is the page size, below that it is 200 and above that 501 |
| AppendLog.ReadStep | models/deployment_event.go:194-216 | a read keeps what was read a prefix and lowers the unread count by the clamped limit |
| AppendLog.CursorReadingIsExact | models/build_log.go:111-128 | for any interleaving of appends and reads the pages are entries 1..cursor, no gap or repeat |
| AppendLog.ReadingDrains | models/build_log.go:111-128 | once appends stop, reading with any limits gets everything in as many reads as entries were unread |
| PlainText.CollapseNewlines | email/email.go:314-319 | the loop ends with the one-pass clamp of the trimmed text, which has no three newlines in a row and is trimmed |
| PlainText.ReplaceShortens | email/email.go:317-319 | a replacement that finds three newlines shortens the text |
| PlainText.ReplaceKeepsClamp | email/email.go:317-319 | a replacement pass does not change the one-pass clamp |
| PlainText.NothingToClamp | email/email.go:317-319 | the fixpoint of the loop is its own clamp |
| PlainText.RunIsClamped | email/email.go:317-319 | a maximal run of k newlines becomes min(k,2) |
| PlainText.VisibleKept | email/email.go:317-319 | all other characters stay, in order |
| HtmlWalk.ExtractLinkText | email/email.go:250-257 | all text below a link |
| HtmlWalk.ExtractLink | email/email.go:247-279 | the trimmed link text, then its target in parentheses if there is one that differs |
| HtmlWalk.Extract | email/email.go:242-308 | the text of a tree, hidden elements left out, block elements on their own lines |
| HtmlWalk.HTMLToText | email/email.go:233-322 | the result is trimmed, has no three newlines in a row, and shows in order the words of all text outside hidden elements, all text in links and all differing targets; with clean links it is the text of the document without its hidden elements |
| HtmlTree.InkOutput | email/email.go:242-308 | the walk adds to and removes from what it carries only white space |
| HtmlTree.RenderingKeepsInk | email/email.go:233-322 | so do trimming and collapsing after it |
| HtmlWords.RenderingKeepsWords | email/email.go:233-322 | no word is split or lost and no two run together |
| HtmlWords.InlineIsWords | email/email.go:242-308 | where no element breaks the line, the text is the words with one space after each |
| HtmlWords.TagsLayOut | email/email.go:243-308 | which elements are left out, stand on lines of their own or begin a line; all others only hold their children |
| HiddenText.LinkShowsHiddenExactly | email/email.go:247-279 | for every link, any target and any depth: erasing the hidden elements leaves its output exactly if it leaves its trimmed text |
| HiddenText.HiddenInkShowsInLinks | email/email.go:247-279 | hidden elements below a link that are not blank always change its output |
| HiddenText.HiddenTextShowsExactly | email/email.go:242-308 | for every document: each text and link shows what it would without hidden elements exactly if every link reached is clean |
| HiddenText.CleanLinksHideAll | email/email.go:233-322 | with clean links the whole text, layout included, is that of the document without its hidden elements |
| HiddenText.StyleShowsInLink | email/email.go:247-258 | a style element shows its text inside a link and not outside one |
| HiddenText.InkCanAgreeByAccident | email/email.go:247-279 | two links that both show hidden text can together show the same characters as without it |

## Left out

- Calendar arithmetic: period keys are numbers counted from 1 February 2027 in the Gregorian calendar; equal numbers stand for equal key strings. Snapshots in `BackupRuns` carry the keys of their scheduled times; the laws in `RetentionLaws` hold for any keys unless they say otherwise.
- CalendarBound.CalendarBoundIsReached: quotas that do not fit, such as 24 monthly with 200 weekly backups, or more newest backups than a day has microseconds, have the proved bound but no list that reaches it is given: where a month starts on a Monday the last backup before it counts for its week and for its month.
- DnsBindings.BindingTable.ReconciliationScope: which zones have an unarchived connection and credential is a parameter, and columns joined from other tables are left out.
- AppendLog.LogTable.Create: strings are sequences of characters, so bytes that are no valid UTF-8 do not occur; deployment events are stored unvalidated, and what is proved about reading holds for either log.
- Domains.DomainTable.Create: the nil environment does not occur, here and in `Update`.
- DNS zone names are stored in normalised form here.
- Lower-casing of letters whose lower case is not ASCII is left out; no valid hostname or runtime has one.
- Tier maps are Dafny maps passed through the loop body, so aliasing between the three maps is not at issue in the model.
- The query for verified backups is a relation (`BackupRuns.IsSnapshot`) that any answer in falling scheduled order meets; a restore's hold on a backup is an event that pins or releases it at any time.
- `BackupRuns` lets backups be created only as pending and without artifact reference; `Create` itself, in `Backups`, takes any.
- A prune pass also deletes remote artifacts before it marks rows; object storage and Restic are not part of this model.
- `finished_at` of a backup is not claimed to be empty while running: `Claim` does not clear it.
- Uniqueness locks are not modelled: each create or update that checks first is one atomic step.
- Clocks and new row identifiers are parameters; `RecordTable.Upsert` and `ZoneTable.Upsert` require the new identifier to be unused.
- `updated_at` is modelled for DNS records and zones only; error texts are taken as given, without trimming or truncation.
- Field-by-field `Validate` checks are reduced to what the modelled laws need: blank columns of DNS records and zones, artifact and digest of builds, log entries, non-blank progress, hostnames.
- The syncs compared in `DnsRecords` consist of valid remote records; the source stops at the first invalid one.
- `path.Clean` is modelled for paths that do not start with a slash, as the segment stack its documentation describes; absolute ones are rejected before it.
- Regular expressions are given their mathematical meaning in `Patterns`, for the three that are modelled; the engine is left out.
- JSON decoding and printing: `Parse` starts from the decoded record, and `Printed` is the record that decoding the printed form gives; malformed JSON is not part of this model.
- `validateAdvancedSettings` edits the decoded struct in place, and nobody else holds it; it is a function here.
- `PackEnvironments.ReadBack`: the runtime is not part of the emitted environment, so only frontend and advanced settings are recovered.
- Generic `Update`, `Upsert` and `Destroy` of builds, deployments and changes, and the system-update methods, overwrite columns without a status guard and belong to no lifecycle.
- `Deployability` is modelled in its DNS clause only; the other clauses are independent queries.
- Numbering and inserting a log entry are one atomic step; a page lists entries in insertion order, which in a numbered log is sequence order.
- HTML parsing: the parsed tree is the input of the walk, with the value of the first `href` of an element.
- Controllers, routing, views, queue plumbing, catalogues, pagination by offset and mail senders.
