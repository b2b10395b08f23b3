# PrintOps ledgers: a Dafny model

PrintOps keeps long-lived records out of unreliable witnesses: copier counters that somebody
clears, a table of codes that can be written but never read back, printers that miss probes,
print jobs whose backend dies half-way, and notification sessions that race each other. This
project models the parts of the API server that turn those witnesses into records, and proves
what the records can be trusted for, over every run.

`dafny verify dfyconfig.toml` checks all of it.

## How it is laid out

Each module follows one source file. Code that changes fields or loops over variables is a
method, on a class where the source updates an object or a table; its contract ties the new
state to a specification function, and the theorems are about that function. Where a property
is about whole runs, the module has a `World`, the `Step`s that can happen to it (those of the
code beside those of the surroundings), what makes a step possible, and an invariant that every
step keeps; the main results quantify over every sequence of possible steps.

| Module | Subject |
|---|---|
| `AccountCounters`, `AccountMetering`, `Ledger` | per-account lifetime counters turned into usage, stored run-length encoded, and charged to whoever held the account |
| `KonicaBizhub`, `SyncJobs`, `KonicaAdmin`, `Provisioning`, `OrgUnits` | who gets an account on a copier, under which number, and the ledger that mirrors the device |
| `DeviceOwner`, `CounterHistory` | a whole device's copies given to one owner; a meter differenced by day |
| `Conditions`, `Sessions`, `SettleWindow`, `Delivery` | one event per active condition, under any interleaving of sessions; a retrying outbox |
| `JobReconcile` | stuck print jobs settled from cupsd's own record (job states of section 5.3.7 of RFC 8011) |
| `RateLimit`, `NetworkHealth` | pruned logs that answer as if nothing had been forgotten |
| `MediaOptions` | a quote- and escape-aware splitter, and the filter between it and its join |
| `Folds` | caches and aliases built from records that may contradict each other |
| `Prelude`, `Query` | null, `str.strip`, and `ORDER BY ... LIMIT` |

## What is assumed of the surroundings

- Counters and meters only climb, except for a clear (which zeroes all counters of one account,
  unannounced) or a swap of the whole device. A counter type missing from a reading stands for
  zero. Account numbers are distinct within one snapshot. Polls and readings come at strictly
  increasing times. An account that PrintOps provisioned starts at zero.
- One result, `AccountMetering.UsageConservesCopies`, is about copiers whose counters add up: each
  page copied moves one page counter, and the copier's own total, if it keeps one, is their sum.
  The results about single counters do not need this.
- The results on all owners together, on periods and on the watermark (`DeviceOwner`) are about a
  copier that stays linked to one printer, and the first of them about swaps that do not raise the
  meter. What a move and a raising swap do is stated apart.
- A copier refuses a code that another account already has, refuses to add over an account that
  exists, and may refuse any write for reasons of its own; a refused write changes nothing. Nobody
  edits the accounts the ledger tracks at the panel; any other account may change between runs. An
  error other than a refusal may end a run anywhere.
- A new attempt at a CUPS job is made only while cupsd still has the job in flight, and rows are
  created at increasing times. cupsd does not reuse a job id and does not change its mind about a
  job that is finished; it may refuse to answer, or have dropped its record.
- Clocks do not go back within a run. Primary keys are never reused. Sessions read committed rows
  and their own; a statement that would write a row another session has written and not committed
  waits for it.

## Where the code falls short of a promise

Each of these is stated as a theorem about the code as it is, with the exact condition under
which the promise holds.

- **Overlapping guesses exceed the limit.** The kiosk checks the limiter, awaits a query, and only
  then records the failure (apps/api/app/routers/release.py:56-61), so guesses can pass their checks
  together. With at most k in flight, no window holds more than max_failures - 1 + k failures
  (`RateLimit.NoWindowHoldsMore`), and for every k some run reaches that
  (`RateLimit.OverlappingGuessesReachTheBound`): the limit itself is kept by every run if and only if
  guesses never overlap (`RateLimit.LimitKeptExactlyWithoutOverlap`).
- **The settle window can be jumped.** `observe` reads a state row and later claims it by its
  dedupe key, not by the row's id. Between the two, the condition may be cleared and observed
  anew; the claim then marks the new row, at an age of zero. What normally prevents it is that
  the session's own `last_seen_at` is flushed first, by primary key, and holds the row until
  commit; nothing is flushed when the value would not change. That takes another session of the
  same instant that saw the row and did not find it due, so it takes two settle windows at one
  instant: the setting was changed between them. `SettleWindow.EarlyEventAfterRecurrence` is such a
  run. While the settings stand and the window is positive, every event that is not immediate keeps
  to it (`SettleWindow.SettledWhileSettingsStand`); in general an event keeps to it if and only if its
  claim marked the row its session had read (`Sessions.SettledExactlyWhenSameRow`).
- **A backlog can starve a finished job.** A sweep takes the oldest rows again each time, so rows it
  leaves as they are (in flight, or unanswered) stay at its head. In any run, whatever each sweep is
  answered, a row is closed by the first sweep that finds it stuck and fewer older rows open than it takes, and is
  told to close it, or by a report, and by nothing else (`JobReconcile.OpenExactlyWhenNeverClosed`);
  what it has to be told is spelled out by `JobReconcile.SweptClosesExactlyWhen`.
  Over sweeps that agree on which rows ahead they leave as they are, a row that is ready to close is
  closed, however many there are, if and only if those are fewer than one sweep takes
  (`JobReconcile.ClosedExactlyWhenNotBlocked`).
- **A clear can hide.** Counters that were cleared and have since climbed past their old values
  are not seen to have been cleared. `AccountMetering.ClearCanHide` is such a run: of eight pages two
  are recorded. Pages are lost from the record, never invented
  (`AccountMetering.PagesAreAccountedFor`), and the record of a counter is full if and only if no clear
  wiped pages that no poll had seen and no poll took cleared counters for uncleared ones
  (`AccountMetering.RecordIsFullExactlyWhenNothingLost`).
- **A scope with nothing in common admits everyone.** `device_provisioning_scope` is documented
  to return an empty list for "nobody", but `org_unit_included` takes an empty include list for
  "no filter". `OrgUnits.UntrackedBuildingAdmitsEveryone` is the example;
  `OrgUnits.ScopeWidensExactlyWhenEmpty` says that a device's scope admits somebody the
  organisation's rejects exactly when the two lists intersect in nothing.
- **A broken rewrite breaks the mirror, a broken addition strands people.** An error that ends a run
  loses the list of what was written. After a rewrite the ledger is still faithful if and only if
  every tracked account it had got to was given the code it had
  (`SyncJobs.BrokenRewriteMirrorsExactlyWhen`). After an additive run it is faithful, but those who had
  been added are on the device and in no live row (`SyncJobs.StrandedAreOnTheDevice`), and are refused
  by every later additive run, because the copier holds their code (`SyncJobs.StrandedAreRefused`).
- **A swap to a higher meter is billed.** `attribute_device_copies` re-baselines a meter that went
  down, but cannot tell one that was swapped for a higher one: `DeviceOwner.RaisingSwapIsBilled`.
  `DeviceOwner.OverstatedExactlyWhenRaised` gives each row's pages as the copies really made plus the
  net shift of the meter, so it is too high exactly when the shift is upwards.
- **A moved copier's periods overlap.** Linking a copier to another printer does not restart the
  watermark, and the next row begins at that printer's last reading before it, so two rows can cover
  the same time, from the readings of two printers: `DeviceOwner.MovedCopierOverlaps`. A new row
  overlaps a given earlier one, of whatever owner, if and only if the printer now linked was read
  after that one began and before it ended, but not between its end and the watermark
  (`DeviceOwner.OverlapExactlyWhen`); the watermark itself goes back only at the first run of a newly
  named owner, to a printer last read before it (`DeviceOwner.WatermarkMovesBackExactlyWhen`).
- **A range cut within a day counts it twice.** `CounterHistory.NoonDoesNotSplit` is the example; by
  `CounterHistory.SplitsExactlyBetweenDays` a cut changes nothing if and only if no day has readings
  on both sides of it.
- **The floor of a range is not always kept.** When a range begins before its floor, a reading in
  the range but before the floor can be the first day's baseline; `CounterHistory.FloorIsKeptExactlyWhen`
  says when, and `CounterHistory.FloorCanBeMissed` is an input. The one caller begins its range no
  earlier than the floor, which is when tracking was switched on, and so is safe:
  `CounterHistory.ReportKeepsItsFloor`.
- **The order of the directory matters for jobs already logged.** Aliases do not depend on it, but the
  renaming of logged jobs does, exactly when a changed alias resolves to an address that is itself a
  changed alias of somebody else: `Folds.RefreshIgnoresOrderExactlyWhen`.
- **Page counters can bill more than the copier's total.** Where a poll's difference lists no total the
  page counters are billed instead. On any copier the copies billed are what its total moved if and
  only if every poll that lists no total bills nothing, and more otherwise:
  `AccountMetering.BilledIsTheTotalExactlyWhen`.

## Model

| member | source | states |
|---|---|---|
| `AccountMetering.DeltasConservePages` | apps/api/app/copiers/account_counters.py:89-122 | over every run of printing, hidden clears and polls, no counter is recorded as having moved further than pages were really made, and exactly as far as the last poll when nothing was cleared |
| `AccountMetering.PagesAreAccountedFor` | apps/api/app/copiers/account_counters.py:332-390 | in every run, of each counter: the pages made are those recorded, those lost to clears, those wiped since the last poll and those still on the meter, none of them negative |
| `AccountMetering.RecordIsFullExactlyWhenNothingLost` | apps/api/app/copiers/account_counters.py:89-122 | counted from its origin on, a counter is recorded in full up to what is still on the meter if and only if no step lost pages of it: no clear of unseen pages, no poll that took a cleared account for an uncleared one |
| `AccountMetering.MissingExactlyWhenLost` | apps/api/app/copiers/account_counters.py:89-122 | from any reachable state on, what is missing of a counter never shrinks, and grows exactly if some step loses pages of it |
| `AccountMetering.PollIsExact` | apps/api/app/copiers/account_counters.py:332-390 | what one poll records of a counter, plus what was wiped unseen, plus what it subtracts in error, is what was made since the poll before |
| `AccountMetering.ClearCanHide` | apps/api/app/copiers/account_counters.py:89-122 | a run of poll, copy, clear, copy, poll in which two of eight pages are recorded and nothing is flagged |
| `AccountMetering.UsageConservesCopies` | apps/api/app/copiers/account_counters.py:194-299 | on a copier whose counters add up, the copies on all usage rows of an account never exceed the pages really copied, and equal those up to the last poll when nothing was cleared |
| `AccountMetering.BilledIsTheTotalExactlyWhen` | apps/api/app/copiers/account_counters.py:79-86 | over every run of any copier, the copies billed are at least what its own total was recorded to have moved, and exactly that if and only if every poll bills by the total or bills nothing; then they never exceed what the total really moved |
| `AccountMetering.ScansAndFaxesAreBilledAsRecorded` | apps/api/app/copiers/account_counters.py:246-255 | over every run of any copier, the scans billed are exactly what the counter of documents read was recorded to have moved, and the faxes what that of faxes sent was; neither exceeds what was really made, and both equal it when nothing was cleared |
| `AccountMetering.PollBillsSinceTheLast` | apps/api/app/copiers/account_counters.py:258-299 | in every reachable state the rows of a poll cover the time since the poll before, or since provisioning on a first reading, and go to whoever the ledger names |
| `AccountMetering.PolledIsNotNegative` | apps/api/app/copiers/account_counters.py:89-122 | no poll of a real meter records any counter as having gone down |
| `AccountMetering.SplitAddsUp` | apps/api/app/copiers/account_counters.py:194-247 | where a copier counts each page as colour or black and sends no total, the colour and mono parts of a copy row add up to its pages |
| `AccountMetering.PollCountsFreshPages` | apps/api/app/copiers/account_counters.py:332-390 | one poll adds no more than what was made since the poll before, and exactly that if nothing was cleared in between |
| `AccountMetering.ResetFlagMeansClear` | apps/api/app/copiers/account_counters.py:356-381 | in any reachable state the row a poll adds is flagged exactly when some counter it reports is lower than at the poll before, and a flagged row follows a real clear; a first reading never is |
| `AccountMetering.EncodingLosesNothing` | apps/api/app/copiers/account_counters.py:314-390 | for every past poll that reported the account exactly one stored row spans it, that row holds what was reported, and one row is live |
| `AccountMetering.UsagePeriodsNeverOverlap` | apps/api/app/copiers/account_counters.py:367-390 | no two usage rows of one activity cover the same time, the baseline row included |
| `AccountCounters.DiffCounters` | apps/api/app/copiers/account_counters.py:89-122 | the loop meets an independent description of a delta: flagged exactly when some counter went backwards, every counter that moved and no other, by how far it moved |
| `AccountCounters.DifferenceIsUnique` | apps/api/app/copiers/account_counters.py:89-122 | that description leaves no choice: two deltas that meet it are equal |
| `AccountCounters.SumPages` | apps/api/app/copiers/account_counters.py:75-86 | the pages of an activity: the device's own total if it sends one, otherwise the sum over page counters in any order |
| `AccountCounters.MakeUsageRows` | apps/api/app/copiers/account_counters.py:194-255 | one row for each walk-up activity that moved, for the account's holder, with the colour and mono parts of copies where they are not zero, and no row of zero pages |
| `AccountCounters.RowExactlyWhenMoved` | apps/api/app/copiers/account_counters.py:194-255 | for every difference, there is a row of an activity if and only if its own counter moved (the total of the copies, the documents read, the faxes sent), with exactly those pages, the three colour counters and the black one apart, and the holder's address |
| `AccountCounters.CountsPagesExactlyWhen` | apps/api/app/copiers/account_counters.py:47-56 | which counters are pages: all but the total, five tallies of other things, and those of large sheets |
| `AccountCounters.PrintsAreNeverBilled` | apps/api/app/copiers/account_counters.py:194-255 | deltas that agree on copies, scans and faxes give the same rows, whatever their print and total counters say |
| `AccountCounters.CounterStore.Poll` | apps/api/app/copiers/account_counters.py:302-396 | the poll's in-place updates of a table holding all accounts leave each account's readings as its own reports alone dictate, append exactly the usage rows due, and tally them; one row per account stays live |
| `AccountCounters.CounterStore.FirstReading` | apps/api/app/copiers/account_counters.py:258-299 | a first reading is a baseline, and counts as usage only for an account in the ledger that shows any count |
| `AccountCounters.CounterStore.SameReading` | apps/api/app/copiers/account_counters.py:351-354 | unmoved counters change one timestamp and bill nothing |
| `AccountCounters.CounterStore.NewReading` | apps/api/app/copiers/account_counters.py:356-389 | moved counters close the live row and open another, and no other account's readings change |
| `AccountCounters.PollIsPerAccount` | apps/api/app/copiers/account_counters.py:330-390 | the readings and usage rows a poll leaves for an account are those of its own history and report, whoever else was in the snapshot |
| `AccountCounters.NothingForTheUnreported` | apps/api/app/copiers/account_counters.py:330-390 | an account missing from the snapshot keeps its readings and is billed nothing |
| `AccountCounters.TallyAddsUp` | apps/api/app/copiers/account_counters.py:126-142 | every report is counted once, as a baseline, unmoved or changed; the rows counted are the rows written, and of them those from first readings |
| `AccountCounters.TallyCounts` | apps/api/app/copiers/account_counters.py:330-390 | the baselines are the accounts never read before, the changed those whose counters moved, the resets those with a counter that fell, the unmapped the changed ones that nobody in the ledger holds |
| `Ledger.OwnerMap` | apps/api/app/copiers/account_counters.py:165-191 | for every account, the map names the last row in provisioning order that covers the moment, and nobody when none does |
| `Ledger.OwnerIsTheCoveringRow` | apps/api/app/copiers/account_counters.py:165-191 | when stays in one account follow one another, at most one row covers a moment and it is the one named |
| `SyncJobs.SyncLedger.RunSyncJob` | apps/api/app/copiers/sync_jobs.py:51-153 | what a run leaves on the device, in the ledger, on the device's record and in the job: on a rewrite exactly the live rows of rewritten accounts are closed, and each written account opens one row; an error leaves the ledger as it was, whatever was written, and the job with the counts last noted; a deleted copier leaves everything as it was |
| `SyncJobs.LedgerMirrorsDevice` | apps/api/app/copiers/sync_jobs.py:71-142 | after any runs, additive or rewriting, with any writes refused and any additive run broken off anywhere, every live row's account holds that row's code on the device, and live accounts and live codes are each pairwise distinct |
| `SyncJobs.BrokenRewriteMirrorsExactlyWhen` | apps/api/app/copiers/sync_jobs.py:94-102 | a rewrite broken off by an error leaves the mirror faithful if and only if every tracked account it had got to was given the code it had |
| `SyncJobs.StrandedAreOnTheDevice` | apps/api/app/copiers/sync_jobs.py:94-102 | whoever a broken additive run had added is on the device under the number given, and their code is in no live row, so the next plan has them again |
| `SyncJobs.StrandedAreRefused` | apps/api/app/copiers/konica_bizhub.py:318-341 | no additive run adds a person whose code the copier already holds, in whatever account |
| `SyncJobs.OneHolderAtATime` | apps/api/app/copiers/sync_jobs.py:101-142 | in every reachable ledger, broken runs included, an account has at most one holder at any moment, and reading the ledger by date finds that one |
| `SyncJobs.PastAttributionStands` | apps/api/app/copiers/sync_jobs.py:101-142 | no run after a moment changes who the ledger says held an account at that moment |
| `SyncJobs.HolderFromNowOn` | apps/api/app/copiers/sync_jobs.py:101-142 | from a finished run on, an account it wrote is held by the very person and code it wrote there, and every other account by whoever held it |
| `SyncJobs.ToWriteExactlyWhen` | apps/api/app/copiers/sync_jobs.py:39-48 | a run has to write everybody in the plan on a rewrite, and otherwise exactly those whose code is in no live row |
| `SyncJobs.RerunWritesNothing` | apps/api/app/copiers/sync_jobs.py:39-48 | after an additive run that finished, reached and added everybody, the same plan has nobody left to write |
| `SyncJobs.StepKeepsInv` | apps/api/app/copiers/sync_jobs.py:71-142 | each run, finished or broken, and each edit of an untracked account, keeps codes distinct, tracked accounts there, and the order and stamps of stays |
| `KonicaBizhub.SyncUsersToDevice` | apps/api/app/copiers/konica_bizhub.py:212-359 | the loop with its running variables and early stop does what a person-by-person account of it says, on the device, in its result and in the progress noted, and has no result when an error breaks it off |
| `KonicaBizhub.AddOne` | apps/api/app/copiers/konica_bizhub.py:301-341 | one person of an additive run: full, out of numbers, refused or added, and what each leaves behind |
| `KonicaBizhub.NewAccountsGetTheLeastFreeNumbers` | apps/api/app/copiers/konica_bizhub.py:262-341 | an additive run changes no existing account, and each new one gets its own number in 1..1000 that no account had, the least that was free at the moment it was given |
| `KonicaBizhub.EverybodyIsCounted` | apps/api/app/copiers/konica_bizhub.py:240-359 | everybody is added, refused or not reached, and some are not reached only in an additive run on a full copier |
| `KonicaBizhub.ListingListsAccounts` | apps/api/app/copiers/konica_bizhub.py:251-264 | what the paged listing returns at its limit is every account number once, or a thousand of them |
| `KonicaBizhub.ScanForFree` | apps/api/app/copiers/konica_bizhub.py:309-310 | the scan ends, because finitely many numbers are in use and no two print alike, and ends at the least free one |
| `KonicaBizhub.NumeralOfDecimal` | apps/api/app/copiers/konica_bizhub.py:309-310 | a printed number reads back as itself |
| `KonicaBizhub.DecimalIsPlain` | apps/api/app/copiers/konica_bizhub.py:309-310 | a number is printed in digits, with no zero in front |
| `KonicaBizhub.PendingIsTheUnseen` | apps/api/app/copiers/konica_bizhub.py:236-243 | those to be written are exactly those whose code is not believed to be on the device |
| `KonicaBizhub.PendingInOrder` | apps/api/app/copiers/konica_bizhub.py:241-243 | they are taken in the order of the plan, and on a rewrite they are the whole plan |
| `KonicaBizhub.AddedExactlyWhen` | apps/api/app/copiers/konica_bizhub.py:302-339 | person i of an additive run is added if and only if there are fewer than a thousand accounts, the copier does not refuse and no account has the code at that moment; under the least free number, recorded with that person's address and code |
| `KonicaBizhub.RoomLeavesANumber` | apps/api/app/copiers/konica_bizhub.py:302-313 | while there are fewer than a thousand accounts some number up to 1000 is free, so the second of the two early stops is never the one taken |
| `KonicaBizhub.RewrittenExactlyWhen` | apps/api/app/copiers/konica_bizhub.py:268-300 | person i of a rewrite is written under number i + 1 if and only if the copier does not refuse and no other account has the code at that moment, whether or not the number was taken; recorded with that person's address and code |
| `KonicaBizhub.CleanRewriteWritesEverybody` | apps/api/app/copiers/konica_bizhub.py:268-300 | a rewrite that nothing refuses, with codes new to the copier or already where they belong, writes everybody, in order, from number 1 on |
| `KonicaBizhub.BrokenExactlyWhen` | apps/api/app/copiers/konica_bizhub.py:267-341 | an error before person n ends a run unless the copier was full at the person before |
| `KonicaBizhub.NotedAtTheLastMultiple` | apps/api/app/copiers/sync_jobs.py:77-86 | what is noted of a run are its counts at the last multiple of so many people, or at the end |
| `KonicaBizhub.AdditivePromises` | apps/api/app/copiers/konica_bizhub.py:285-341 | at every point of an additive run the accounts reported are written where they say and are all that changed, codes stay distinct, and numbers have been given from the bottom |
| `KonicaBizhub.RewritePromises` | apps/api/app/copiers/konica_bizhub.py:285-341 | at every point of a rewriting run, refusals included, the accounts reported are written where they say and are all that changed, and codes stay distinct |
| `KonicaBizhub.Copier.WriteAccount` | apps/api/app/copiers/konica_admin.py:353-396 | the device's side: a write goes through exactly when nothing stands against it, and a refused one changes nothing |
| `KonicaAdmin.ListAccounts` | apps/api/app/copiers/konica_admin.py:280-313 | the first min(limit, n) accounts, each once and in order, through windows of at most 100 that never reach past the limit |
| `KonicaAdmin.ListAccountCounters` | apps/api/app/copiers/konica_admin.py:315-351 | every account numbered within the windows read, each once and in order, and no other; no window is wider than 50 or reaches past the limit |
| `KonicaAdmin.ReadsThroughTheFirstTwoEmpty` | apps/api/app/copiers/konica_admin.py:328-351 | the windows read go on to the limit or through the first two empty ones in a row, and stop at no earlier window |
| `KonicaAdmin.NobodyIsMissed` | apps/api/app/copiers/konica_admin.py:315-351 | a read returns everybody if and only if nobody is numbered beyond a hundred numbers, from a multiple of fifty on, that nobody has |
| `KonicaAdmin.WindowsAdjoin` | apps/api/app/copiers/konica_admin.py:315-351 | reading two adjoining windows is reading them as one: nobody twice, nobody skipped at the seam |
| `Provisioning.BuildProvisioningPlan` | apps/api/app/copiers/provisioning.py:42-99 | the plan holds, in order, those of the wanted type in this device's narrowed scope whose code nobody else in scope has; the count is of those no directory user matches |
| `Provisioning.PlannedExactlyWhen` | apps/api/app/copiers/provisioning.py:42-99 | somebody is planned if and only if a record of the wanted type is theirs, their unit is known and served by the copier, and no other such record has the code; the type wanted is the one asked for, or else the organisation's own |
| `Provisioning.SkippedAreUnknown` | apps/api/app/copiers/provisioning.py:68-80 | those skipped are the records of that type whose person's unit is not known |
| `Provisioning.TakenInOrder` | apps/api/app/copiers/provisioning.py:60-83 | the people of a longer table are taken in its order |
| `Provisioning.SoleHolders` | apps/api/app/copiers/provisioning.py:84-92 | exactly those whose code has one holder in scope, in order |
| `Provisioning.PlannedCodesAreDistinct` | apps/api/app/copiers/provisioning.py:73-92 | planned codes are pairwise distinct, and of two people in scope with one code neither is planned |
| `Provisioning.PlannedAreTracked` | apps/api/app/copiers/provisioning.py:55-83 | nobody is planned whom the organisation's own scope rejects, unless the device's list has nothing in common with it |
| `OrgUnits.MatchingIsTransitive` | apps/api/app/integrations/google_workspace.py:57-84 | a unit under a unit under a third is under the third, though normalizing a path is not idempotent |
| `OrgUnits.MatchesExactlyWhenUnder` | apps/api/app/integrations/google_workspace.py:57-84 | however the two are written, with space around, a slash before or none and slashes after, a user's unit matches a configured one if and only if that is the root, or the same, or the user's lies under it; no unit matches nothing |
| `OrgUnits.EveryPathIsSpelled` | apps/api/app/integrations/google_workspace.py:57-64 | every path is such a writing of some unit, so that condition covers all paths |
| `OrgUnits.OrgScopeExactly` | apps/api/app/integrations/google_workspace.py:87-96 | the units an organisation tracks are those it lists that are not blank, or its staff's when it lists none |
| `OrgUnits.DeviceAdmitsExactlyWhen` | apps/api/app/copiers/device_admin.py:48-77 | a device admits nobody excluded, and of the others whom the organisation tracks if it lists no unit itself; or else those under a unit it lists that the organisation tracks; or everyone when the lists have nothing in common |
| `OrgUnits.ScopeWidensExactlyWhenEmpty` | apps/api/app/copiers/device_admin.py:48-77 | a device's scope admits somebody the organisation's rejects if and only if none of the device's paths lies under one of the organisation's and neither the organisation's list nor an exclusion speaks of that person |
| `OrgUnits.ScopeNarrows` | apps/api/app/integrations/google_workspace.py:99-115 | with something in common, nobody the organisation rejects is admitted |
| `OrgUnits.EmptyExactlyWhenNothingInCommon` | apps/api/app/copiers/device_admin.py:63-77 | the narrowed list comes out empty exactly when there is some path on each list and none of the device's lies under one of the organisation's |
| `OrgUnits.UntrackedBuildingAdmitsEveryone` | apps/api/app/copiers/device_admin.py:63-77 | a copier scoped to an untracked unit admits a student the organisation excludes, contrary to its documentation |
| `DeviceOwner.MfpDevice.AttributeDeviceCopies` | apps/api/app/copiers/device_owner.py:198-314 | what a run does to the watermark and the usage rows in each of its cases, and that it stands down untouched when it must |
| `DeviceOwner.StandsDownExactlyWhen` | apps/api/app/copiers/device_owner.py:218-252 | a run looks at the meter if and only if the copier has an owner, neither polls accounts nor has account readings, and has a printer that exists, is read and measures copies; otherwise it names the first of these that fails |
| `DeviceOwner.FirstRunSetsTheMark` | apps/api/app/copiers/device_owner.py:254-269 | the first run for an owner sets the watermark at the newest reading with a copy count and gives nothing |
| `DeviceOwner.RunGivesWhatTheMeterGained` | apps/api/app/copiers/device_owner.py:271-314 | every later run gives what the meter gained from the last reading up to the watermark, or the first left after it, to the newest, if it gained anything, and moves the watermark if there was anything newer |
| `DeviceOwner.RunChangesExactlyWhen` | apps/api/app/copiers/device_owner.py:198-314 | a run changes the watermark or the rows if and only if it looks at the meter and finds a reading with a copy count, for a new owner, or one past the watermark with another before it |
| `DeviceOwner.MfpDevice.NameOwner` | apps/api/app/routers/mfp_devices.py:288-297 | a different owner, or none, restarts the watermark; naming the same one does not |
| `DeviceOwner.OwnersGetNoMoreThanWasCopied` | apps/api/app/copiers/device_owner.py:253-314 | on one printer, over any readings, purges, renamings, runs and swaps that do not raise the meter, all owners together get no more than was copied, the present owner no more than since the counting began, and exactly that when nothing was purged or swapped |
| `DeviceOwner.OwnerPeriodsNeverOverlap` | apps/api/app/copiers/device_owner.py:271-313 | on one printer no two rows, of whatever owner, cover the same time, whatever is purged or swapped |
| `DeviceOwner.WatermarkNeverMovesBack` | apps/api/app/copiers/device_owner.py:267-299 | on one printer no run sets the watermark behind any earlier one, across purges and changes of owner |
| `DeviceOwner.WatermarkMovesBackExactlyWhen` | apps/api/app/copiers/device_owner.py:262-269 | moves between printers included, a run takes the watermark back if and only if it is the first of a newly named owner and the printer now linked was last read before it |
| `DeviceOwner.OverlapExactlyWhen` | apps/api/app/copiers/device_owner.py:271-313 | moves and changes of owner included, a new row overlaps a given earlier one, of whatever owner, if and only if the printer now linked was read after that one began and before it ended, but not between its end and the watermark |
| `DeviceOwner.OverlapExactlyWhenBaseIsOlder` | apps/api/app/copiers/device_owner.py:271-313 | of the rows of the same owner's counting it is enough to look at the last: a new row overlaps one of them if and only if the printer now linked was read before that one ended and not again up to the watermark |
| `DeviceOwner.MovedCopierOverlaps` | apps/api/app/routers/mfp_devices.py:288-304 | a run in which a copier is linked to another printer and the next row begins before the last one ended |
| `DeviceOwner.OverstatedExactlyWhenRaised` | apps/api/app/copiers/device_owner.py:283-313 | moves included, a row's pages are the copies made between its readings on the printer now linked plus the net shift of its meter, so it overstates exactly when swaps raised it |
| `DeviceOwner.RaisingSwapIsBilled` | apps/api/app/copiers/device_owner.py:283-313 | a run in which an owner who copied nothing is given the 500 pages a new machine came with |
| `DeviceOwner.ResetMeansSwapped` | apps/api/app/copiers/device_owner.py:283-297 | a run that reports a reset follows a real swap for a lower meter |
| `DeviceOwner.LatestIsLatest` | apps/api/app/copiers/device_owner.py:123-133 | none exactly when no reading with a copy count qualifies, otherwise one that no later qualifying reading beats |
| `DeviceOwner.EarliestIsEarliest` | apps/api/app/copiers/device_owner.py:136-149 | none exactly when no reading with a copy count comes after, otherwise the first that does |
| `CounterHistory.GetDailyDeltasRange` | apps/api/app/printers/counter_history.py:110-177 | the dictionary, sort and carried baseline compute the differences of each day's last reading within the window |
| `CounterHistory.BoundaryFacts` | apps/api/app/printers/counter_history.py:150-160 | there is a boundary if and only if some reading lies before the window and not before the floor, and it is the last of those |
| `CounterHistory.BaselineExactly` | apps/api/app/printers/counter_history.py:150-177 | what a range is compared with: its boundary; failing that, for a floor not before the window, the window's first reading; failing that, nothing; and which readings are compared |
| `CounterHistory.LastsAreTheLast` | apps/api/app/printers/counter_history.py:73-77 | every reading has one of its own day, not earlier, among the last of each day |
| `CounterHistory.ReportedExactlyWhen` | apps/api/app/printers/counter_history.py:110-177 | the days reported are exactly those with a reading in the window after what the range is compared with |
| `CounterHistory.DiffReadings` | apps/api/app/printers/counter_history.py:62-107 | overwriting one dictionary entry per day and walking the sorted days gives each day's last reading against the day before |
| `CounterHistory.SplitsExactlyBetweenDays` | apps/api/app/printers/counter_history.py:110-177 | without a floor, the deltas of a range are those of its two parts in turn if and only if no day has readings on both sides of the cut |
| `CounterHistory.MidnightSplits` | apps/api/app/printers/counter_history.py:110-177 | in particular a range can be cut at any UTC midnight |
| `CounterHistory.NoonDoesNotSplit` | apps/api/app/printers/counter_history.py:110-177 | two readings of one day, cut at noon, give other deltas than uncut |
| `CounterHistory.DaysStrictlyAscend` | apps/api/app/printers/counter_history.py:91-107 | each day occurs at most once, in order |
| `CounterHistory.DeltasTelescope` | apps/api/app/printers/counter_history.py:38-107 | on a meter that is always reported and never falls, the deltas add up to the last reading minus the boundary, and none is null |
| `CounterHistory.DeltasNeverExceedPages` | apps/api/app/printers/counter_history.py:38-107 | however the counter was reset, swapped for a lower one or not reported, the days of a range never add up to more than the pages made from its baseline, or else its first reading, to its last; with a baseline, to exactly those if and only if each null day made none and no other day was set back |
| `CounterHistory.DeltaNeverExceedsPages` | apps/api/app/printers/counter_history.py:38-59 | one day's delta is null exactly when a reading lacks the counter or it was set back by more than was made, and otherwise lies between zero and the pages made |
| `CounterHistory.FloorIsKeptExactlyWhen` | apps/api/app/printers/counter_history.py:138-177 | the first day is compared with a reading older than the floor if and only if the range begins before the floor and its first reading does too |
| `CounterHistory.FloorCanBeMissed` | apps/api/app/printers/counter_history.py:148-177 | an input at which the first day is compared with a reading from before the floor |
| `CounterHistory.ReportKeepsItsFloor` | apps/api/app/reports/untracked_copies.py:135-149 | begun where the report begins it, at the later of its filter and the moment tracking was switched on, no range is compared with a reading from before that moment |
| `Conditions.NotificationStore.Observe` | apps/api/app/notifications/conditions.py:68-181 | one observation on its own: which row it leaves and whether it raises an event, in every case |
| `Conditions.RaisedExactlyWhen` | apps/api/app/notifications/conditions.py:62-181 | an observation raises its event if and only if notifications and the kind's own flag are on, nobody has been told of the condition, and it is immediate or was known before for at least the settle window |
| `Conditions.NotedExactlyWhen` | apps/api/app/notifications/conditions.py:105-181 | that somebody was told is noted when the event is raised, and when the row is made while the kind is off, and at no other time; first sightings never move |
| `Conditions.ImmediateIsReportedAtOnce` | apps/api/app/notifications/conditions.py:89-94 | an immediate condition raises one event over any number of sightings, on the very first, whatever the settle window; none if the kind is off or somebody was told |
| `Conditions.DifferentSightingsRaiseTheirOwn` | apps/api/app/notifications/conditions.py:68-181 | observing different conditions one after another raises exactly what each would have raised alone |
| `Conditions.NotificationStore.Clear` | apps/api/app/notifications/conditions.py:184-192 | the condition's row goes and no other |
| `Conditions.NotificationStore.ClearMissing` | apps/api/app/notifications/conditions.py:195-215 | of the rows whose key is LIKE the prefix, wildcards included, exactly those observed stay, and no other row changes |
| `Conditions.PlainPrefix` | apps/api/app/notifications/conditions.py:204-212 | a prefix without wildcards takes exactly the keys that begin with it |
| `Conditions.LikeReads` | apps/api/app/notifications/conditions.py:204-212 | in a pattern a percent sign takes any stretch, an underscore one character, a backslash the next character as it is, anything else itself |
| `Conditions.NotificationStore.NotifyPrinterError` | apps/api/app/main.py:122-151 | afterwards the rows under a printer's prefix are exactly its present reasons, each with its first sighting kept, and no other row has changed |
| `Conditions.NotificationStore.ObserveReasons` | apps/api/app/main.py:131-147 | every reason given is observed: its row is seen now and keeps its first sighting, and no other row changes |
| `Conditions.PrinterErrorsSettle` | apps/api/app/main.py:122-151 | of the reasons a printer in error gives, or of the bare error when it gives none, exactly those reported before, for at least the settle window, that nobody was told of raise their event |
| `Conditions.ReportedOnceAndOnTime` | apps/api/app/notifications/conditions.py:105-181 | a condition seen on every pass raises one event, on the first pass after the first sighting that finds the settle window gone by, and none before |
| `Sessions.AloneIsObserve` | apps/api/app/notifications/conditions.py:97-181 | the statement-by-statement session, run alone and committed, does what `Observe` does and leaves no lock |
| `Sessions.StepKeepsInv` | apps/api/app/notifications/conditions.py:97-192 | every statement of every session, reading only what is committed or its own, every commit, clear and tick keeps what the results below rest on |
| `Sessions.OneEventPerRow` | apps/api/app/notifications/conditions.py:154-181 | in any interleaving of any number of sessions no state row raises a second event, and one made while its kind was off raises none |
| `Sessions.FlushedEventsAreSettled` | apps/api/app/notifications/conditions.py:140-167 | an event whose session flushed its sighting comes no sooner than the settle window after its row's first sighting |
| `Sessions.SettledExactlyWhenSameRow` | apps/api/app/notifications/conditions.py:146-167 | when sessions insert within the window of reading the clock, an event that is not immediate keeps to the window if and only if its claim marked the row that was read |
| `SettleWindow.SettledWhileSettingsStand` | apps/api/app/notifications/conditions.py:140-167 | under any interleaving, while the settings stay as they are and the window is positive, every event that is not immediate comes no sooner than the window after its row's first sighting |
| `SettleWindow.EarlyEventAfterRecurrence` | apps/api/app/notifications/conditions.py:158-167 | a run, with two settle windows at one instant, in which a cleared and recreated condition is reported at the age of zero |
| `Delivery.Outbox.DeliverPending` | apps/api/app/notifications/delivery.py:136-245 | a pass sends the oldest due events and no other, changes each as its channels' answers dictate, and returns how many became delivered |
| `Delivery.Outbox.Send` | apps/api/app/notifications/delivery.py:187-241 | an event is delivered only if every channel took it, given up only if nobody may be asked again, and put off otherwise |
| `Delivery.EveryEventIsConsistent` | apps/api/app/notifications/delivery.py:170-243 | over all passes and answers: at most eight attempts, each after the backoff of the last; a delivered event was taken by every enabled channel in one attempt, its last |
| `Delivery.AttemptsOnlyGrow` | apps/api/app/notifications/delivery.py:170-243 | attempts never fall, and an event delivered or given up is never sent again |
| `Delivery.BacklogDrains` | apps/api/app/notifications/delivery.py:170-185 | with every channel up, n waiting events drain in ceil(n/20) passes and in no fewer |
| `Delivery.OnePassDelivers` | apps/api/app/notifications/delivery.py:170-185 | such a pass takes min(20, n) off the backlog and touches nothing else in it |
| `Delivery.OldestFirst` | apps/api/app/notifications/delivery.py:170-185 | what a pass leaves for later is no older than what it takes |
| `Delivery.BackoffDoublesToTheCap` | apps/api/app/notifications/delivery.py:54-56 | a minute at first, doubling with each attempt, never shrinking, an hour from the seventh on |
| `JobReconcile.SupersedingJobIds` | apps/api/app/printers/job_reconcile.py:99-141 | for each candidate, the latest attempt at its CUPS job when that is another row, and nothing otherwise |
| `JobReconcile.LatestAttempts` | apps/api/app/printers/job_reconcile.py:115-133 | the first pass finds the latest attempt at each pair asked about |
| `JobReconcile.LatestIsNewest` | apps/api/app/printers/job_reconcile.py:99-141 | no attempt at the job was created after the one found |
| `JobReconcile.SupersededExactlyWhen` | apps/api/app/printers/job_reconcile.py:99-141 | a row gives way if and only if there is a later attempt at its job, and it gives way to the last of them |
| `JobReconcile.JobTable.ReconcileStuckJobs` | apps/api/app/printers/job_reconcile.py:190-273 | the sweep changes its candidates as cupsd's answers dictate and no other row, and its four counts are those of its candidates, the resolved ones being exactly the rows changed |
| `JobReconcile.JobTable.Settle` | apps/api/app/printers/job_reconcile.py:230-260 | one candidate is superseded, resolved or left, and reported as resolved exactly when it changed |
| `JobReconcile.SweptClosesExactlyWhen` | apps/api/app/printers/job_reconcile.py:144-187 | an open row that a sweep gets to is closed if and only if there is a later attempt, or cupsd says that it was cancelled, aborted or completed, or cupsd has no record of it and it is two hours old; otherwise it stays as it is |
| `JobReconcile.WhatClosedRowsSay` | apps/api/app/printers/job_reconcile.py:144-187 | what each closed row says: status and message of each case, the row it gave way to, the pages and media of a completed job, in grey if its printer has no colour |
| `JobReconcile.ReportedExactlyAs` | apps/api/app/printers/job_reconcile.py:230-260 | when a row is reported as resolved, unasked, kept or left in flight |
| `JobReconcile.CountsAreOfCandidates` | apps/api/app/printers/job_reconcile.py:230-260 | each of the four counts is that of the candidates reported so |
| `JobReconcile.CandidatesAreTheOldest` | apps/api/app/printers/job_reconcile.py:206-217 | a sweep takes the oldest stuck rows, each once, up to its limit |
| `JobReconcile.OneRowTakesThePages` | apps/api/app/printers/job_reconcile.py:144-187 | over any restarts and sweeps, at most one row per CUPS job takes cupsd's page count |
| `JobReconcile.PointersGoForwardInEveryRun` | apps/api/app/printers/job_reconcile.py:230-240 | supersede pointers lead to a strictly later attempt at the same job |
| `JobReconcile.FollowPointers` | apps/api/app/printers/job_reconcile.py:230-240 | following the pointers ends, at an attempt at the same job that nothing supersedes |
| `JobReconcile.SettledRowsAreNeverTouched` | apps/api/app/printers/job_reconcile.py:204-261 | a row that is no longer forwarding is the same row after any further steps |
| `JobReconcile.ClosedRowsTellTheTruth` | apps/api/app/printers/job_reconcile.py:144-187 | in every reachable state a row is untouched, or was closed by the backend or a person, or says what cupsd's final record of its job says, pages, colour, duplex and paper included; or that a later attempt took its place; or, after two hours, that nobody knows |
| `JobReconcile.InFlightIsLeftAlone` | apps/api/app/printers/job_reconcile.py:144-160 | while cupsd has the job in flight and answers with its state, the latest attempt stays as it is through any number of sweeps and anything else that happens to other jobs |
| `JobReconcile.OpenExactlyWhenNeverClosed` | apps/api/app/printers/job_reconcile.py:204-261 | in any run, whatever cupsd answers each sweep, a row is open at the end if and only if nobody reported it and no sweep found fewer older rows open than it takes and was told to close it |
| `JobReconcile.SweepClosesExactlyWhen` | apps/api/app/printers/job_reconcile.py:204-261 | a sweep closes an open row if and only if it was created more than half an hour before, fewer older rows are open than the sweep takes, and there is a later attempt, or cupsd says that it is over, or it has no record of it after two hours |
| `JobReconcile.ReadyRowIsClosed` | apps/api/app/printers/job_reconcile.py:204-217 | a row every sweep would close is closed once the sweeps have worked off enough of the queue ahead of it, each by its limit less the rows that its own answers leave as they are |
| `JobReconcile.ReadyRowIsClosedWithin` | apps/api/app/printers/job_reconcile.py:204-217 | with n older rows, of which no sweep leaves more than b as they are, k sweeps are enough when n < limit + (k - 1)(limit - b) |
| `JobReconcile.FinishedRowIsClosed` | apps/api/app/printers/job_reconcile.py:144-187 | a row whose job is over, behind n older rows whose jobs are over too, is closed within ceil((n + 1) / limit) sweeps |
| `JobReconcile.BlockedRowStarves` | apps/api/app/printers/job_reconcile.py:204-217 | with as many older rows as one sweep takes, none of which any sweep is told to close, it is never closed, whatever the sweeps are told of the others |
| `JobReconcile.ClosedExactlyWhenNotBlocked` | apps/api/app/printers/job_reconcile.py:69-73 | given enough sweeps that agree on which rows ahead they leave as they are, a ready row is closed if and only if those are fewer than one sweep takes |
| `JobReconcile.QueueMoves` | apps/api/app/printers/job_reconcile.py:204-217 | a sweep that passes a row over shortens the queue ahead of it by its limit less the rows that block |
| `RateLimit.RateLimiter.constructor` | apps/api/app/core/rate_limit.py:42-47 | nothing is held against anybody at first |
| `RateLimit.RateLimiter.Check` | apps/api/app/core/rate_limit.py:49-72 | the check raises if and only if the unpruned log since the last success has max_failures entries younger than the window; a key is remembered exactly while it has any, and after a due sweep that goes for every key |
| `RateLimit.RateLimiter.Sweep` | apps/api/app/core/rate_limit.py:74-81 | once a minute, the keys whose failures have all aged out go, and nobody else's failures change |
| `RateLimit.RateLimiter.RecordFailure` | apps/api/app/core/rate_limit.py:83-84 | the failure joins both the log and the table, which go on agreeing |
| `RateLimit.RateLimiter.RecordSuccess` | apps/api/app/core/rate_limit.py:86-87 | one key's history is wiped and no other's |
| `RateLimit.RecentOfRecent` | apps/api/app/core/rate_limit.py:49-81 | forgetting what is stale now changes no answer later |
| `RateLimit.PassesExactlyWhen` | apps/api/app/core/rate_limit.py:49-72 | a try passes if and only if fewer than max_failures failures since the last success are younger than the window; so after a quiet window it always does |
| `RateLimit.NoWindowHoldsMore` | apps/api/app/core/rate_limit.py:49-84 | over every run of checks, failures, successes and abandoned guesses with at most k in flight together, no stretch of the window's length, wherever it starts, holds more than max_failures - 1 + k failures without a success |
| `RateLimit.OverlappingGuessesReachTheBound` | apps/api/app/routers/release.py:56-63 | for every limit and every k, some run with k guesses in flight reaches that bound |
| `RateLimit.LimitKeptExactlyWithoutOverlap` | apps/api/app/routers/release.py:56-63 | no window ever holds more than max_failures, in every run with at most k guesses in flight, if and only if k is at most one |
| `RateLimit.Perform` | apps/api/app/routers/release.py:56-63 | the limiter takes the steps of those runs: a try is refused exactly when the run's own log says so, and no other key is touched |
| `NetworkHealth.Observe` | apps/api/app/printers/network_health.py:144-179 | the new log is what was within the hour and the new probe, as stored, and the verdict is that log's |
| `NetworkHealth.Prune` | apps/api/app/printers/network_health.py:116-142 | keeps the entries since the cutoff that have a time and an answer, in order and coerced, and no other |
| `NetworkHealth.StoredLogIsTheLastHour` | apps/api/app/printers/network_health.py:144-179 | after any run of probes the stored log, and so the verdict, is that of the whole history restricted to the last hour |
| `NetworkHealth.KeptAreAnHourOld` | apps/api/app/printers/network_health.py:116-160 | of all there ever was it holds exactly the probes of an hour and less |
| `NetworkHealth.StoredAgainAndAgain` | apps/api/app/printers/network_health.py:116-179 | written, read and written again with every probe, the stored log is that of the unstored history: nothing is coerced twice |
| `NetworkHealth.WrittenReadsBack` | apps/api/app/printers/network_health.py:116-142 | a log that was written reads back as it was |
| `NetworkHealth.FlapIsEvidence` | apps/api/app/printers/network_health.py:100-107 | a reported flap has at least three affected probes, missed and slow ones counted exactly and apart, slow ones only beside a quick one, at least one success, and a loss within 0..100 |
| `NetworkHealth.FlapExactlyWhen` | apps/api/app/printers/network_health.py:144-179 | a flap is reported if and only if some probe succeeded and at least three were missed or slow, slow ones of two seconds or more counting only beside one under a second; and it says how many there were of each |
| `NetworkHealth.LossIsRounded` | apps/api/app/printers/network_health.py:100-107 | the loss is the affected share in percent to the nearest whole number, a half to the even one |
| `NetworkHealth.ReadsAsPythonDoes` | apps/api/app/printers/network_health.py:116-142 | what a stored value counts for as an answer and as a duration |
| `MediaOptions.SplitJobOptions` | apps/api/app/printers/media_options.py:43-78 | the loop over `current`, `quote` and `escaped` computes the recursive splitter the results below are about |
| `MediaOptions.SplitKeepsContent` | apps/api/app/printers/media_options.py:43-78 | every character that is not a separator is kept, in order, and each token is a nonempty stretch with no separator in it |
| `MediaOptions.SplitKeepsCharacters` | apps/api/app/printers/media_options.py:43-78 | from any point on, every character that is not a separator is kept, in order |
| `MediaOptions.SeparatorCuts` | apps/api/app/printers/media_options.py:43-78 | the first separator ends a token, if there was any text, and what follows is split by itself |
| `MediaOptions.OnlySplitCuts` | apps/api/app/printers/media_options.py:43-78 | whatever leaves an unbroken text whole and cuts at the first separator of any other splits every string as the splitter does |
| `MediaOptions.SplitCuts` | apps/api/app/printers/media_options.py:43-78 | the splitter does both, so the two facts describe it completely |
| `MediaOptions.ReadInTwo` | apps/api/app/printers/media_options.py:55-78 | a text may be read piece by piece: it is unbroken if each piece is, read from where the last one left off |
| `MediaOptions.PlainCharacter` | apps/api/app/printers/media_options.py:55-78 | outside quotes a character that is no quote and no backslash breaks the text if it is a space, and changes nothing |
| `MediaOptions.QuotedStretch` | apps/api/app/printers/media_options.py:55-78 | a stretch between two equal quotes, without that quote or a backslash in it, never breaks and ends where it began; nor does what follows a quote that is never closed |
| `MediaOptions.EscapedCharacter` | apps/api/app/printers/media_options.py:55-78 | a backslash takes the next character along, whatever it is, in quotes and out |
| `MediaOptions.SplitJoinRoundTrip` | apps/api/app/printers/media_options.py:43-93 | for every string, an unterminated quote or trailing backslash included, splitting the joined tokens gives the tokens back |
| `MediaOptions.IsMediaExactlyWhenNamed` | apps/api/app/printers/media_options.py:28-40 | a token is dropped if and only if it is one of the names, or begins with one of them and an equals sign |
| `MediaOptions.FilterIsTokenByToken` | apps/api/app/printers/media_options.py:81-93 | the filter goes token by token, in order, and drops or keeps each for itself |
| `MediaOptions.JoinIsBySpaces` | apps/api/app/printers/media_options.py:93 | what is kept is joined by one space each |
| `MediaOptions.StripKeepsTheRest` | apps/api/app/printers/media_options.py:81-93 | the stripped string splits into exactly the tokens that are not about media, verbatim and in order |
| `MediaOptions.StripIsIdempotent` | apps/api/app/printers/media_options.py:81-93 | stripping twice is stripping once |
| `Folds.CacheByMac` | apps/api/app/integrations/mosyle.py:172-200 | the cache holds an address exactly when one record reports it, and holds that record |
| `Folds.SameAddressExactlyWhen` | apps/api/app/integrations/google_workspace.py:40-41 | two spellings are one address if and only if, space around them aside, they agree mark by mark but for case and for dashes and colons; it is kept in upper case with colons |
| `Folds.MacCacheIgnoresOrder` | apps/api/app/integrations/google_workspace.py:310-339 | two orders of the same records give the same cache |
| `Folds.RefreshAliases` | apps/api/app/integrations/google_workspace.py:348-385 | an alias survives exactly when all who claim it agree and no manual row has it, and then belongs to whom they agree on |
| `Folds.RefreshAndRename` | apps/api/app/integrations/google_workspace.py:348-410 | a whole refresh: the aliases that survive, and the logged jobs renamed by those that are new or resolve to somebody else, in some order |
| `Folds.RenameSubmitters` | apps/api/app/integrations/google_workspace.py:405-410 | every logged job is renamed by the changed aliases one after another, in the order gone through, and marked as named by alias |
| `Folds.RenamingIgnoresOrderExactlyWhen` | apps/api/app/integrations/google_workspace.py:405-410 | every job ends up the same whatever the order if and only if no changed alias resolves to an address that is itself a changed alias of somebody else |
| `Folds.RefreshIgnoresOrderExactlyWhen` | apps/api/app/integrations/google_workspace.py:393-410 | the same of the changes a refresh comes to, whose aliases are in lower case as that requires |
| `Folds.FoldUsers` | apps/api/app/integrations/google_workspace.py:360-376 | after the outer loop the two dictionaries say who claimed each alias first and which a different account claimed later |
| `Folds.FoldUser` | apps/api/app/integrations/google_workspace.py:360-376 | one account's aliases join what was claimed before |
| `Folds.AliasesIgnoreOrder` | apps/api/app/integrations/google_workspace.py:362-385 | whose an alias is depends only on which claims were made |
| `Folds.DirectoryOrderDoesNotMatter` | apps/api/app/integrations/google_workspace.py:348-385 | two directories with the same accounts yield the same aliases |
| `Folds.ClaimsAreWhoClaimsWhat` | apps/api/app/integrations/google_workspace.py:360-377 | the claims are those of the accounts with an address |
| `Folds.ClaimsAreTheAliases` | apps/api/app/integrations/google_workspace.py:366-377 | an account claims exactly its aliases, trimmed and in lower case, that are not blank, for its own address in lower case |
| `Folds.RenamedExactlyWhen` | apps/api/app/integrations/google_workspace.py:392-410 | a logged job is left as it is unless it was submitted under an alias that is new or resolves to somebody else than before; and where no such alias leads on to another it is then given to whom its alias resolves to |

## Left out

- The network and its protocols (HTTP, SNMP, IPP, LDAP, SMTP, subprocesses), logging, settings, migrations, authentication and the web framework: devices, cupsd, channels and the clock are steps or parameters.
- The database session: a table is a sequence or map of rows in a field, so object identity and aliasing of mapped rows, and rollback of a failing caller, are not captured; rows with equal timestamps come in storage order.
- Sessions: a clear is a transaction of its own, and a session that rolls back, or observes more than one condition, is left out; so are the title, body and severity of an event.
- KonicaBizhub.RewritePromises: gives no bound of 1000 on account numbers, because the code checks none when rewriting.
- KonicaBizhub.Copier.WriteAccount: states what the device is assumed to do with a write; the form that carries it, and the truncation of names and labels, are left out.
- KonicaBizhub: account names and labels, and messages.
- AccountMetering: an account that a rewrite took over with pages already on its counters; the code marks its first row for that reason.
- AccountMetering.UsageConservesCopies: copiers whose total is not the sum of their page counters; which of the two is then the truth is not for the code to say. BilledIsTheTotalExactlyWhen and DeltasConservePages are about any copier.
- AccountCounters.MakeUsageRows: the copied device attributes are not on the modelled row.
- JobReconcile: the routine that supersedes earlier attempts when the backend starts (apps/api/app/routers/jobs.py).
- JobReconcile.OneRowTakesThePages: reuse of CUPS job ids after the spool is reset; matching on printer and id is the code's own rule.
- DeviceOwner.OwnersGetNoMoreThanWasCopied: swaps that raise the meter and moves to another printer are excluded, because the property is false of them; OverstatedExactlyWhenRaised and OverlapExactlyWhen say when and by how much.
- Delivery: error texts, per-channel status and how an answer is classified from an HTTP status.
- NetworkHealth.Prune: parsing of a stored time or number is a parameter.
- RateLimit and NetworkHealth: times are integers or reals; floating-point rounding is not modelled.
- Provisioning, Folds: Unicode case mapping; lower-casing is a parameter and upper-casing is that of ASCII, which is what addresses are made of.
- Small, self-contained or thin code that would add only easy members: syslog patterns, capability parsing, ink coverage, version comparison, audit diffs, the other vendors' connectors, flap wording, and the wrappers that read the clock.
