# Procrastabs tab manager — a Dafny model

This project models the background engine of the Procrastabs browser extension
(`ProcrastabsManager` in `background.js`). The engine tracks every open tab, and it
accumulates each tab's active time. It caps the number of open tabs. When a new tab opens
and duplicate closing is on, it closes the older tabs at the same url. When the tab count sits at the ceiling it runs a
countdown that closes the active tab. It paints a badge with the remaining slack and
mirrors its state to synced storage.

Each listener is a pure step function. A step takes the engine's state (tracked tabs,
one-shot `bypassSync` flag, live config), the event's data, the host's answers the listener
awaits, and the current instant. It returns the next state and the requests the listener
issues, in issue order. There are seven kinds of request:

- close tabs
- start the countdown
- stop the countdown
- write the tabs snapshot
- write everything
- paint the badge text
- paint the badge colour

Modules:

- `Tabs`: the tab records, the stored snapshot (`removeExtraPropsFromTabs`) and the lookups by id.
- `Activity`: `updateActivityOnTabChange` and the focus-loss flush.
- `Duplicates`: `getDuplicateTabsOf` and the sweep of `closeDuplicateTabs`.
- `Settings`: the config, `hasTabsLeft` and `updateBadge`'s text.
- `Engine`: `init`, the tab, window and storage listeners.
- `Countdown`: one tick of the interval that `startCountdown` creates, and a run of ticks.
- `Scheduler`: how the host keeps the intervals that start and stop requests create.
- `Lifecycle`: properties of pairs of steps.
- `Decimal`, `Seqs`, `Wrappers`: number printing and parsing, order-preserving filtering, and `Option`.

Inputs the model takes as parameters:

- The current instant (`Date.now()`) is an `Instant` parameter. One listener invocation reads it once.
- The host's answers are parameters: the tab list, the active tab, and the stored keys.
- The defaults are a `Config` parameter of `Init`. `defaults.js` is not part of this model.

Behaviour worth noting:

- The countdown closes on the callback that sees `total` seconds past. For a one-minute countdown that is the 61st callback (`Countdown.ClosesAtExpiry`).
- `hasTabsLeft` ignores `maxTabsEnabled`. The countdown therefore starts and closes tabs with the ceiling switched off.
- A url change stamps `activeAt` on the updated tab even when it is in the background. Two tabs can then carry a stamp (`Lifecycle.UrlChangeStampsBackgroundTab`).
- Index repair after a removal compares window indices with a position in the whole list. Positions within a window are therefore not always dense (`Lifecycle.RemovalComparesListPosition`).
- `startCountdown` never checks for a running interval (see Findings).
- Invalid stored values are not rejected or replaced by earlier ones.
- `bypassSync` silences the publish of the removal that follows a rejected creation. It does not filter storage echoes.
- Lowering `maxTabs` never closes tabs. It starts another interval or stops the current one, and repaints.
- Every changed storage key is written into the config, including the badge colours and the countdown-badge switch, which later paints read.

## Model

| member | source | states |
|---|---|---|
| Tabs.Snapshot | background.js:388-399 | the stored record of each tab carries exactly its eight persisted fields, position for position |
| Tabs.SnapshotRestore | background.js:388-399 | restoring a stored snapshot and taking the snapshot again gives back the same records |
| Tabs.SnapshotIgnoresProps | background.js:388-399 | tab lists differing only in host-only fields have the same snapshot |
| Tabs.FindIndex | background.js:184 | the first position holding the id, and -1 exactly when no tab has it |
| Tabs.FindStored | background.js:34-36 | a found stored record has the requested id and is the first record with it, as `find` returns; none is found exactly when there is no snapshot or no record has the id |
| Activity.Flush | background.js:40-44 | a flushed tab loses its stamp and gains the time elapsed since it; nothing else changes |
| Activity.Activate | background.js:313-327 | afterwards exactly the tabs with the id are stamped; the target keeps an earlier stamp or gets now and keeps its time; every other tab gains its elapsed time |
| Activity.Deactivate | background.js:234-242 | focus loss clears every stamp and adds each tab's elapsed time, nothing else changes |
| Activity.ActivateCount | background.js:313-327 | the number of stamped tabs after an activation equals the number of tabs with that id |
| Activity.CountIdUnique | background.js:313-327 | with unique ids an id occurs once if tracked and never otherwise |
| Activity.SingleActiveAfterActivate | background.js:313-327 | with unique ids an activation leaves one stamped tab if the id is tracked and none otherwise |
| Activity.NoneActiveAfterDeactivate | background.js:234-242 | after focus loss no tab is stamped |
| Activity.ActivateTotalTime | background.js:313-327 | an activation adds to the total active time exactly the pending time of the tabs it flushes |
| Activity.DeactivateTotalTime | background.js:234-242 | focus loss adds to the total active time exactly the pending time of all tabs |
| Activity.PendingNonNegative | background.js:322 | when no stamp lies in the future the pending time is never negative |
| Activity.ActiveTimeNeverDecreases | background.js:234-242 | activation and focus loss never decrease the total active time when no stamp lies in the future |
| Duplicates.DuplicatesOf | background.js:431-443 | the duplicates are, in list order, exactly the other tabs with the same url, plus the new-tab pages when the tab has no url |
| Duplicates.SplitFrom | background.js:449-455 | the sweep from position k keeps its split invariant: a partition, firsts kept, repeats only |
| Duplicates.SplitDuplicates | background.js:445-460 | the sweep partitions the tabs into first occurrences with distinct urls covering every url and repeats with an earlier same-url tab; there are no repeats exactly when the urls are distinct |
| Duplicates.FirstTabNeverClosed | background.js:445-460 | with unique ids the first tab of a url is never among the tabs closed |
| Duplicates.SweepKeepsFirstOccurrence | background.js:449-455 | for urls [u1, u2, u1] the sweep closes exactly the third tab |
| Settings.BadgeText | background.js:369-378 | with the ceiling on, "0" exactly at capacity and otherwise a text starting with "-" |
| Settings.BadgeTextReadsBack | background.js:369-378 | with the ceiling on and off capacity the text after the "-" reads back as the slack; with the ceiling off the text reads back as the tab count |
| Settings.ReadBadgeText | background.js:369-378 | the badge text reads back as the tab count it was drawn for |
| Settings.BadgeTextInjective | background.js:369-378 | different tab counts never share a badge text |
| Settings.OverLimitBadgeHasDoubleMinus | background.js:370-371 | over the ceiling the badge text starts with "--" |
| Settings.BadgeExamples | background.js:369-378 | 5 of 5 shows "0", 3 of 5 shows "-2", 7 with the ceiling off shows "7" |
| Settings.HasTabsLeftIgnoresCeilingFlag | background.js:427-429 | whether a slot is left depends on the tab count and the ceiling only, not on whether the ceiling is switched on |
| Settings.NoSlotLeftBadge | background.js:369-378 | with the ceiling on, no slot is left exactly when the badge shows "0" or a text starting with "--" |
| Decimal.ParseIntToString | background.js:371-374 | the decimal text of an integer reads back as that integer |
| Decimal.IntToStringInjective | background.js:371-374 | different integers print differently |
| Engine.Publish | background.js:152-153 | the snapshot of the tabs is written, then the badge shows the count text on the base colour; nothing is closed, started or stopped |
| Engine.UpdateBadgeShowsCount | background.js:369-378 | the repaint is a text that reads back as the number of tracked tabs, then the base colour |
| Engine.OnCreated | background.js:120-155 | the tab is appended fresh; over the ceiling only it is closed and the bypass is set; otherwise the requests are exactly: one close of the duplicates found (none when duplicate closing is off), or else a start with the configured length when the countdown is on and no slot is left, or else nothing; then sync and badge |
| Engine.KeptCreated | background.js:136-154 | below the ceiling the tab is appended; the requests are exactly one close of the duplicates found, or else a start with the configured length when the countdown is on and no slot is left, or else nothing; then the publish |
| Engine.CreatedEffects | background.js:138-153 | a kept tab's requests are exactly the given head followed by the publish, so they close only the given ids, start only if the head does and never stop |
| Engine.DuplicatesAreOlder | background.js:138-141 | every duplicate of a new tab is an older tracked tab with the same url |
| Engine.CreatedClosesOnlyOlderDuplicates | background.js:138-147 | every tab a kept new tab closes is an older tracked tab it duplicates |
| Engine.OnUpdated | background.js:157-174 | only tabs with the id change; url and title follow the update; a url change resets creation, stamp and time; the snapshot is written |
| Engine.SpliceOne | background.js:186 | the splice drops exactly the element at the position, or the last element for -1, and keeps the others in order |
| Engine.RemoveTab | background.js:184-192 | the tab at the found position, or the last tab when the id is missing, is dropped and later same-window indices above that position drop by one |
| Engine.CloseWindow | background.js:179-182 | a closing window drops exactly its own tabs and the removed id, keeping the rest in order |
| Engine.OnRemoved | background.js:176-206 | the bypass is cleared; the requests are a stop exactly when the countdown is on and a slot is free, then the publish exactly when the bypass was not set; nothing is closed or started |
| Engine.OnMoved | background.js:214-227 | only indices change: the moved tab takes the target index and the same-window tab that held it takes the source index |
| Engine.OnActivated | background.js:208-212 | the tabs are those of the activity update for the id, so exactly the tabs with the id are stamped and the others' time is flushed; the snapshot is written |
| Engine.OnFocusChanged | background.js:231-259 | on focus loss every stamp is flushed, then stop, repaint and sync; on focus gain the tabs are those of the activity update for the active tab, nothing is closed or stopped, and the requests are a start with the configured length and a repaint exactly when the countdown is on and no slot is left, then the sync |
| Engine.CloseDuplicateTabs | background.js:445-460 | no request when urls are distinct, otherwise exactly one close request for the sweep's repeats |
| Engine.OnMaxTabsChanged | background.js:268-275 | the new ceiling is stored; the requests are exactly a start with the configured length when the countdown is on and no slot is left, else a stop, then the badge repaint |
| Engine.OnMaxTabsEnabledChanged | background.js:277-279 | the flag is stored and only the badge is repainted |
| Engine.OnCountdownChanged | background.js:281-288 | at capacity with the countdown on: stop, start with the new length in seconds, and show the new minutes; otherwise nothing |
| Engine.OnCountdownEnabledChanged | background.js:290-298 | switching on with no slot left starts the countdown with the configured length, switching off stops it, and either is followed by a repaint; switching on with a slot free issues nothing |
| Engine.OnCloseDuplicatesChanged | background.js:300-307 | switching on sweeps the tabs once; switching off does nothing |
| Engine.StorageFacts | background.js:263-310 | over any batch of keys the config ends as the keys written in order, the tabs and bypass stay, and only switching duplicate closing on can close tabs |
| Engine.LastMaxTabsWriteWins | background.js:264-265 | the last value a batch writes to the ceiling is the one the config keeps |
| Engine.ApplyChange | background.js:264-308 | the key's new value is written into the config and nothing else in the state changes; each settings key issues its own reaction's requests; the badge keys and unknown keys issue none; only the duplicates key can close tabs |
| Engine.OnStorageChanged | background.js:263-310 | the config ends as every key written in order, the tabs and the bypass stay; no change issues nothing, otherwise the requests are the first key's reaction followed by the rest's on the state it leaves; nothing is closed unless duplicate closing is switched on |
| Engine.StartupTab | background.js:33-62 | a stored tab comes back with its fields and its left-over active time flushed; an unknown tab starts fresh; only the active tab is stamped |
| Engine.AdjustStored | background.js:26-31 | an unset or zero ceiling becomes the tab count; a set ceiling below the tab count with the countdown on switches the ceiling and the countdown off; all else is kept |
| Engine.AdjustStoredIdempotent | background.js:26-31 | correcting the stored keys twice is correcting them once |
| Engine.AdjustedCountdownFitsCeiling | background.js:26-31 | after the correction a stored countdown that is on never faces more tabs than a set ceiling |
| Engine.MergeConfig | background.js:64 | each settings key takes its stored value when there is one and the default otherwise; the badge settings are the defaults |
| Engine.MergeReadsBackWrite | background.js:64 | the settings `init` writes, read back at the next start, come back unchanged over any defaults |
| Engine.Init | background.js:18-80 | the merged tabs as above; the config is the corrected stored keys over the defaults, so an unset ceiling becomes the tab count and starting over the ceiling with the countdown on disables both; the requests are exactly the write of everything, two badge repaints, and, when the countdown was stored on and the count sits at the ceiling, a start with the configured length and one more repaint |
| Countdown.Started | background.js:329-331 | a started interval lasts the requested number of seconds and has no seconds past |
| Countdown.MinutesRemaining | background.js:334-336 | the minutes shown are the least whole number of minutes covering what is left of the live length |
| Countdown.CountdownTextReadsBack | background.js:337-355 | under a minute the text reads back as the remaining seconds, otherwise as the minutes remaining followed by "m" |
| Countdown.OnTick | background.js:333-358 | at expiry with no slot left the active tab is closed, or the countdown stopped without one; at expiry with a slot free nothing; otherwise the countdown badge when enabled; every tick adds one second |
| Countdown.MinutesAreRoundedUp | background.js:334-336 | with the length unchanged the minutes shown are the remaining seconds divided by 60, rounded up |
| Countdown.Run | background.js:333-358 | a run yields one result per tick |
| Countdown.RunAt | background.js:357 | tick k of a run sees k more seconds past |
| Countdown.CloseOnlyAtExpiry | background.js:339-348 | a tick closes a tab only at expiry, with no slot left and an active tab, and closes only that tab |
| Countdown.AtMostOneClosure | background.js:339-357 | an interval asks for a closure on at most one tick |
| Countdown.ClosesAtExpiry | background.js:339-344 | a fresh interval closes the active tab on the tick with its full length past when no slot is left |
| Scheduler.Clear | background.js:361-363 | clearing removes exactly the intervals under the remembered handle and keeps every other one |
| Scheduler.Launch | background.js:333 | a start appends one interval under the next handle and remembers it; when every issued handle lies below the counter, the new handle is held by no earlier interval and that stays true |
| Scheduler.Apply | background.js:329-363 | a start adds an interval of the requested length under a fresh handle whatever is running; a stop removes exactly the remembered interval; other requests change nothing; issued handles stay issued |
| Scheduler.StopAfterStartKeepsOlderIntervals | background.js:329-363 | a stop right after a start leaves every earlier interval running |
| Scheduler.DoubleStartLeaksAnInterval | background.js:329-363 | two starts and a stop leave one interval running |
| Scheduler.FocusGainLaunches | background.js:245-254 | at capacity with the countdown on, a window gaining focus starts exactly one interval of the configured length |
| Scheduler.FullRemovalClears | background.js:196-198 | with the countdown on, a removal from a full list clears the remembered interval |
| Scheduler.TwoLaunchesThenClear | background.js:329-363 | two starts and one stop leave the first interval running with the second handle remembered |
| Scheduler.FocusTwiceThenRemovalLeaks | background.js:231-259 | two focus changes at capacity and a removal that frees a slot leave the first interval running under a handle no stop will clear |
| Scheduler.GuardedKeepsSingleTimer | background.js:329-363 | with a start ignored while running, at most the remembered interval runs, and a stop leaves none |
| Scheduler.GuardedRunKeepsSingleTimer | background.js:329-363 | over any run of requests the guarded reaction keeps a single timer, and a final stop leaves none |
| Lifecycle.RejectedTabRemovalRestores | background.js:120-206 | a rejected tab is closed alone; its removal restores the previous list, spends the bypass and neither syncs nor repaints |
| Lifecycle.MoveRoundTrip | background.js:214-227 | moving a tab and moving it back restores the state |
| Lifecycle.MoveKeepsDistinctPositions | background.js:214-227 | a move inside a window keeps the window's positions distinct |
| Lifecycle.SingleWindowRemovalKeepsDense | background.js:184-192 | in one window with dense positions a removal keeps positions dense and the other tabs in order |
| Lifecycle.RemovalComparesListPosition | background.js:184-192 | with two windows a removal can leave a gap in a window's positions |
| Lifecycle.MissingRemovalDropsLastTab | background.js:184-192 | removing an untracked id drops the last tab and moves the window's tabs down by one |
| Lifecycle.InitRestoresSnapshot | background.js:33-62 | restarting with the stored snapshot of the open tabs brings every record back, stamping only the focused tab |
| Lifecycle.UrlChangeStampsBackgroundTab | background.js:157-174 | after an activation a url change of another tab leaves two tabs stamped |

## Left out

- The keep-alive workaround (`forceKeepAlive`, the port and tab-update retries) is a host-lifetime concern with no effect on the engine's state.
- The Chrome calls (tabs, windows, storage, action) are not modelled. Requests are results and answers are parameters. Failures and `console` output are not modelled.
- Awaits and interleaving are not modelled. A listener runs to completion on the state it started with.
- `Date.now()` is read once per event. The few milliseconds between two reads inside one listener are not modelled.
- The `setInterval` period is not modelled. A tick is one call of `OnTick`.
- In the tick, `secondsPast` is incremented after the awaited active-tab query. The model increments it within the same step.
- `countdown` and `maxTabs` are integers. Fractional minutes are not modelled.
- Storage keys the config does not hold have no modelled effect. This includes `tabs`, which the program copies into its config but never reads from there. A deleted key (`newValue` undefined) is not modelled.
- `popup.js` is not part of this model. It writes `countdown` in seconds, while the engine reads it as minutes.
- `defaults.js` is not part of this model. The defaults are a parameter of `Init`.
- Engine.OnCountdownChanged: the badge shows the new length as the decimal text of an integer. The program uses JavaScript's `toString` of any number.
- Countdown.Run: states only the number of results. The per-tick content is stated by `Countdown.RunAt`.

## Findings

| source | as written | input that shows it | evidently intended | confidence | as-written member | corrected member |
|---|---|---|---|---|---|---|
| background.js:329-363 | `startCountdown` creates a new interval and overwrites `countdownInterval` without clearing a running one; `stopCountdown` clears only the last | countdown on and at capacity; two window-focus changes each start the countdown (lines 251-253); a removal then stops it (lines 196-197) and the first interval keeps ticking, keeps repainting the badge, and closes the active tab at its own expiry if no slot is free then | at most one countdown runs: a start while one runs does nothing, and a stop leaves none | not executed | Scheduler.FocusTwiceThenRemovalLeaks | Scheduler.GuardedRunKeepsSingleTimer |
