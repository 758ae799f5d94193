# V2EX daily bonus extension: a Dafny model of its logic

The extension runs two timer-driven routines against the V2EX forum. The
check-in routine opens the daily mission page and probes it for the claim
button. The browsing routine fetches the `/recent` listing, picks topic ids
from its links and opens each topic for a while. Both routines record their
progress in one `daily_stats` record in local storage. The popup reads that
record and displays it.

This project models the logic inside that host plumbing:

- `js.dfy` (module `Js`): optional record fields and JavaScript truthiness
  (`x || 0`, a truthy string).
- `daily_stats.dfy` (module `DailyStats`): the stored record, the merge that
  `updateDailyStats` performs (day rollover, partial update, visit increment),
  a `LocalStorage` class whose method performs that read-merge-write in place,
  and the effect of `n` successive visit increments.
- `topics.dfy` (module `Topics`): the topic-link pattern
  `href="/t/<digits>(#<word chars>)?"` as a scanner that never backtracks.
  It covers the global `matchAll` scan (resume at a match's end, otherwise
  one character on), de-duplication in first-seen order (a JavaScript `Set`)
  and `slice(0, topicCount)`, including a negative count.
- `background.dfy` (module `Background`): settings defaults, alarm set-up
  and dispatch, event routing, the check-in probe's decision, the check-in
  routine, the per-topic visit loop and the browsing routine.
- `popup.dfy` (module `Popup`): the record the popup chooses for its own
  date key, the status table, and the `PopupView` class whose `UpdateUI`
  writes the status, counter, activity bar and time fields.

Host inputs are parameters:

- the stored record;
- the two date keys, which are opaque strings;
- the fetched listing text, or `None` when the fetch fails;
- whether the claim tab opened, and how the probe's injection ended (rejected, resolved without a result, or the page the probe saw);
- the set of topic ids whose visit throws;
- the two date formatters.

The background script's date key (`toLocaleDateString`) and the popup's
(UTC `toISOString().slice(0, 10)`) are separate parameters. The comment at
popup.js:2 says they match, but they need not. `Popup.PopupAfterMerge`
shows the consequence: under a different key, the popup shows "no data"
right after a merge.

Some behaviour of the code that the model reproduces:

- The probe reports `'claimed'` both when it finds and clicks the claim button and when the page already says the bonus was claimed.
- A check-in runs whenever it is triggered, even when the day's record already says `'claimed'`.
- The background script writes only `date`, `bonus_status` and `visit_count`. The popup's activity-bar and time fields show values only when something else stored them.
- The listing response is scanned whatever its HTTP status.
- If script injection rejects, the tab stays open. The rejection happens inside a timer callback, outside the routine's `try`, so the `tabs.remove` timer is never set. If injection resolves without a result, nothing is recorded, but the tab is still closed.

## Model

| member | source | states |
|---|---|---|
| `DailyStats.Merge` | background.js:68-83 | The merged record always carries today's key. An absent or stale record is replaced, and its activity fields and `last_updated` are dropped. `bonus_status` takes the update's value exactly when that value is truthy; otherwise it keeps the day's value (`'unknown'` after a rollover). `increment_visit` gives the day's count plus one, an absent count reading as 0; without it the count is kept (0 after a rollover). On the same day the activity fields and `last_updated` are unchanged. |
| `DailyStats.LocalStorage.UpdateDailyStats` | background.js:68-83 | The read / roll over / apply / write sequence, done in place on the stored record, leaves exactly `Merge(old record, key, update)` in storage. |
| `DailyStats.IncrementsAddUp` | background.js:80 | `n > 0` increments on one day give the day's base record with count `base + n`; at most the first one rolls over, and nothing else changes. |
| `Topics.RunLength` | background.js:144 | Greedy `\d+` / `\w+`: the run is all in the class and is followed by the end of the text or a character outside it. |
| `Topics.MatchLink` | background.js:142-144 | A reported match is a real link at the start of the text: a non-empty digit id, an empty fragment or `#` plus one or more word characters, then the closing quote. |
| `Topics.MatchLinkComplete` | background.js:144 | Every link the pattern accepts at the start of the text is the one `MatchLink` reports, with the same id and fragment. So any other suffix before the quote matches nothing, and the non-backtracking scanner agrees with the regular expression. |
| `Topics.ScanDigits` | background.js:144-145 | Every id the scan captures is a non-empty string of decimal digits. |
| `Topics.ScanSound` | background.js:144-145 | Every captured id comes from a topic link somewhere in the text. |
| `Topics.ScanComplete` | background.js:144-145 | Every topic link in the text, anywhere, has its id captured by the scan: no link can start inside an earlier match. |
| `Topics.LinksDoNotOverlap` | background.js:144 | A link that starts after the start of another link starts at or after that link's end. |
| `Topics.ScanFindsLinks` | background.js:144-145 | `matchAll` captures an id if and only if that id stands in a topic link of the text. |
| `Topics.ScanLink` | background.js:144-145 | A text that starts with a link scans to that link's id, followed by the scan of the rest (the scan resumes at the match's end). |
| `Topics.Dedup` | background.js:147-149 | The result is duplicate-free and has exactly the input's ids. They appear in order of first occurrence in the input. |
| `Topics.TopicIds` | background.js:145-150 | The selected ids are distinct digit strings and form a prefix of the de-duplicated list. For `topicCount >= 0` the prefix has length `min(topicCount, #unique)`. |
| `Topics.TopicIdsFromLinks` | background.js:144-150 | Every selected id stands in a topic link of the listing. |
| `Topics.DedupAndLimitExample` | background.js:144-150 | Links for a, b#fragment, a, c with a limit of 2 select exactly `[a, b]`. |
| `Background.GetSettings` | background.js:25-31 | Each unset key takes its default (no startup check-in, 3 hours, 60 minutes, 8 topics); a set key is used as stored. |
| `Background.OnAlarm` | background.js:60-66 | `daily_checkin` starts the check-in routine, `periodic_browse` starts the browsing routine, and any other name starts nothing. |
| `Background.SetupAlarms` | background.js:41-57 | Earlier alarms are cleared. Exactly the two named alarms exist afterwards, and each dispatches to its routine. Check-in fires every `checkInInterval * 60` minutes and browsing every `browsingInterval` minutes. |
| `Background.DefaultSchedule` | background.js:7-12 | With nothing saved, check-in fires every 180 minutes and browsing every 60, with 8 topics per pass and no startup check-in. |
| `Background.Handle` | background.js:15-39 | Alarms are re-armed exactly on install or a `SETTINGS_UPDATED` message. Check-in runs exactly on its alarm or at startup with `checkInOnStartup`. Browsing runs exactly on its alarm. |
| `Background.ProbeStatus` | background.js:96-110 | The probe answers `'claimed'` if and only if the button exists or the already-claimed text is present. Otherwise it answers `'maybe_claimed'`. |
| `Background.CheckInRecordsProbe` | background.js:113-115 | The probe's answer is truthy, so merging it records it exactly. On the same day, the visit count is untouched. |
| `Background.ProbeResult` | background.js:94-115 | A resolved injection yields a truthy result exactly when the probe answered, and that result is the probe's status. |
| `Background.PerformCheckIn` | background.js:85-125 | If the tab fails to open, the record is unchanged and no tab is closed. If the injection rejects, the record is unchanged and the tab stays open. If it resolves without a result, the record is unchanged but the tab is closed. Otherwise the probe's status is merged under today's key and the tab is closed. |
| `Background.CompletedMembers` | background.js:155-172 | The completed visits are exactly the selected ids that do not fail. |
| `Background.CompletedCount` | background.js:155-172 | Over distinct ids, the number of completed visits is the number of distinct ids outside the failing set. |
| `Background.VisitTopics` | background.js:155-172 | The loop sends one increment per id whose visit completes. A failing id is skipped and does not stop the rest. The record ends as `Increments(old, today, #completed)`. |
| `Background.PerformBrowsing` | background.js:127-179 | If the fetch fails, the record is unchanged. Otherwise the record receives one increment for each selected topic id that does not fail. |
| `Background.BrowsingPassCount` | background.js:155-172 | A pass over distinct ids raises the day's count by the number of ids that did not fail, and changes nothing else of the day's record. |
| `Popup.ShownStats` | popup.js:3-14 | The popup shows the stored record only when its `date` equals the popup's key. Otherwise, including when no record is stored, it shows `{bonus_status: 'unknown', visit_count: 0}` with no activity or time fields. |
| `Popup.PopupAfterMerge` | popup.js:3-14 | Right after a merge under the background script's key, the popup shows the merged record if its own key is equal, and shows no data if the keys differ. |
| `Popup.StaleRecordShowsDefaults` | popup.js:9-11 | A stale or missing record displays status '未知' / `status-unknown`, count 0, the default activity bar and the waiting placeholder. |
| `Popup.LabelFor` | popup.js:21-34 | `'claimed'` gives '已领取' / `status-claimed`. `'unclaimed'` gives '未领取' / `status-unclaimed`. `'maybe_claimed'` gives '可能已领取' / `status-claimed`. The class is `status-claimed` exactly for those two statuses. Any other value, present or missing, gives '未知' / `status-unknown`. |
| `Popup.PopupView.UpdateUI` | popup.js:17-78 | The view then shows the status text and `value <class>`, and the count `visit_count` (0 when falsy). A missing bar class resets the bar to `member-activity-start` with width `0%`. A truthy bar style replaces the whole style. With `last_updated`, the time fields are the formatted values and the old line is cleared. Without it, both time fields show `--` and the line reads '等待数据更新...'. |
| `Popup.PopupView.Load` | popup.js:1-16 | After loading, the view shows `ShownStats(stored, popup key)`. |

## Left out

- All `chrome.*` calls (storage, alarms, tabs, scripting, runtime messages) and `fetch` are host APIs. Their results are parameters. The alarms are modelled as the map that `setupAlarms` leaves behind.
- `setTimeout` delays and the random dwell time in [5, 10) seconds are timing only. Only whether a visit completes matters.
- Background.VisitTopics: it applies the increments one after another. The source does not await `updateDailyStats`, so two increments, or an increment and a check-in merge, can interleave and lose an update. That is concurrency.
- Background.PerformBrowsing: one date key is used for the whole pass. The source reads the clock at each `updateDailyStats` call, so a pass that crosses midnight can roll over midway.
- Date and time formatting (`toLocaleDateString`, `toISOString`, `toLocaleString`) is locale and library behaviour. Date keys are opaque strings, and the formatters are function parameters.
- DOM lookup is not modelled: the probe's `querySelector` and `innerText`, and `getElementById` in the popup. The probe is reduced to its two booleans. The popup's optional time elements are taken as present in popup.html, which is not part of this model.
- The button `click()` is left out: its effect on the site is outside the extension.
- Record fields are typed. `visit_count` is a natural number, `last_updated` an integer timestamp (truthy when non-zero), and the other fields are strings. JavaScript values of other types in storage are not modelled.
- Settings are integers. A `NaN` from `parseInt` in options.js, stored as `null`, is not modelled. options.js is form I/O and is not part of this model.
- Console logging is left out.
