# fansMedalHelper: a Dafny model of the task engine

fansMedalHelper keeps a Bilibili account's fan medals lit. It does this with
three daily tasks per medal:

- a burst of likes while the streamer is live;
- a burst of danmaku (chat messages) while the streamer is offline;
- a watch session that sends heartbeats until the platform reports enough
  watched minutes.

This project models the core of that engine in Dafny and proves properties
of the model:

- `UidParse`: the whitelist / blacklist normaliser `_parse_uid_input`. It
  handles lists, comma-separated strings, bracketed reprs and scalars. The
  model includes a Python-`int()` literal parser and the first-digit-run
  fallback.
- `Ledger`: the daily completion ledger. This covers `_clean_old_logs`,
  `_is_task_done` and `_mark_task_done`, with the JSON file modelled as a
  value.
- `Medals`: `get_medals`. It indexes the remote listing by target id (a
  Python dict), selects by whitelist or blacklist, and builds the like,
  danmaku and watch queues.
- `Burst`: `like_room` and `send_danmaku`. Each runs `times` units, and each
  unit is tried up to three times. The first danmaku unit carries the
  check-in text.
- `Watch`: `get_next_watchable` (a scan that drops settled medals) and the
  `watch_room` polling loop.
- `TaskPass`: one round of `task_loop`. The like sweep runs over live rooms
  and the danmaku sweep over the other rooms. Guard-less medals are paired
  across the two queues. One watch session follows.
- `Config`: the start-up checks in `main.py`. These are the five setting
  assertions, the shared config dictionary, and one account per user entry
  that has an access key.
- `Text`, `Seqs`, `Wrappers`: string helpers (digits, strip, split/join,
  decimal printing), sequence helpers, and `Option`/`Result`.

Remote calls are oracles passed in as parameters:

- **Snapshot queries are maps.** Room live status is keyed by room id, with
  one map for each place `task_loop` asks for it, and
  watch progress in `get_medals` and `get_next_watchable` is keyed by UID. A
  missing key means the call raised.
- **Repeated calls are functions of the call number.** These are the burst
  API calls, the progress polls of `watch_room` and its heartbeats.

## Model

| member | source | states |
|---|---|---|
| UidParse.ParseUidInput | src/user.py:42-79 | a falsy input gives `[]`, and a value of an unsupported type gives `[]` without raising. The result is never longer than the input list or the comma-separated pieces of the text. A scalar gives at most one UID: a nonzero integer `n` gives `[n]` and `True` gives `[1]` |
| UidParse.ParsePart | src/user.py:63-72 | a part yields nothing exactly when it has no ASCII digit. When `int()` accepts the part, its value is the result; otherwise the result is the value of the part's first run of digits |
| UidParse.FirstDigitRun | src/user.py:69-71 | `re.search(r"(\d+)")` finds a run exactly when the text holds a digit, and the value found is that of a leftmost maximal run of digits |
| UidParse.FirstRunIsScan | src/user.py:69-71 | a text has only one leftmost maximal run of digits, and it is the run the scan returns |
| UidParse.IntLiteral | src/user.py:64-65 | every text `int()` accepts contains a digit, so the regex fallback is only reached for text `int()` rejects |
| UidParse.IntLiteralShowInt | src/user.py:65 | `int()` inverts the decimal printing of every integer, negative ones included |
| UidParse.ParseListAppend | src/user.py:45-53 | the list branch keeps order and drops items independently: parsing `a + b` gives the parse of `a` followed by the parse of `b` |
| UidParse.ParsePartsAppend | src/user.py:63-73 | the string branch keeps the order of the comma-separated parts in the same way |
| UidParse.IntListRoundTrip | src/user.py:45-53 | any list of integers comes back unchanged |
| UidParse.TextListRoundTrip | src/user.py:45-53 | any list of decimal strings parses back to the integers they print |
| UidParse.CommaTextRoundTrip | src/user.py:56-73 | the text `"1,2,3"`, printed from any UID list, parses back to that list |
| UidParse.ReprRoundTrip | src/user.py:56-73 | Python's repr of any UID list, such as `"[1, 2, 3]"`, parses back to that list. Brackets, spaces and the empty list are all handled |
| UidParse.Unwrap | src/user.py:58-60 | stripping whitespace and then brackets or quotes removes exactly one pair of brackets around a core that does not itself start or end with one |
| Text.SplitJoin | src/user.py:61 | splitting at a separator undoes joining pieces that do not contain it |
| Text.JoinSplit | src/user.py:61 | joining the pieces of a split gives back the original text |
| Text.ShowNatRoundTrip | src/user.py:65 | the decimal value of the printed digits of `n` is `n` |
| Ledger.CleanOldLogs | src/user.py:116-128 | the dates kept are exactly today's, if it was present, with its entries untouched; every other date's entries become empty, and `_is_task_done` gives the same answer for today before and after |
| Ledger.MarkTaskDone | src/user.py:130-134 | today's list for the task gains the UID at its end. Every other (date, task) list is unchanged, and today becomes a key |
| Ledger.MarkThenDone | src/user.py:125-134 | after a mark, `_is_task_done` answers true exactly for what was done before plus the marked (today, UID, task) |
| Medals.IndexMedals | src/user.py:156-157 | the dict's keys are exactly the listed target ids, without repeats, and each key holds a medal with that target id |
| Medals.IndexHoldsListed | src/user.py:156-157 | every value in the dict is a medal from the listing |
| Medals.IndexLastWins | src/user.py:156-157 | a target id listed several times maps to its last listed medal |
| Medals.IndexFirstSeenOrder | src/user.py:156-157 | keys iterate in the order their target id first appears in the listing |
| Medals.SelectMedals | src/user.py:159-184 | with a whitelist, the selection is exactly the whitelisted medals that have `anchor_info`. Without one, it is exactly the listed medals with `anchor_info` that are not blacklisted, with no repeats |
| Medals.FromWhitelistAppend | src/user.py:159-171 | the whitelist branch follows whitelist order |
| Medals.FromListingAppend | src/user.py:172-184 | the listing branch follows dict order |
| Medals.BuildQueues | src/user.py:186-208 | the like and danmaku queues hold exactly the medals not yet in today's ledger for that task. The watch queue holds exactly the medals whose progress query answered with less than the target. Listing order is kept |
| Burst.RunBurst | src/user.py:223-239 | each of the `times` units makes one to three calls, and every call except a unit's last fails. A unit that fails three times is abandoned. The calls receive exactly the oracle's answers in order, and the success counter counts the units whose last call succeeded. The text of each call is chosen per unit, as `UnitTexts` lays out |
| Burst.UnitTextsLead | src/user.py:256-261 | numbering calls across the whole burst, the calls of the first unit carry the text and no later call carries any |
| Burst.AllSucceed | src/user.py:223-239 | when no call fails, the burst makes exactly `times` calls and all of them succeed |
| Burst.LikeRoom | src/user.py:214-241 | a like already in today's ledger makes no call. Otherwise a full burst runs |
| Burst.SendDanmaku | src/user.py:246-275 | a danmaku already in today's ledger makes no call. Otherwise every call of the first unit, retries included, carries the check-in text, and every later call carries none |
| Burst.FirstUnitLeads | src/user.py:256-261 | the first unit's calls are the first calls of the burst |
| Watch.GetNextWatchable | src/user.py:279-299 | the pick is the first medal whose progress is below the target and whose room answered with a status other than rotation. Settled medals before it leave the queue. Medals whose queries failed stay, and so does the picked medal. Nothing is added |
| Watch.WatchRoom | src/user.py:302-343 | the outcome and heartbeat count are those of `WatchSession`, the round-by-round reference definition. A failed first poll returns False with no heartbeat. Every heartbeat followed a below-target poll, and at most `max(0, WATCH_MAX_ATTEMPTS)` are sent. True means the target was reached or the cap was hit. False means a poll or heartbeat failed |
| Watch.WatchSucceedsWithoutFailures | src/user.py:316-343 | when every poll and heartbeat answers, `watch_room` returns True |
| Watch.SessionSucceeds | src/user.py:320-343 | with every call answering, a session returns True, and if it stops at the cap it has sent exactly the capped number of heartbeats |
| Watch.DropSettledMembers | src/user.py:289-292 | the medals the scan drops are exactly the settled ones |
| TaskPass.CompleteEffect | src/user.py:379-383 | a completed medal leaves its queue once and is marked done. A guard-less medal still queued for the other task is also removed from that queue and marked done. Otherwise the other queue and other days stay unchanged |
| TaskPass.Sweep | src/user.py:365-404 | a sweep that ends without a fault had a status answer for every medal of its copy, and a status fault names a room that had none. It makes at most one burst per medal and leaves the watch queue alone |
| TaskPass.SweepQueue | src/user.py:365-374 | a sweep never hits a `list.remove` of a missing medal. It faults exactly when some room's status query raised. Otherwise the queue keeps exactly the medals whose rooms were not eligible, in order |
| TaskPass.SweepActs | src/user.py:370-377 | every burst is for a medal whose room answered with an eligible status, with the unit count for that medal's guard level. A sweep without a fault makes one burst per eligible medal, in queue order |
| TaskPass.SweepSkips | src/user.py:377-380 | today's ledger gains the burst UIDs in order. With one account writing the ledger, a burst is a no-op exactly when its UID was already recorded before the sweep or earlier in it |
| TaskPass.SweepGrows | src/user.py:379-383 | a sweep only appends to the ledger |
| TaskPass.SweepOther | src/user.py:381-383 | a sweep only removes medals from the other task's queue, and never a guard's medal |
| TaskPass.BothSweeps | src/user.py:365-404 | the danmaku sweep runs only when the like sweep did not fault. A round without a fault had a like-sweep status answer for every queued like, a status fault names a room missing from one sweep's answers, and the watch queue is untouched |
| TaskPass.SweepsLeaveWaiting | src/user.py:365-404 | after both sweeps, every queued like is for a room whose like-sweep answer was not live, and every queued danmaku is for a room whose danmaku-sweep answer was live. Any fault is a failed status query |
| TaskPass.SweepsBursts | src/user.py:365-404 | every burst of the round is for a medal whose room was live (likes) or not live (danmaku) in its own sweep's answers, with the unit count for its task and guard level |
| TaskPass.SweepsBookkeeping | src/user.py:365-404 | the two sweeps only append to the ledger and only remove medals from the like and danmaku queues |
| TaskPass.RunPass | src/user.py:365-415 | a round is the two sweeps and then, unless a status query raised, one watch session. The watched medal is the first watchable one of the watch queue, and the session's outcome and heartbeats are `WatchSession`'s. The watch queue becomes what the scan left, minus one copy of the watched medal exactly when `watch_room` returns True. It never gains a medal |
| Config.LoadConfig | main.py:27-39 | an accepted config satisfies all five assertions and carries the values over unchanged. A missing or negative `LIKE_CD` is reported first |
| Config.LoadConfigExact | main.py:27-39 | a complete set of settings is accepted exactly when it passes the assertions |
| Config.MissingKeyReported | main.py:27-39 | any missing key stops start-up. A missing-key error names the first absent key in the order the assertions read them, and with every key present only a failed assertion can stop start-up |
| Config.StartAccountsCovers | main.py:72-80 | every user entry with a truthy access key gets its account |
| Config.StartAccountsExact | main.py:72-80 | there are exactly as many accounts as entries with a key, and each account comes from such an entry |
| Config.StartAccountsAppend | main.py:72-80 | accounts start in list order |

## Left out

- I/O:
  - reading and writing `task_log.json`;
  - `users.yaml` / `USERS` loading;
  - logging and log messages;
  - the clock (`today` is a parameter);
  - every sleep and cooldown. This covers `LIKE_CD` and `DANMAKU_CD`, the 1 s and 5 s retry pauses, and the 60 s waits.
- Concurrency: `asyncio.gather` runs every account at once (main.py:86). All accounts share one `task_log.json` (src/user.py:102-103), whose entries are keyed only by date, task and UID (src/user.py:133). The model covers one account and treats the ledger as written by that account alone.
- TaskPass.SweepSkips: the "exactly when" holds for a single account. With two accounts holding a medal of the same streamer, another account's mark can make this account's burst a no-op (src/user.py:219, 252), or keep the medal out of its queues when `get_medals` runs (src/user.py:192-201). The model's ledger holds only this account's marks, so such a no-op is not predicted.
- Login, wearing medals, the update checker, notifications and the remote API client: these lie outside the core, and the core reaches them only through the oracles.
- `start` and its restart (src/user.py:422-462): they sequence login, `get_medals` and `task_loop` and then restart. Only the parts they sequence are modelled.
- The day-rollover check at the top of each `task_loop` round (src/user.py:352-362). It restarts the whole pipeline, which is outside a single round.
- Only one round of `task_loop` is modelled, not the outer loop that repeats rounds until the queues empty.
- TaskPass.RunPass: room status is one snapshot map per query site: the like sweep (src/user.py:370), the danmaku sweep (src/user.py:391) and `get_next_watchable` (src/user.py:293). Within one sweep a room answers the same way each time it is asked, while the source asks afresh for each medal.
- TaskPass.RunPass: bursts are recorded as `BurstCall`s (task, medal, unit count, and whether the ledger made the call a no-op) rather than executed. Their calls are what `Burst` models.
- Config.LoadConfig: settings are integers. Floats such as a `0.3` cooldown, booleans (`True == 1` passes the `WEARMEDAL` check) and non-numeric values, which raise `TypeError` on comparison, are not modelled.
- UidParse.IntLiteral: `int()` is modelled as ASCII whitespace, an optional sign and ASCII digits. Underscores, non-ASCII digits and whitespace, and float items (whose `int()` truncates) are not modelled. `\d` is likewise taken as ASCII digits.
- Medals.SelectMedals: every listing entry with a truthy `anchor_info` is assumed to carry `nick_name`. `get_medals` keeps an entry without one (src/user.py:164, 177), and `like_room` and `send_danmaku` would then raise `KeyError` on it (src/user.py:215, 247).
- UidParse.ParseUidInput: a tuple is the same as a list, and any other unsupported value type is a single `OtherInput`.
- UidParse.ParseUidInput: CPython's limit of 4300 digits on converting text to `int` is not modelled. Under it, a longer digit run found by the regex raises out of `_parse_uid_input` (src/user.py:71 is outside any `try`), and a longer text item of a list is skipped (src/user.py:48-52). The model reads both.

## Behaviour notes

Facts about the code that the model follows:

- A like burst for a guard-less medal has 36 units (src/user.py:376).
- A medal whose room is not eligible stays queued and is checked again in the next round (src/user.py:371-374, 392-395).
- `watch_room` returns True when the attempt cap is hit (src/user.py:332-334), so the medal leaves the watch queue (src/user.py:411-412).
- A failed poll or heartbeat returns False (src/user.py:316-318, 324-326, 338-340), and the medal stays where it is in the watch queue.
- A status query that raises inside `task_loop` is not caught (src/user.py:370, 391). The model ends the sweep with a `StatusFailed` fault and runs no watch session.
