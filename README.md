# World Boss Reminder — alert pipeline model

A Dafny model of the alert pipeline of a Discord bot that watches one channel
for "World Boss" announcements and, a configurable lead time before the boss
spawns, pings a role. The bot is a single file, `index.js`. Its logic has two
halves, modelled here:

* **Ingestion** (`messageCreate` handler). The handler flattens a message into
  one string (`extractText`), ignores messages from other channels, lowercases
  the text, and requires the phrase `world boss`. It then reads the number in
  the first match of `/(\d+)\s*minutes?/` and computes
  `runAt = now + max(0, minutes - PING_BEFORE_MINUTES) * 60000`. The result is
  inserted into the `alerts` table with `ON CONFLICT (source_message_id) DO NOTHING`.
  These steps are pure functions returning `Option` (modules `Text` and
  `Detector`). The insert is a method of the table (module `Handler`).
* **Dispatch** (`startWorker`). Every 10 seconds the worker selects the rows with
  `fired_at IS NULL AND run_at <= now`. For each of them it fetches the channel,
  sends the reminder and stamps `fired_at`. A failure of any of these steps is
  caught for that row alone. The table is a class (`Alerts.AlertTable`) holding
  a map from `source_message_id` to the row, plus the `SERIAL` counter. It has
  the methods `InsertIfAbsent`, `Due` and `MarkFired`. The worker tick
  (`Worker.Tick`) is a loop over the selected rows.

Inputs that come from outside are parameters:
* the clock (`now`, and the `Date.now()` reading stored in `fired_at`);
* the configuration (`WATCH_CHANNEL_ID` and `PING_BEFORE_MINUTES`, default 5);
* how handling each selected row ends (`Worker.Attempt`): the fetch or send
  threw, the reminder was sent and stamped at a given clock reading, or the
  reminder was sent but the `UPDATE` threw.

The model follows the code as written, including where a stricter design would differ:
* Due rows are read with a plain `SELECT` and stamped later by a separate
  `UPDATE`. There is no atomic claim.
* The `UPDATE` has no `fired_at IS NULL` guard. Inside a tick it only ever
  touches rows that were selected as pending.
* `fired_at` is a fresh clock reading, not the tick's `now`.
* A reminder that was sent but whose `UPDATE` failed stays pending and is sent
  again on the next tick.

## Model

| member | source | states |
|---|---|---|
| `Text.Trim` | index.js:85-93 | the result is the input with leading and trailing whitespace removed: a slice of the input, whitespace only outside it, none at its ends |
| `Text.TrimUnique` | index.js:93 | that characterisation determines the trimmed string uniquely |
| `Text.TrimIgnoresTrailingSpace` | index.js:85-93 | appending whitespace does not change the trimmed result |
| `Text.ToLower` | index.js:104 | same length; each character is lowercased (ASCII capitals), every other character kept |
| `Text.ToLowerIdempotent` | index.js:104 | no capital survives lowercasing, so lowercasing twice equals once |
| `Text.Contains` | index.js:106 | true exactly when the pattern occurs at some index |
| `Detector.ExtractText` | index.js:82-94 | the trim of content + " " + title + " " + description + " " + footer text of the first embed, each absent part read as "" |
| `Detector.ExtractTextWithoutEmbeds` | index.js:82-94 | a message without embeds yields its trimmed content |
| `Detector.MatchAtCanonical` | index.js:108 | a match of `/(\d+)\s*minutes?/` is fixed by its start: group 1 is the whole digit run, followed by the whole whitespace run |
| `Detector.ScanMinutesFindsFirst` | index.js:108 | scanning digit run by digit run from any index finds the leftmost match after it, or proves there is none |
| `Detector.FindMinutesIsFirstMatch` | index.js:108-114 | the parsed minutes are `v` exactly when the first regex match's group 1 reads `v`; nothing is parsed exactly when no match exists |
| `Detector.DecimalRoundTrip` | index.js:114 | `parseInt` of the decimal numeral of `n` is `n` |
| `Detector.AnnouncedMinutes` | index.js:108-114 | text "…N<whitespace>minute…" with no digit before N yields N |
| `Detector.RunAt` | index.js:116-118 | `runAt >= now`; `runAt == now` exactly when minutes <= lead; otherwise `runAt - now == (minutes - lead) * 60000`; always a whole number of minutes after now |
| `Detector.Detect` | index.js:102-118 | no alert for another channel, without the keyword, or without minutes; an alert carries the message id, the watched channel, `createdAt == now` and `runAt >= now` |
| `Detector.DetectSpec` | index.js:100-118 | an alert is produced exactly when the channel matches, the lowercased text contains "world boss" and the pattern matches, and it is scheduled from the first match's number |
| `Alerts.StampedChangesOneRow` | index.js:159-162 | with unique ids, `UPDATE ... WHERE id = $2` changes only the row with that id, and only its `fired_at` |
| `Alerts.AlertTable.constructor` | index.js:43-51 | a new table is empty and valid (unique ids below the counter) |
| `Alerts.AlertTable.InsertIfAbsent` | index.js:120-125 | a present `source_message_id` leaves every row unchanged; otherwise exactly one pending row is added with the given channel, `run_at` and `created_at`; ids stay unique |
| `Alerts.AlertTable.Due` | index.js:144-149 | returns exactly the rows with `fired_at` null and `run_at <= now`, each once |
| `Alerts.AlertTable.MarkFired` | index.js:159-162 | stamps `fired_at` on the row with the given id; nothing else changes |
| `Worker.Settle` | index.js:151-168 | a tick changes a row only when it was due and its send and update succeeded, and then only `fired_at`, set to the update's clock reading |
| `Worker.HandleStep` | index.js:151-168 | handling one more selected row keeps the loop invariant: handled rows settled, the rest untouched |
| `Worker.Tick` | index.js:140-168 | the table after a tick is `AfterTick` of the table before; the reminders sent are exactly the due rows whose send succeeded, each once (distinct ids); a failed row does not stop the loop |
| `WorkerProperties.AfterTickKeepsRows` | index.js:159-162 | a tick keeps every row's id, channel, `run_at` and `created_at`, and keeps ids unique |
| `WorkerProperties.TickStampsExactlySentRows` | index.js:151-168 | a due row whose send and update succeed is stamped; a row not due, or whose fetch, send or update failed, is unchanged |
| `WorkerProperties.FiredRowUnchanged` | index.js:147 | a fired row is never changed by a tick |
| `WorkerProperties.FailedRowStaysDue` | index.js:165-167 | a due row whose fetch, send or update failed stays pending and is selected by the next tick, whatever its clock reading |
| `WorkerProperties.PendingNeverGrows` | index.js:144-162 | after a tick the pending rows are a subset of those before, so their number does not increase |
| `WorkerProperties.RunKeepsFired` | index.js:140-168 | over any sequence of ticks a fired row keeps its stamp, and ids stay unique |
| `WorkerProperties.NeverResent` | index.js:144-149 | once fired, no later tick selects a row with that id |
| `WorkerProperties.SentOnce` | index.js:151-162 | a row sent and stamped in one tick is notified in that tick and selected by no tick after it |
| `WorkerProperties.RunPendingNeverGrows` | index.js:140-172 | over any sequence of ticks the pending rows only shrink |
| `Handler.HandleMessage` | index.js:100-133 | a message `Detect` rejects leaves the table unchanged; an accepted one is inserted as a pending row unless its id is already present; the `SERIAL` counter advances by one either way |
| `Handler.WorldBossAnnouncement` | index.js:100-125 | "World Boss spawning in 10 minutes" with lead 5 schedules the reminder 5 minutes after `now` |
| `Handler.ReminderFiresAtDueTime` | index.js:140-168 | that reminder is neither sent nor changed by a tick at `now`; a tick at `now + 5 min` sends it and stamps it |

## Left out

- Discord client (`client.on`, `channels.fetch`, `channel.send`, `client.login`): foreign I/O. Each selected row's fetch, send and update outcome is an input (`Worker.Attempt`).
- The notification text (`⏰ <@&ROLE> World Boss spawnando em N minutos!`) and all console logging: output only, no effect on state.
- PostgreSQL connection, SSL settings, `initDB` and SQL as text: only the table's semantics is modelled. Errors of the `INSERT` and of the worker's `SELECT` are caught and logged by the code. The model leaves them out: a failed `INSERT` stores nothing, and a failed `SELECT` skips the tick.
- Configuration loading (`dotenv`, the required-variable check, `process.exit`): startup only; the watched channel and the lead time are parameters.
- `setInterval` and overlapping ticks: ticks are sequential calls. The code's select-then-update is not atomic, so two overlapping ticks could both send one reminder. This concurrency is not modelled.
- `Date.now()`: the clock is a parameter.
- Unicode: `toLowerCase`, `trim` and `\s` are modelled on ASCII only. Letters outside A-Z are not lowercased, and only space, tab, line feed, vertical tab, form feed and carriage return count as whitespace.
- JavaScript numbers: integers are unbounded. `parseInt` precision loss beyond 2^53 and a `NaN` lead time are not modelled.
