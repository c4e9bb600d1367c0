# Task sync and temporal rings — a Dafny model

This project models the server core of a task planner that syncs with offline clients. It covers three parts:

- **The task routes' store logic** (`src/routes/tasks.ts`):
  - direct create, list and delete of one task;
  - the two sync endpoints. `/sync/update` applies a client's queued upserts one item at a time with `INSERT ... ON CONFLICT (id) DO UPDATE`. `/sync/delete` deletes a client's queued ids one at a time and echoes them back.
- **The temporal rings** (`src/utils/temporal_rings.ts`): a time-aware sample of one user's tasks.
  - Ring 1 is up to three of today's tasks, those closest to now.
  - Ring 2 is at most one task from each of the three previous days.
  - Ring 3 is at most one task from the same weekday one, two and three weeks back.
  - Each per-day pick is the task whose time of day is closest to now's. Any failure gives three empty rings.
- **The ring formatter** (`formatTemporalTasks` in `src/utils/create_prompt.ts`): it turns the rings into a text block. When every ring is empty it returns a fixed sentence instead.

Modules:

- `Common` (`common.dfy`): `Option`, `Millis` and `Abs`.
- `TaskModel` (`task_model.dfy`): the task row, the client payload, and the insert values. The class `TaskTable` holds the table as a `map<Id, Task>` together with the four store statements the handlers use.
- `Tasks` (`tasks.dfy`): the handlers as methods over a `TaskTable`. The two sync loops are proved against the specification functions `UpsertPrefix` and `DeletePrefix`, and the promised properties are lemmas about those functions.
- `TemporalRings` (`temporal_rings.dfy`):
  - `Date` as a class `Clock` whose `setHours` and `setDate` update it in place;
  - `getDateRange` as a method;
  - each query as filter, then a stable sort by the `ORDER BY` key, then take (the functions `Candidates`, `SortByKey` and `Closest`);
  - the ring assembly as the method `GetTemporalRings`, proved equal to the function `Rings`.
- `CreatePrompt` (`create_prompt.dfy`):
  - `formatList` as the functions `FormatList`, `Lines` and `Join`;
  - `String.prototype.trim` as `Trim`;
  - `formatTemporalTasks` as a method that builds its text with three appends.

Conventions:

- The authenticated caller is an `Option<Uid>`. `None`, the "no user" case, is answered with `Unauthorized` before the store is touched.
- Store failures are parameters: `fails(i)` for batch item `i`, or a `fails` flag for a single statement. For the rings there is one `queryFails` flag.
- The id the store chooses for an insert is a parameter `storeIds(i)`.
- Row ids and user ids are opaque values (`type Id`, `type Uid`) that the model only compares.
- Instants are whole milliseconds in one fixed time zone:
  - a day number is `t / DayMs` and the time of day is `t % DayMs`;
  - `setDate(getDate() - k)` becomes day `- k` at the same time of day.

The code makes the choices below where another policy would also be plausible. The model follows the code:

- Client ids on sync upsert. Keeping the client `id` of an item, for example of a completed one, would update the row it names. The code strips `id` from every item (`src/routes/tasks.ts:131`), so every item is inserted under a store-chosen id. A re-submitted item therefore creates a second row (lemma `Tasks.ResubmissionDuplicates`).
- The conflict set. Overwriting `doneAt` on a conflict would carry a completion to the stored row. The code's conflict set is `title`, `description`, `hexColour`, `dueAt` and `updatedAt` (`src/routes/tasks.ts:145-151`), so the stored `doneAt` survives a conflict (lemma `Tasks.UpsertKeepsOwnership`).
- No `updatedAt` guard. A `WHERE` on `updatedAt` in the conflict clause would keep the newer version. The code has none, so when two items meet on one row the item applied last wins, whatever its `updatedAt` (lemma `Tasks.LastAppliedWins`). Because client ids are discarded, two items meet on one row only when the store hands out the same id twice. Two submissions of one task never do: they give two rows (`Tasks.ResubmissionDuplicates`).
- Direct create keeps a client-supplied `id`, since the whole body is inserted (`src/routes/tasks.ts:60-63`). Only the sync path discards it.

## Model

| member | source | states |
|---|---|---|
| TaskModel.Stamp | src/routes/tasks.ts:131-141 | Defines the insert values of a sync item: the payload's columns with `uid` set to the caller; the client `id`, `pendingUpdate` and `pendingDelete` have no place in them. |
| TaskModel.SameColumns | src/routes/tasks.ts:131 | Defines two payloads that agree on every stored column and may differ in `id`, `uid`, `pendingUpdate` and `pendingDelete`. |
| TaskModel.Row | src/routes/tasks.ts:143-152 | Defines the row an insert creates: the insert values under the given id. |
| TaskModel.CarriesUpdate | src/routes/tasks.ts:145-151 | Defines the conflict `set` list: `title`, `description`, `hexColour`, `dueAt` and `updatedAt` agree with the insert values. |
| TaskModel.UpsertRow | src/routes/tasks.ts:143-152 | The table afterwards is the old table with exactly one row set, at the store's id, and it stays keyed by id. The returned row has that id and carries the item's title, description, colour, due date and update time. |
| TaskModel.UpsertRowKeeps | src/routes/tasks.ts:143-151 | Without a conflict, the row is the stamped item under the store's id. On a conflict, the stored `uid`, `createdAt` and `doneAt` are kept. |
| TaskModel.OwnedBy | src/routes/tasks.ts:83 | Defines the `WHERE uid = owner` selection: the rows whose `uid` is the owner, keyed by id. |
| TaskModel.TaskTable.Insert | src/routes/tasks.ts:63 | A plain insert adds the row under the given id when no row has it. On a primary-key clash it fails and changes nothing. |
| TaskModel.TaskTable.InsertOnConflictUpdate | src/routes/tasks.ts:143-152 | The new table and the returned row are those of `UpsertRow` on the old table. |
| TaskModel.TaskTable.DeleteById | src/routes/tasks.ts:181 | Exactly the row with that id is removed, whoever owns it. A missing id changes nothing. |
| TaskModel.TaskTable.SelectByOwner | src/routes/tasks.ts:83 | Defines the store's select by owner as `OwnedBy` of the current table; what the listing holds is stated by `Tasks.ListTasks`. |
| Tasks.UpsertPrefix | src/routes/tasks.ts:129-155 | After `n` items the table is keyed. Without a failure, `n` rows were returned. After a failure at item `k < n`, exactly `k` rows were returned. |
| Tasks.UpsertFailureSticks | src/routes/tasks.ts:129-155 | Once an item has failed, later items change neither the table nor the returned rows. |
| Tasks.UpsertPrefixOnly | src/routes/tasks.ts:129-155 | The effect of the first `n` items depends only on those items. |
| Tasks.UpsertIgnoresClientFields | src/routes/tasks.ts:131-141 | The client's `id`, `uid`, `pendingUpdate` and `pendingDelete` never reach the store: two batches that differ only in those fields give the same table, the same returned rows and the same failing item. |
| Tasks.UpsertNoFailure | src/routes/tasks.ts:129-155 | If none of the first `n` writes fails, no failure is recorded. |
| Tasks.UpsertAllWritten | src/routes/tasks.ts:129-157 | When every write succeeds, exactly one row per item comes back, in batch order. Row `i` has the store's id for item `i` and item `i`'s overwritten fields. |
| Tasks.UpsertStep | src/routes/tasks.ts:143-154 | After a prefix without failure, a successful write puts one row at the store's id and appends that row to the result. Without a conflict, the row is the stamped item. |
| Tasks.UpsertFailStep | src/routes/tasks.ts:143-157 | After a prefix without failure, a failing write records the failure at that item and changes neither the table nor the returned rows. |
| Tasks.UpsertFreshAbsent | src/routes/tasks.ts:131-152 | An id that is not in the table and that the store chose for none of the first `n` items is still absent after them. |
| Tasks.UpsertWrittenKept | src/routes/tasks.ts:152-154 | While no write fails, the row returned for item `i` stays the row its own write returned. |
| Tasks.UpsertFreshWritten | src/routes/tasks.ts:131-154 | With no failure, and item `i`'s store id new to the table and unused by earlier items, returned row `i` is exactly item `i` stamped with the caller under that id. |
| Tasks.UpsertFreshStored | src/routes/tasks.ts:131-152 | With no failure, and item `i`'s store id new to the table and used by no other item, the table afterwards holds item `i` stamped with the caller at that id. |
| Tasks.UpsertFreshRows | src/routes/tasks.ts:129-157 | The case the route runs, where the store picks a fresh id for every item. With no failure, returned row `i` is exactly item `i` stamped with the caller under the store's id, so it is owned by the caller, and the table holds that same row. |
| Tasks.UpsertKeepsOwnership | src/routes/tasks.ts:143-151 | A row present before the batch is still present, with its owner, creation time and completion time unchanged. |
| Tasks.UpsertNewRowsOwned | src/routes/tasks.ts:135-137 | Every row the batch added belongs to the caller and has an id the store chose for one of the items. |
| Tasks.UpsertUntouched | src/routes/tasks.ts:143-151 | A row whose id the store chose for no item is unchanged. |
| Tasks.UpsertStopsAtFirstFailure | src/routes/tasks.ts:129-162 | If item `k` is the first to fail, the call reports the failure, and the table and returned rows are exactly those of items `0..k-1`. There is no rollback. |
| Tasks.ResubmissionDuplicates | src/routes/tasks.ts:131-143 | The same item submitted twice with two fresh store ids leaves two new rows, one under each id, both holding that item's stamped values, and every old row is untouched. |
| Tasks.LastAppliedWins | src/routes/tasks.ts:143-151 | When two items meet on one row, the later item sets its overwritten fields, whatever the two `updatedAt` values are. Items meet on one row only when the store repeats an id, since the client id is discarded. |
| Tasks.SyncUpdate | src/routes/tasks.ts:120-162 | With no user the call is `Unauthorized` and the table is unchanged. Otherwise the table is `UpsertPrefix` of the whole batch, and the call returns its rows if no write failed and a store failure if one did. |
| Tasks.DeletePrefix | src/routes/tasks.ts:179-184 | Deleting only ever removes rows. Without a failure, `n` ids were echoed. After a failure at id `k`, exactly `k` ids were echoed. |
| Tasks.DeleteFailureSticks | src/routes/tasks.ts:179-190 | Once a delete has failed, later ids change nothing. |
| Tasks.DeleteAllEchoes | src/routes/tasks.ts:179-186 | When no delete fails, the echo is exactly the submitted ids in order, missing ids included. Afterwards a row remains exactly when its id was not submitted, with no owner check, and every remaining row is unchanged. |
| Tasks.DeleteIdempotent | src/routes/tasks.ts:181 | Running the same successful delete batch again leaves the table as it is. |
| Tasks.DeleteStopsAtFirstFailure | src/routes/tasks.ts:179-190 | If the `k`-th delete fails first, the call reports the failure and exactly the first `k` ids stay deleted. |
| Tasks.SyncDelete | src/routes/tasks.ts:170-190 | With no user the call is `Unauthorized` and the table is unchanged. Otherwise the table is `DeletePrefix` of all ids, and the call returns the echoed ids or a store failure. |
| Tasks.CreateId | src/routes/tasks.ts:60-63 | Defines the id a direct create inserts under: the body's id when it has one, else the store's choice. |
| Tasks.CreatedRowListedForCaller | src/routes/tasks.ts:60-83 | After a create, the caller's listing is the old one plus the new row, and every other owner's listing is unchanged. |
| Tasks.CreateTask | src/routes/tasks.ts:54-68 | With no user the call is `Unauthorized`. On a store failure or an id clash the call fails and the table is unchanged. Otherwise the row is the stamped body, owned by the caller, under the body's own id when it carries one, and it is added to the table. |
| Tasks.ListTasks | src/routes/tasks.ts:77-90 | With no user the call is `Unauthorized`, and a store failure is reported. Otherwise the result is exactly the caller's rows. |
| Tasks.DeleteTask | src/routes/tasks.ts:98-111 | With no user the call is `Unauthorized`; on a store failure it reports the store failure; in both cases nothing changes. Otherwise the row with that id is removed, whoever owns it, and a missing row is no error. |
| TemporalRings.DayOf | src/utils/temporal_rings.ts:15-19 | Defines an instant's calendar day as the whole number of days since the epoch in the model's one zone. |
| TemporalRings.TimeOfDay | src/utils/temporal_rings.ts:15-19 | Defines an instant's time of day as the milliseconds since the start of its day. |
| TemporalRings.DayStart | src/utils/temporal_rings.ts:15-16 | Defines `getDateRange`'s `start`: 00:00:00.000 of the day. |
| TemporalRings.DayEnd | src/utils/temporal_rings.ts:18-19 | Defines `getDateRange`'s `end`: 23:59:59.999 of the day. |
| TemporalRings.DayOfStartPlus | src/utils/temporal_rings.ts:15-19 | An instant `r` ms into a day lies on that day, at time of day `r`. |
| TemporalRings.Clock.SetHours | src/utils/temporal_rings.ts:16-19 | `setHours` keeps the day and sets the time of day from hours, minutes, seconds and milliseconds. |
| TemporalRings.Clock.SetDay | src/utils/temporal_rings.ts:37-43 | `setDate` moves to the given day number and keeps the time of day. |
| TemporalRings.GetDateRange | src/utils/temporal_rings.ts:13-22 | `start` is 00:00:00.000 and `end` is 23:59:59.999 of the date's day, so `start <= date <= end`. |
| TemporalRings.InWindow | src/utils/temporal_rings.ts:49-52 | Defines the `eq(uid) AND between(dueAt, start, end)` filter shared by every query (also lines 64-67 and 83-86): the task is the user's and `start <= dueAt <= end`, inclusive at both ends. |
| TemporalRings.DayWindowIsDay | src/utils/temporal_rings.ts:51 | A task is in a day's inclusive window exactly when it is the user's and is due on that day. |
| TemporalRings.Candidates | src/utils/temporal_rings.ts:49-52 | The filtered rows are exactly the table rows that meet the condition, with no duplicates beyond the table's own. |
| TemporalRings.DueDistance | src/utils/temporal_rings.ts:53 | Defines ring 1's `ORDER BY` key: `abs(dueAt - now)` in milliseconds. |
| TemporalRings.ClockDistance | src/utils/temporal_rings.ts:68 | Defines the per-day `ORDER BY` key (also line 87): `abs(timeOfDay(dueAt) - nowClock)`, a plain difference with no wrap-around at midnight. |
| TemporalRings.NowClock | src/utils/temporal_rings.ts:32 | Now's time of day truncated to whole seconds: a whole number of seconds, at most now's time of day and less than one second below it. |
| TemporalRings.InsertByKey | src/utils/temporal_rings.ts:53 | Inserting adds exactly the one element. |
| TemporalRings.InsertKeepsSorted | src/utils/temporal_rings.ts:53 | Insertion keeps a sequence ordered by the key. |
| TemporalRings.SortByKey | src/utils/temporal_rings.ts:53 | The `ORDER BY` result is a permutation of its input, ordered by the key. |
| TemporalRings.Closest | src/utils/temporal_rings.ts:53-54 | `LIMIT k` returns `k` rows, or every row when there are fewer. |
| TemporalRings.ClosestSplits | src/utils/temporal_rings.ts:53-54 | The kept rows and the omitted rows together are exactly the input, as multisets. |
| TemporalRings.ClosestOrdered | src/utils/temporal_rings.ts:53-54 | The kept rows are ordered by the key, and no omitted row has a smaller key than a kept one. |
| TemporalRings.ClosestSelects | src/utils/temporal_rings.ts:53-54 | Every kept row is an input row. Every omitted row has a key at least that of each kept row. Fewer than `k` kept rows means every row was kept. |
| TemporalRings.WindowSelect | src/utils/temporal_rings.ts:47-54 | A window query returns at most `k` rows, all from the table and the window, with no duplicates beyond the table's own. The whole window is returned when it has fewer than `k` rows. |
| TemporalRings.WindowOrder | src/utils/temporal_rings.ts:53-54 | A window query's rows are ordered by the key, and no omitted window row has a strictly smaller key. |
| TemporalRings.Ring1 | src/utils/temporal_rings.ts:47-54 | Defines ring 1: the caller's tasks due inside today's inclusive window, ordered by `abs(dueAt - now)`, first 3. |
| TemporalRings.DayPick | src/utils/temporal_rings.ts:58-89 | Defines one per-day query: the caller's tasks due inside the window of the day `back` days before today, ordered by the time-of-day distance to now's truncated clock reading, first 1. |
| TemporalRings.Picks | src/utils/temporal_rings.ts:116-125 | Defines a ring of three picks: the picks for `a`, `b` and `c` days back, spread in that order. |
| TemporalRings.Rings | src/utils/temporal_rings.ts:116-133 | Defines the returned rings when no query fails: ring 1, the picks 1, 2 and 3 days back, and the picks 7, 14 and 21 days back. |
| TemporalRings.Ring1Members | src/utils/temporal_rings.ts:47-54 | Ring 1 has at most 3 tasks, each the user's and due within today's window. It holds the whole window when the window has fewer than 3 tasks. |
| TemporalRings.Ring1Closest | src/utils/temporal_rings.ts:53-54 | Ring 1 is ordered by non-decreasing `abs(dueAt - now)`, and no omitted task of today's window is strictly closer than an included one. |
| TemporalRings.DayPickSpec | src/utils/temporal_rings.ts:58-70 | A per-day pick has at most one task, the user's and in that day's window. It is empty exactly when that window has no task. |
| TemporalRings.DayPickClosest | src/utils/temporal_rings.ts:68-69 | When the window has a task, the pick's time-of-day distance to now is at most that of every task in the window. |
| TemporalRings.ConcatDescending | src/utils/temporal_rings.ts:116-120 | Concatenating two due-descending sequences, where every task of the second is due before every task of the first, gives a due-descending sequence. |
| TemporalRings.WindowsOrdered | src/utils/temporal_rings.ts:37-43 | A task from a window further back is due strictly earlier than one from a nearer window. |
| TemporalRings.PicksMembers | src/utils/temporal_rings.ts:116-125 | A ring of three picks has at most 3 tasks, each the user's and in one of its three day windows. |
| TemporalRings.PicksOrdered | src/utils/temporal_rings.ts:116-125 | With the days back increasing, as for ring 2 (1, 2, 3) and ring 3 (7, 14, 21), each later pick is due strictly earlier. |
| TemporalRings.NoPicks | src/utils/temporal_rings.ts:116-125 | A user with no tasks gets no picks. |
| TemporalRings.NoTasksNoRings | src/utils/temporal_rings.ts:116-133 | A user with no tasks gets three empty rings. |
| TemporalRings.DaysBefore | src/utils/temporal_rings.ts:37-43 | A fresh `Date` moved `k` days back lies `k` days before now, at now's time of day. |
| TemporalRings.DayQuery | src/utils/temporal_rings.ts:58-89 | One per-day query returns that day's pick. |
| TemporalRings.PicksQuery | src/utils/temporal_rings.ts:58-92 | Three per-day queries, concatenated, return the ring of the picks for those days back. |
| TemporalRings.NoRings | src/utils/temporal_rings.ts:139-143 | Defines the catch result: three empty rings. |
| TemporalRings.GetTemporalRings | src/utils/temporal_rings.ts:25-144 | A query failure gives three empty rings. Otherwise the result is `Rings`, whose properties the lemmas above state. |
| CreatePrompt.TaskLine | src/utils/create_prompt.ts:15 | Defines a task line: `- title: description (Due: <iso>, Card color: hex)`. |
| CreatePrompt.Join | src/utils/create_prompt.ts:16 | Defines `.join('\n')`: the lines with one newline between neighbours, empty for no lines. |
| CreatePrompt.FormatList | src/utils/create_prompt.ts:7-18 | Defines `formatList`: the empty string for an empty ring, else `"\n" + label + ":\n"` and the joined task lines. |
| CreatePrompt.Sections | src/utils/create_prompt.ts:21-24 | Defines the built text: the header, then the Today, Previous Days and Previous Weeks blocks with their fixed labels. |
| CreatePrompt.IsJsSpace | src/utils/create_prompt.ts:26 | Defines the characters `trim()` removes: JavaScript's white space and line terminators. |
| CreatePrompt.Trim | src/utils/create_prompt.ts:26 | Defines `trim()` as `TrimEnd` after `TrimStart`, each specified by what it removes. |
| CreatePrompt.Choose | src/utils/create_prompt.ts:26-27 | Defines the final choice: trim the text, and give the fallback sentence when the trimmed text is the header alone. |
| CreatePrompt.TaskLineEdges | src/utils/create_prompt.ts:15 | A task line is nonempty, opens with `-` and closes with `)`. |
| CreatePrompt.Lines | src/utils/create_prompt.ts:14-15 | One line per task, in ring order. |
| CreatePrompt.JoinAppend | src/utils/create_prompt.ts:16 | Joining one more line appends a newline and that line. |
| CreatePrompt.JoinEnds | src/utils/create_prompt.ts:16 | A join of lines that all close with `)` closes with `)`. |
| CreatePrompt.FormatListAppend | src/utils/create_prompt.ts:7-18 | One more task adds a newline and its line at the end of the block. From an empty ring, the block becomes the heading and that line. |
| CreatePrompt.FormatListEdges | src/utils/create_prompt.ts:14-17 | A non-empty ring's block opens with `"\n" + label + ":\n"` and closes with `)`. |
| CreatePrompt.FormatListCloses | src/utils/create_prompt.ts:9-17 | A ring's block is empty exactly when the ring is, and otherwise closes with `)`. |
| CreatePrompt.TrimStart | src/utils/create_prompt.ts:26 | The result is a suffix of the text that does not open with white space, and everything removed is white space. |
| CreatePrompt.TrimEnd | src/utils/create_prompt.ts:26 | The result is a prefix of the text that does not close with white space, and everything removed is white space. |
| CreatePrompt.TrimUnchanged | src/utils/create_prompt.ts:26 | Text with no white space at either edge is left as it is. |
| CreatePrompt.FixedStrings | src/utils/create_prompt.ts:21-27 | The header opens with `#`, closes with `s` and has no white space at its edges. The fallback sentence closes with `.`. |
| CreatePrompt.BlocksClose | src/utils/create_prompt.ts:21-24 | After the header, blocks that are each empty or close with `)`, not all empty, close the text with `)`. |
| CreatePrompt.BlocksFollow | src/utils/create_prompt.ts:21-24 | The built text opens with the header, and is the header alone exactly when all blocks are empty. |
| CreatePrompt.BlocksTrimmed | src/utils/create_prompt.ts:21-26 | Trimming the built text changes nothing. |
| CreatePrompt.BlocksShape | src/utils/create_prompt.ts:21-26 | Trimming the header and the three rings' blocks changes nothing. |
| CreatePrompt.BlocksEnd | src/utils/create_prompt.ts:21-24 | With some ring non-empty, the built text closes with `)`. |
| CreatePrompt.BlocksOpen | src/utils/create_prompt.ts:21-24 | The built text opens with the header, and is the header alone exactly when all three rings are empty. |
| CreatePrompt.SectionsTrimmed | src/utils/create_prompt.ts:21-26 | The text built from the three rings is unchanged by trimming and opens with the header. It is the header alone exactly when all rings are empty, and otherwise closes with `)`. |
| CreatePrompt.ChooseSpec | src/utils/create_prompt.ts:26-27 | For trimmed text that is the header alone or closes with `)`, the result is the fallback exactly when the text is the header alone, and otherwise the text itself. |
| CreatePrompt.ChooseBlocks | src/utils/create_prompt.ts:21-27 | For the header and three blocks, the answer is the fallback exactly when all rings are empty. Otherwise it is the untrimmed text, which opens with the header and is longer than it. |
| CreatePrompt.FormatTemporalTasks | src/utils/create_prompt.ts:5-28 | The result is exactly "No relevant past or upcoming tasks found in temporal rings." when all three rings are empty. Otherwise it is the header followed by the Today, Previous Days and Previous Weeks blocks in that order, and it opens with "### Relevant Past & Upcoming Tasks". |

## Left out

- The `/compose` route (`src/routes/tasks.ts:14-47`): a call to an external language model with prompt text, which is foreign code and the network.
- HTTP concerns: status codes, `req`/`res`, JSON bodies and `console.log`. Only the "no user" guard is kept, as the `Unauthorized` result.
- `src/routes/auth.ts`, `src/middleware/auth.ts`, `src/utils/db.ts`, `src/drizzle.config.ts` and `src/server.ts` are not part of this model: password hashing, tokens, connection and start-up plumbing.
- `createPrompt` (`src/utils/create_prompt.ts:31-82`): a fixed template plus the wall clock.
- `Promise.all` in `getTemporalRings` (`src/utils/temporal_rings.ts:96-112`): the seven reads are independent, so they are modelled one after another. Any failure among them is the single flag `queryFails`.
- Calendar details of `Date`: local time zone, daylight-saving shifts and month rollover in `setDate` and `setHours`. Days are whole multiples of `DayMs` in one fixed zone.
- `toISOString` is the formatter's parameter `iso`, so its text is not modelled. `toTimeString()` is modelled only as now's time of day truncated to whole seconds.
- The `N/A` branch of a task line (`src/utils/create_prompt.ts:15`): in this model `dueAt` is always an instant, so that branch cannot be reached.
- Parsing of dates from the wire (`new Date(...)` in `src/routes/tasks.ts:60` and `138-140`): payload times are already instants, so a malformed date is not modelled. The routes convert different fields:
  - sync upsert converts `dueAt`, `createdAt` and `updatedAt` (`src/routes/tasks.ts:138-140`), while `doneAt` reaches the insert as sent, through `...rest` (`src/routes/tasks.ts:131` and `136`);
  - direct create converts only `dueAt` (`src/routes/tasks.ts:60`), so `createdAt`, `updatedAt` and `doneAt` go to `values(newTask)` as sent (`src/routes/tasks.ts:63`).
  The model gives every time field the same instant type, so how the store handles an unconverted wire value, including rejecting it with an error, is not modelled.
- TaskModel.Stamp and Tasks.CreateTask: both take every time field as an already converted instant. A raw wire value in a field the route leaves unconverted is not modelled (see the previous line).
- Column defaults and constraints of the store, other than the primary key on `id`.
- A client-sent `uid` or flag fields in direct create are overridden or dropped by the model's insert values. The store's treatment of unknown columns is not modelled.
- Sync delete items are modelled as their ids, the `deletedTask.id` the loop reads.
- `TemporalRings.Closest`: `ORDER BY ... LIMIT` is modelled as a stable sort, so ties keep table order. Postgres leaves that order unspecified. The lemmas state only what holds for any choice among equal keys (ordering, membership, and no strictly closer omitted task).
- The per-day key compares two clock readings taken in two zones: `dueAt::time` is cast in the Postgres session's zone (`src/utils/temporal_rings.ts:68` and `87`), while `nowTimeString` and `getDateRange` use Node's local zone (lines 15-19 and 32). The model assumes the two zones are the same.
- `TemporalRings.Ring1Closest` and `TemporalRings.DayPickClosest` use keys in milliseconds where the source uses seconds as a float. Both give the same order.
- Concurrency: requests are modelled one at a time, so the interleaving of concurrent requests against the store is not modelled.
