# Time-logger aggregation model

A Dafny model of the time-aggregation read-model of BotReminder, a chat bot
that tracks time spent on tasks.

The core has two parts:

- `CategoryData` (`src/Book/components/plugins/timelogger.data.ts`). It holds
  one category's tree: an insertion-ordered map from activity name to an
  insertion-ordered map from task name to elapsed minutes. It also holds a
  second ordered map for the tasks attached directly to the category. The
  class offers three insertion operations, each with a merge-or-disambiguate
  policy. It also offers totals, summaries, flattening accessors and a text
  report.
- `TimeLoggerLoad` (`src/Book/components/plugins/timelogger.load.ts`). It
  hydrates `CategoryData` values from the store: categories, then each
  category's activities, then each activity's ended-and-altered tasks, and
  at the end the category's altered-but-not-ended direct tasks.

Modules and files:

- `wrappers.dfy`, module `Wrappers`: `Option`, standing for a `null`
  result.
- `decimal.dfy`, module `Decimal`: the decimal text of a number, as
  JavaScript appends it in `name + i`, and the proof that it is injective.
- `ordered_map.dfy`, module `OrderedMap`: a JavaScript `Map` modelled as a
  sequence of `(key, value)` pairs. `Set` keeps the position of an existing
  key and appends a new one. The module also holds the smallest-free-suffix
  search and a proof that it terminates: by pigeonhole, the free suffix is at
  most one more than the number of entries.
- `timelogger_data.dfy`, module `TimeLoggerData`: `CategoryData` as an
  immutable datatype. Each operation returns the new value. `WellFormed`
  says that keys are unique at every level.
- `timelogger_load.dfy`, module `TimeLoggerLoad`: the loader as a pure fold.
  The store queries are the fields of a `Gateways` value.

The model follows the code as written, including two behaviours that look
unintended:

- `addActivity(name)` with the default `aggregate = true` on an existing
  name installs a fresh empty map. It does not reuse the existing one, so
  that activity loses its tasks (`AddActivity`, `LastActivityRowWins`).
- `getActivitiesNameArray` has one entry per activity, while
  `getActivitiesTimeArray` has one entry per task. The two arrays are not
  parallel (`ActivityArraysNotParallel`).

## Model

| member | source | states |
|---|---|---|
| TimeLoggerData.NewCategory | src/Book/components/plugins/timelogger.data.ts:10-21 | A new category has the given title, no entries, unique keys and total 0 |
| Decimal.NatToStringInjective | src/Book/components/plugins/timelogger.data.ts:35 | The decimal text of a natural number is injective: different numbers give different digit strings |
| Decimal.SuffixInjective | src/Book/components/plugins/timelogger.data.ts:35 | Appending different numbers to the same name gives different names, so every suffix the loop tries is a new candidate |
| OrderedMap.TakenSuffixesBound | src/Book/components/plugins/timelogger.data.ts:33-34 | If `name1..namen` are all keys, the map has at least n entries, so the suffix loop stops |
| OrderedMap.FreeSuffixFrom | src/Book/components/plugins/timelogger.data.ts:33-34 | The `while (has(name + i)) i++` loop ends on a free suffix, and every suffix it passed over is taken |
| OrderedMap.FreeSuffix | src/Book/components/plugins/timelogger.data.ts:33-35 | The suffix chosen is the smallest i >= 1 with `name + i` not a key, and it is at most the map size plus one |
| OrderedMap.FreeSuffixIs | src/Book/components/plugins/timelogger.data.ts:61-63 | Any i >= 1 whose `content + i` is free, with every smaller suffix taken, is the suffix chosen |
| OrderedMap.Set | src/Book/components/plugins/timelogger.data.ts:66 | `Map.set` keeps an existing key's position and changes only its value; a new key is appended; keys stay unique |
| OrderedMap.GetSetOther | src/Book/components/plugins/timelogger.data.ts:88 | `Map.set` on one key leaves the value of every other key unchanged |
| TimeLoggerData.AddActivity | src/Book/components/plugins/timelogger.data.ts:28-39 | A fresh name is appended with an empty map. A taken name with aggregate=false gets a new empty entry at `name + i` (smallest free i), and the rest is untouched. A taken name with aggregate=true keeps its position but is reset to empty, so the total drops by its old subtotal. Keys stay unique |
| TimeLoggerData.InsertTask | src/Book/components/plugins/timelogger.data.ts:57-66 | On an existing task with aggregate=true, the value becomes old + elapsed at the same position and nothing else changes. With aggregate=false, the entry is appended under the smallest free `content + i`. A new task is appended. The map total grows by elapsed, and keys stay unique |
| TimeLoggerData.AddTaskToActivity | src/Book/components/plugins/timelogger.data.ts:47-67 | A missing activity is created at the end, and its task map gets the insertion policy. Other activities and the direct tasks are unchanged. The total grows by elapsed, and keys stay unique |
| TimeLoggerData.AddTaskToCategory | src/Book/components/plugins/timelogger.data.ts:74-89 | Activities are unchanged. The direct-task map gets the same insertion policy as an activity's tasks: merged into an existing entry, or stored under the smallest free `content + i`, or appended. The task is afterwards a key, and no existing key is lost or moved. The total grows by elapsed, and keys stay unique |
| TimeLoggerData.ApplyAllPreservesKeys | src/Book/components/plugins/timelogger.data.ts:28-89 | After any sequence of the three insertions, keys are unique at every level. The old activity keys and the old direct-task keys are prefixes of the new ones, so none of them is removed or reordered. An activity's own task map can still be emptied by a merging `addActivity` on its name |
| TimeLoggerData.TotalElapsedOfActivity | src/Book/components/plugins/timelogger.data.ts:110-118 | An unknown activity has subtotal 0 |
| TimeLoggerData.SubtotalsSet | src/Book/components/plugins/timelogger.data.ts:93-99 | Replacing or appending one activity's task map changes the sum of subtotals by exactly the difference |
| TimeLoggerData.TotalIsSumOfActivityTotals | src/Book/components/plugins/timelogger.data.ts:93-118 | With unique names, the category total is the sum of `getTotalElapsedOfActivity` over all activity names plus the direct tasks |
| TimeLoggerData.ActivitiesTimeArray | src/Book/components/plugins/timelogger.data.ts:161-169 | One entry per task of every activity, summing to the sum of the per-activity subtotals |
| TimeLoggerData.TotalIsSumOfLeaves | src/Book/components/plugins/timelogger.data.ts:93-104 | The total is the sum of every leaf value: all activity tasks plus all direct tasks |
| TimeLoggerData.ActivitiesTimeArrayOrder | src/Book/components/plugins/timelogger.data.ts:161-169 | Task j of activity i is at position (number of tasks of activities 0..i-1) + j: activities in order, tasks in order within each |
| TimeLoggerData.ActivitiesNameArray | src/Book/components/plugins/timelogger.data.ts:173-179 | One name per activity, in insertion order |
| TimeLoggerData.ActivityArraysNotParallel | src/Book/components/plugins/timelogger.data.ts:161-179 | One activity with two tasks gives one name but two times |
| TimeLoggerData.TasksTimeArray | src/Book/components/plugins/timelogger.data.ts:183-189 | One entry per direct task: entry i is the time of the i-th direct task in insertion order |
| TimeLoggerData.TasksNameArray | src/Book/components/plugins/timelogger.data.ts:193-199 | One entry per direct task: entry i is the name of the i-th direct task in insertion order |
| TimeLoggerData.TaskArraysZip | src/Book/components/plugins/timelogger.data.ts:183-199 | The direct-task name and time arrays have equal length, and zipped together they give back the direct-task map in insertion order |
| TimeLoggerData.Summary | src/Book/components/plugins/timelogger.data.ts:122-124 | The summary pairs the title with the formatted sum of all leaf values |
| TimeLoggerData.SummaryOfActivity | src/Book/components/plugins/timelogger.data.ts:128-133 | An unknown activity does not give the empty sentinel: it gives its own name with a zero duration |
| TimeLoggerData.SummaryOfActivityAfterAddTask | src/Book/components/plugins/timelogger.data.ts:128-133 | After `addTaskToActivity` with either policy, that activity's summary shows its old subtotal (0 if it was unknown) plus the new time |
| TimeLoggerData.SummaryOfTaskActivity | src/Book/components/plugins/timelogger.data.ts:137-148 | `("", "")` when the activity or the task is missing; otherwise the task name and its formatted value |
| TimeLoggerData.SummaryOfTaskCategory | src/Book/components/plugins/timelogger.data.ts:152-157 | `("", "")` when the direct task is missing; otherwise the task name and its formatted value |
| TimeLoggerData.MergingInsertIsSet | src/Book/components/plugins/timelogger.data.ts:57-59 | A merging insertion is one `Map.set` of the task to its old value (0 if absent) plus the new time |
| TimeLoggerData.MergedTaskValue | src/Book/components/plugins/timelogger.data.ts:57-66 | A merging insertion leaves the task a key whose value is its old value (0 if absent) plus the new time |
| TimeLoggerData.SummaryAfterAddTaskToActivity | src/Book/components/plugins/timelogger.data.ts:137-148 | After a merging `addTaskToActivity`, the task's summary shows its old value (0 if absent) plus the new time |
| TimeLoggerData.SummaryAfterAddTaskToCategory | src/Book/components/plugins/timelogger.data.ts:152-157 | After a merging `addTaskToCategory`, the task's summary shows its old value (0 if absent) plus the new time |
| TimeLoggerData.ToString | src/Book/components/plugins/timelogger.data.ts:225-227 | The report starts with `Category: **<title>** - <readable(total)>` and a newline |
| TimeLoggerData.ToStringUsesOwnSubtotals | src/Book/components/plugins/timelogger.data.ts:228-240 | With unique names, the report is the header, then for each activity a `⥤ Activity:` sub-header (U+2964) with its own subtotal and one `⩶⥤  Task:` line (U+2A76 U+2964) per task, then one `⥤ Task:` line per direct task |
| TimeLoggerData.ToStringExample | src/Book/components/plugins/timelogger.data.ts:224-242 | The exact text, arrows included, for category "Work" with activity "Coding" holding task "Fix bug" of 12 minutes |
| TimeLoggerData.MergeExample | src/Book/components/plugins/timelogger.data.ts:57-59 | Merging ("Gym", "Run", 5) and then ("Gym", "Run", 7) stores 12 |
| TimeLoggerData.SuffixExample | src/Book/components/plugins/timelogger.data.ts:32-37 | Three non-merging `addActivity("X")` calls give the keys X, X1 and X2, in that order |
| TimeLoggerLoad.MergeTasksTotal | src/Book/components/plugins/timelogger.load.ts:21-27 | Merging task rows into a task map adds exactly the sum of their elapsed values |
| TimeLoggerLoad.MergeTasksDistinct | src/Book/components/plugins/timelogger.load.ts:35-40 | Merging task rows keeps task names unique |
| TimeLoggerLoad.MergeTasksValue | src/Book/components/plugins/timelogger.load.ts:21-27 | After merging task rows into a map, a name is a key exactly when it was one before or some row carries it, and its value is the old value (0 if absent) plus the elapsed of every row with that name |
| TimeLoggerLoad.AddActivityTasks | src/Book/components/plugins/timelogger.load.ts:21-27 | An activity's ended-and-altered tasks are merged into that activity only. Other activities, the direct tasks and the key order are unchanged, and the total grows by their sum |
| TimeLoggerLoad.LoadActivityRow | src/Book/components/plugins/timelogger.load.ts:17-27 | One activity row touches only the activity map: the title and the direct tasks are kept |
| TimeLoggerLoad.LoadActivityRowKeys | src/Book/components/plugins/timelogger.load.ts:17-27 | One activity row adds its name to the activity keys at the end, unless the name is already a key; no key moves |
| TimeLoggerLoad.LoadActivityRowTasks | src/Book/components/plugins/timelogger.load.ts:17-27 | After one activity row, its name maps to exactly the merge of its own tasks into an empty map, whatever it held before. Other activities are unchanged |
| TimeLoggerLoad.LoadActivityRowTotal | src/Book/components/plugins/timelogger.load.ts:17-27 | After one activity row, the total loses the old subtotal of that name and gains the row's tasks; keys stay unique |
| TimeLoggerLoad.LoadActivities | src/Book/components/plugins/timelogger.load.ts:16-28 | The activity loop keeps the title and the direct tasks, and keeps keys unique |
| TimeLoggerLoad.LoadActivitiesKeys | src/Book/components/plugins/timelogger.load.ts:16-28 | The activity keys after the loop are the old keys, then each row name not seen before, in row order |
| TimeLoggerLoad.LoadActivitiesKeepsKeys | src/Book/components/plugins/timelogger.load.ts:16-28 | No activity key is removed by the loop |
| TimeLoggerLoad.RowNamesAreKeys | src/Book/components/plugins/timelogger.load.ts:16-17 | Every activity row's name is afterwards a key of the activity map |
| TimeLoggerLoad.NoOtherKeys | src/Book/components/plugins/timelogger.load.ts:16-28 | Every key afterwards was there before or is named by an activity row |
| TimeLoggerLoad.UnnamedActivityUntouched | src/Book/components/plugins/timelogger.load.ts:16-28 | An activity no row names keeps its tasks |
| TimeLoggerLoad.LastActivityRowWins | src/Book/components/plugins/timelogger.load.ts:16-27 | When rows share a name, that name holds only the merged tasks of the last such row |
| TimeLoggerLoad.ActivityHoldsItsTasks | src/Book/components/plugins/timelogger.load.ts:16-27 | With distinct names, each activity holds exactly the merge of its own ended-and-altered tasks |
| TimeLoggerLoad.AddDirectTasks | src/Book/components/plugins/timelogger.load.ts:31-40 | Altered-not-ended tasks go only to the direct-task map, by merging. Activities are unchanged, and the total grows by their sum |
| TimeLoggerLoad.LoadCategoryData | src/Book/components/plugins/timelogger.load.ts:12-42 | A loaded category carries the row's title and has unique keys. Its activity keys are exactly the row names. Its direct tasks are exactly the merged altered-not-ended tasks, and its activities are exactly the activity loop's result |
| TimeLoggerLoad.LoadedTotal | src/Book/components/plugins/timelogger.load.ts:21-40 | With distinct activity names, the total equals the sum of every elapsed value fed in by both task queries |
| TimeLoggerLoad.LoadCategories | src/Book/components/plugins/timelogger.load.ts:7-45 | `null` exactly when the store returns no category. Otherwise one well-formed category per row, in store order: entry i is row i loaded by `LoadCategoryData`, titled after that row |
| TimeLoggerLoad.LoadCategory | src/Book/components/plugins/timelogger.load.ts:47-82 | `null` exactly when the title lookup finds no category. Otherwise the result is that category row loaded by `LoadCategoryData`, so it carries the row's title |
| TimeLoggerLoad.LoadCategoryAgrees | src/Book/components/plugins/timelogger.load.ts:7-82 | For a category that `loadCategories` also returns, `loadCategory` builds exactly the same value |

## Left out

- `DateWorker.timeToReadable` (`src/utils/date.worker`) is not part of this model. The summaries and the report take the formatter as a parameter `readable: int -> string`.
- The store services (`TCategoryServices`, `ActivityServices`, `TaskServices`) and their SQL are not part of this model. Their queries are the fields of `Gateways`; which rows count as "ended" or "altered" is decided there.
- A failing store query is not modelled: the `Gateways` fields are total functions, so a rejected promise, which aborts `loadCategories` or `loadCategory` in the source, has no counterpart here.
- `async`/`await`: the awaits only sequence the calls, and the model is a fold in the same order.
- `parseInt(task.timeElapsed)`: task rows carry an integer directly. A non-numeric text (NaN in JavaScript) is not modelled.
- JavaScript numbers are doubles. Elapsed values and sums are unbounded integers here, so precision loss above 2^53 is not modelled.
- `addActivity` returns the new task map in the source. The model returns the key it used instead; the loader ignores the value anyway.
- `getActivities`, `getTasks` and `getTitle` are plain field reads of the `CategoryData` datatype.
- `Map<String, …>` keys typed as `String` objects are treated as plain strings.
