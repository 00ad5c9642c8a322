# Task tracker core, modelled in Dafny

This project models the logic of a goal and task tracker's web client.
The user states a goal, an AI proposes tasks with hours and priorities, the
user edits and reorders them, and a day scheduler lays them out on a
calendar. The modelled parts are these:

- **Schedule** (`schedule.dfy`): the greedy day scheduler `generateSchedule`.
  It sorts the tasks by `order`, then cuts each task's `estimated_time` into
  chunks of `min(remaining task hours, hours left today)`. Each chunk is
  placed after the hours already used that day. When the day is full, the
  next day starts with a full window. It is written as an imperative method
  with the scheduler's two nested loops. The method is proved equal to a
  functional plan, and the plan is proved to tile the working windows, to
  keep within each day's capacity and to book exactly each task's hours.
- **Sorting** (`sorting.dfy`): `Array.prototype.sort` with the comparators the
  client uses. It is modelled as a stable insertion sort and proved to give
  a sorted, stable permutation.
- **JS values** (`js.dfy`): the JavaScript primitives that task records hold,
  and the operators the code applies to them: `||`, `??`, `===`, spread,
  `+`, `Number()` and `String()`.
- **Task arrays** (`task_arrays.dfy`): the array operations that the pages
  share. These are `findIndex`, `arrayMove`, renumbering `order = index + 1`,
  replacing by id and filtering by id.
- **Task list page** (`task_list.dfy`): `combinedTasks`, the merge by id of the
  stored and proposed tasks; the column sort and its direction toggle; the
  save-all payload and goal-id choice; the schedule filter; the drag
  handler and its order payload; the field edit; and the priority column.
- **Goal pages** (`goal_tasks.dfy`, `goal_bk.dfy`, `goal.dfy`): the two versions
  of the goal page.
  - `goal_tasks.dfy` holds the task record that both chat transforms build.
  - `goal_bk.dfy` models the earlier page, `Goal_bk.tsx`.
  - `goal.dfy` models the current page, `Goal.tsx`.
  - Each page file models its normalisation of the AI tasks, its drag
    handler, its hour total, its edit handler and its replace and delete by
    id, each as written. On `Goal.tsx` the drag handler and `transformTasks`
    are defined but never used (see "Left out").
- **Progress** (`progress.dfy`): the clamped, rounded progress percentage.
- **Auth** (`auth.dfy`): the authentication slice of the store. The reducers
  are a transition function over the state record, and a class whose
  methods assign the fields in place.
- **Api** (`api.dfy`): the endpoint table and the URL builders.
- **SortableItem** (`sortable_item.dfy`): the cells of one row of the task
  table: the editing test, the order, name, duration and priority cells, and
  the editor values.

Numbers are integers throughout. The scheduler counts whole hours, and its
clock counts minutes after midnight.

## Model

| member | source | states |
|---|---|---|
| Js.Or | src/pages/ScheduleComponent.tsx:82 | `a \|\| b` is `a` when `a` is truthy and `b` otherwise |
| Js.IsNullish | src/pages/SortableItem.tsx:26 | `v == null` holds of exactly the values that are neither numbers, NaN nor strings: null and undefined |
| Js.Truthy | src/pages/ScheduleComponent.tsx:82 | a value is truthy exactly when it is not null, undefined, NaN, 0 or "" |
| Js.StrictEq | src/pages/TaskList.tsx:74 | `===` never converts: only equal values match, a number never matches a string, and NaN matches nothing |
| Js.Coalesce | src/pages/Goal_bk.tsx:302-303 | `a ?? b` is `b` exactly when `a` is null or undefined |
| Js.Spread | src/pages/TaskList.tsx:78 | `{...a, ...b}` has the keys of both, and `b`'s properties win |
| Js.With | src/pages/TaskList.tsx:151 | `{...o, [p]: v}` reads `v` at `p` and `o`'s property everywhere else |
| Js.Add | src/pages/Goal_bk.tsx:407 | JS `+`: it concatenates when either side is a string; the sum of two numbers is their sum; otherwise it is a number exactly when both sides convert to numbers |
| Js.ParseNumber | src/pages/Goal_bk.tsx:273 | `Number(text)` always yields a number or NaN |
| Js.ToNumber | src/pages/Goal_bk.tsx:281 | `Number(v)` yields a number or NaN, and leaves a number as it is |
| Js.NumberOfString | src/pages/Goal_bk.tsx:273 | `Number(String(n)) === n` for every integer `n` |
| Js.ParsePlusSign | src/pages/Goal.tsx:290 | `Number` reads a numeral with a leading `+` as its value |
| Js.IntToString | src/pages/SortableItem.tsx:32 | `n.toString()` is non-empty, begins with `-` exactly for a negative `n`, and is digits otherwise |
| Js.ToStr | src/pages/SortableItem.tsx:58 | `String(v)` is the string itself for a string and non-empty otherwise; `Number` reads a number's rendering back as that number and NaN's as NaN |
| Js.IntToStringInjective | src/pages/SortableItem.tsx:26 | two integers render to the same decimal string exactly when they are equal |
| Js.LexLessTransitive | src/pages/TaskList.tsx:94 | string `<` is transitive |
| Js.LexLessTotal | src/pages/TaskList.tsx:94-97 | of two different strings, one is `<` the other |
| Js.LexLessAsymmetric | src/pages/TaskList.tsx:94-97 | string `<` is asymmetric, so `<` and `>` never both hold |
| Sorting.Insert | src/pages/TaskList.tsx:87-101 | inserting adds exactly one element and keeps the rest |
| Sorting.StableSort | src/pages/TaskList.tsx:87-101 | sorting keeps the length and the multiset of the elements |
| Sorting.CompareFacts | src/pages/TaskList.tsx:91-100 | on keys of one kind the comparator returns 0 exactly for equal keys, and swapping the arguments flips its sign |
| Sorting.Less | src/pages/TaskList.tsx:94-97 | `<` holds only between two numbers or two strings, and on numbers it is numeric order |
| Sorting.Compare | src/pages/TaskList.tsx:87-100 | the comparator returns -1, 0 or 1, and 0 whenever either value is null or undefined |
| Sorting.CompareSign | src/pages/TaskList.tsx:91-100 | the comparator is negative exactly when `a` goes first in the chosen direction and positive exactly when `b` does |
| Sorting.CompareAntisymmetric | src/pages/TaskList.tsx:91-100 | on any keys, swapping the arguments flips the comparator's sign |
| Sorting.CompareTransitive | src/pages/TaskList.tsx:91-100 | on keys of one kind the comparator is transitive |
| Sorting.InsertSorted | src/pages/TaskList.tsx:87-101 | inserting into a sorted list keeps it sorted |
| Sorting.StableSortSorted | src/pages/TaskList.tsx:87-101 | the sorted list is ordered by the comparator |
| Sorting.StableSortStable | src/pages/TaskList.tsx:87-101 | elements with equal keys keep their input order |
| Sorting.StableSortCorrect | src/pages/TaskList.tsx:87-101 | sorting a comparable list gives a permutation, ordered by the comparator, with equal keys in input order |
| Sorting.StableSortOfSorted | src/pages/ScheduleComponent.tsx:62 | a list already in order is returned unchanged |
| TaskArrays.FindIndex | src/pages/TaskList.tsx:257-258 | `findIndex` gives -1 exactly when no id matches, and otherwise the first index whose id is `===` the one sought |
| TaskArrays.ArrayMove | src/pages/TaskList.tsx:259 | `arrayMove` keeps the length and the multiset, and puts the moved element at the target index |
| TaskArrays.ArrayMoveAt | src/pages/TaskList.tsx:259 | each element of the moved list comes from the index `MovedFrom` names |
| TaskArrays.ArrayMoveInverse | src/pages/TaskList.tsx:259 | moving an element back to where it came from restores the list |
| TaskArrays.ArrayMoveOutside | src/pages/TaskList.tsx:259 | elements outside the range between the two indices keep their place |
| TaskArrays.Renumber | src/pages/Goal_bk.tsx:241-244 | renumbering sets `order = index + 1` and keeps every other field |
| TaskArrays.NumberedOrders | src/pages/Goal_bk.tsx:241-244 | a renumbered list carries each order from 1 to N exactly once |
| TaskArrays.MoveAndRenumber | src/pages/Goal_bk.tsx:233-247 | a drag with equal ids leaves the list unchanged; otherwise the result is numbered 1..N, and its ids are the `arrayMove` of the old ids |
| TaskArrays.MoveAndRenumberMovesTask | src/pages/Goal_bk.tsx:236-244 | the dragged task lands at the target's index, unchanged except for its new order |
| TaskArrays.MoveAndRenumberAt | src/pages/Goal_bk.tsx:236-244 | every row after a drag is the task that moved there, renumbered by its new position |
| TaskArrays.ReplaceMatching | src/pages/TaskList.tsx:128-132 | only the tasks whose id matches are replaced by `{...task, ...patch}`; the others stay as they were |
| TaskArrays.RemoveMatching | src/pages/TaskList.tsx:184 | no kept task has the id, and the list does not grow |
| TaskArrays.RemoveMatchingCount | src/pages/TaskList.tsx:184 | each task without the id is kept as often as it occurs; tasks with the id are dropped |
| TaskArrays.RemoveMatchingAppend | src/pages/TaskList.tsx:184 | deleting distributes over concatenation, so the kept tasks keep their order |
| TaskArrays.RemoveMatchingNone | src/pages/TaskList.tsx:184 | deleting an id that no task has leaves the list as it is |
| TaskList.Tag | src/pages/TaskList.tsx:76 | `{...current, goalId: current.goal_id}` sets `goalId` and keeps the rest |
| TaskList.Absorb | src/pages/TaskList.tsx:78 | merging a repeat: its properties overwrite the earlier record's, and `goalId` becomes its `goal_id` |
| TaskList.Reconcile | src/pages/TaskList.tsx:73-80 | one reduce step appends a new id tagged, or merges the record into every record with its id |
| TaskList.Firsts | src/pages/TaskList.tsx:72-80 | the first-occurrence indices lie inside the list |
| TaskList.FirstsSound | src/pages/TaskList.tsx:74-76 | `Firsts` lists first occurrences only, in ascending order |
| TaskList.FirstsComplete | src/pages/TaskList.tsx:74-76 | every first occurrence is listed |
| TaskList.MergeInto | src/pages/TaskList.tsx:78 | merging later records keeps the record's id |
| TaskList.Merged | src/pages/TaskList.tsx:72-80 | there is one record per first occurrence, built from that occurrence and the later records with its id |
| TaskList.MergedIds | src/pages/TaskList.tsx:72-80 | each merged record has the id of its first occurrence |
| TaskList.FirstsCover | src/pages/TaskList.tsx:74 | every id of the list is the id of one of its first occurrences |
| TaskList.ListedMerged | src/pages/TaskList.tsx:74 | `acc.find` succeeds exactly when an earlier record has an id `===` the new one |
| TaskList.MergedSnocNew | src/pages/TaskList.tsx:75-76 | a record with a new id is appended, tagged |
| TaskList.MergedSnocListed | src/pages/TaskList.tsx:77-78 | a record whose id is listed is merged into the records with that id |
| TaskList.ReduceIsMerged | src/pages/TaskList.tsx:73-80 | the reduce computes exactly one merged record per distinct id, at that id's first-occurrence position |
| TaskList.Reduce | src/pages/TaskList.tsx:73-80 | the reduce never yields more records than it reads, and at least one for a non-empty input |
| TaskList.CombineTasks | src/pages/TaskList.tsx:71-82 | `combinedTasks` equals the independent merge reference `Merged` of the stored tasks followed by the proposed ones |
| TaskList.CombineTasksUnique | src/pages/TaskList.tsx:71-82 | no two records of `combinedTasks` have `===` ids |
| TaskList.MergedCovers | src/pages/TaskList.tsx:72-80 | every input id has a merged record |
| TaskList.CombineTasksCovers | src/pages/TaskList.tsx:71-82 | every id of the stored and proposed tasks appears in `combinedTasks` |
| TaskList.CombineTasksDistinct | src/pages/TaskList.tsx:71-82 | with distinct ids, `combinedTasks` only adds `goalId` to each task |
| TaskList.MergedDistinct | src/pages/TaskList.tsx:72-80 | with distinct ids, the merge keeps every task, only tagged |
| TaskList.FirstsOfDistinct | src/pages/TaskList.tsx:74 | with distinct ids, every index is a first occurrence |
| TaskList.MergeIntoNone | src/pages/TaskList.tsx:78 | a record with no later repeat is left as it is |
| TaskList.SortedTasks | src/pages/TaskList.tsx:84-104 | with no column the copy is unchanged; otherwise the result is a permutation, and on comparable keys it is sorted in the chosen direction and stable |
| TaskList.SortedTasksKeepsOrders | src/pages/TaskList.tsx:84-104 | sorting moves whole records and never changes an `order` |
| TaskList.RequestSort | src/pages/TaskList.tsx:106-112 | the key becomes the clicked column; the direction becomes descending exactly when that column was ascending |
| TaskList.RequestSortToggles | src/pages/TaskList.tsx:106-112 | clicking the same column again flips the direction; a new column starts ascending |
| TaskList.SaveRecord | src/pages/TaskList.tsx:195-204 | the sent record has `order = index + 1`, `name = name \|\| taskName`, `estimated_time = estimated_time \|\| taskTime`, `goal_id = goalId \|\| goal_id`, and no `goalId` |
| TaskList.SavePayload | src/pages/TaskList.tsx:195-204 | the payload has one record per sorted task, numbered 1..N |
| TaskList.SaveAll | src/pages/TaskList.tsx:195-210 | a request is built only under a truthy goal id, and carries the payload |
| TaskList.SaveAllGoal | src/pages/TaskList.tsx:206-209 | the goal id is the first task's `goal_id \|\| goalId` when set, else `desiredGoalId`; saving fails exactly when neither is set; the orders sent are 1..N |
| TaskList.FilterGoal | src/pages/TaskList.tsx:239 | every kept task has `goalId === Number(desiredGoalId)` |
| TaskList.OfGoal | src/pages/TaskList.tsx:239 | only a numeric `goalId` can match; a numeric desired id matches exactly that goal id; an undefined desired id matches nothing and a null one matches goal 0 |
| TaskList.OrderNumber | src/pages/TaskList.tsx:240 | the key of `a.order - b.order` is a number or NaN: a numeric order itself, a missing one NaN, a null one 0 |
| TaskList.FilterGoalCount | src/pages/TaskList.tsx:239 | each task of the goal is kept as often as it occurs; the others are dropped |
| TaskList.ReflectSchedule | src/pages/TaskList.tsx:238-242 | the schedule gets the goal's tasks, a permutation of the filtered list, ascending by `order` when the orders are numbers |
| TaskList.ReflectScheduleKeeps | src/pages/TaskList.tsx:238-242 | a task of the chosen goal is handed on as often as it is listed; any other task never is |
| TaskList.DragEnd | src/pages/TaskList.tsx:253-264 | equal ids leave the list unchanged; otherwise it is a permutation with the dragged task at the target's index, and there is no renumbering |
| TaskList.OrderPayload | src/pages/TaskList.tsx:269 | the order payload has the same ids in the same order, numbered 1..N, with only `id` and `order` |
| TaskList.DragEndOrders | src/pages/TaskList.tsx:253-275 | the payload expression of line 269, applied after a drag, puts the dragged task's id at the target's position; as written it is never sent (see "Left out") |
| TaskList.InputValue | src/pages/TaskList.tsx:147 | a number input yields a number or NaN; any other input yields its text |
| TaskList.HandleChange | src/pages/TaskList.tsx:142-155 | only the tasks with the id get the field set to the input's value; the others stay as they were |
| TaskList.DeleteNeedsSameType | src/pages/TaskList.tsx:184 | a string id does not delete the task with the numeric id, because `!==` does not convert |
| TaskList.PriorityCell | src/pages/TaskList.tsx:353-359 | priority 1 shows 低, 2 shows 中, anything else shows 高 |
| Schedule.SchedulingOrder | src/pages/ScheduleComponent.tsx:62 | the tasks are a permutation, and on numeric orders they are ascending by `order \|\| 0` with ties in input order |
| Schedule.NoWorkPermutation | src/pages/ScheduleComponent.tsx:62 | sorting does not create work where there was none |
| Schedule.Chunks | src/pages/ScheduleComponent.tsx:69-99 | a task with no positive hours books nothing; otherwise the position after its last chunk still has capacity left in the window |
| Schedule.ChunksStep | src/pages/ScheduleComponent.tsx:70-98 | one turn of the inner loop books one event at `start + used hours` and advances the position, rolling over to the next day when the day is full |
| Schedule.Plan | src/pages/ScheduleComponent.tsx:67-100 | with a positive day length the final position has capacity left; with none, no task can be booked and nothing is |
| Schedule.PlanStep | src/pages/ScheduleComponent.tsx:67-100 | one turn of the outer loop appends the task's chunks to the plan |
| Schedule.BookTask | src/pages/ScheduleComponent.tsx:68-99 | the inner `while` loop appends exactly the task's chunks and returns the next position |
| Schedule.GenerateSchedule | src/pages/ScheduleComponent.tsx:54-103 | the nested loops return exactly the schedule of the tasks, starting today with the full window |
| Schedule.Schedule | src/pages/ScheduleComponent.tsx:54-103 | no working hours or no tasks give no events; the tiling, capacity and conservation of the events are proved in ScheduleTiled, ScheduleCapacity and ScheduleConserves |
| Schedule.Advance | src/pages/ScheduleComponent.tsx:93-98 | the next day, with a full window, starts exactly when the day is used up; otherwise the same day keeps the hours left; a position inside the window stays inside |
| Schedule.Hours | src/pages/ScheduleComponent.tsx:68 | a numeric `estimated_time` is the task's hours; a falsy one, or a text that is not a number, counts 0 |
| Schedule.OrderKey | src/pages/ScheduleComponent.tsx:62 | the sort key `order \|\| 0` is a number or NaN: a numeric order itself, a falsy one 0 |
| Schedule.Title | src/pages/ScheduleComponent.tsx:82 | the title is always truthy: `name` when truthy, else `taskName` when truthy, else 'Unnamed Task' |
| Schedule.DescriptionOf | src/pages/ScheduleComponent.tsx:86 | never nullish: the description when truthy, else "" |
| Schedule.PriorityOf | src/pages/ScheduleComponent.tsx:87 | never nullish: `taskPriority` when truthy, else 0 |
| Schedule.ChunksTiled | src/pages/ScheduleComponent.tsx:70-98 | one task's chunks tile the working windows from the start position to the end position |
| Schedule.PlanTiled | src/pages/ScheduleComponent.tsx:67-100 | the whole plan tiles the working windows |
| Schedule.ScheduleTiled | src/pages/ScheduleComponent.tsx:63-100 | every event is non-empty and inside its day's window; each event follows the previous one without a gap; the day advances by one exactly when the previous event filled its day; the first event starts today at the start time |
| Schedule.TiledEarlier | src/pages/ScheduleComponent.tsx:67-100 | in a tiled schedule, an earlier event ends before a later one begins |
| Schedule.ScheduleOrdered | src/pages/ScheduleComponent.tsx:67-100 | events come out in (day, time) order, and two events of the same day never overlap |
| Schedule.ScheduleDisjointInTime | src/pages/ScheduleComponent.tsx:74-79 | on one time line, events do not overlap when the working day fits in 24 hours |
| Schedule.LongDayOverlaps | src/pages/ScheduleComponent.tsx:74-97 | with a 30-hour working day, a 31-hour task's first chunk ends after its second chunk starts on the next day |
| Schedule.DayMinutesTiled | src/pages/ScheduleComponent.tsx:74-92 | in a tiled schedule, the minutes booked on the last event's day equal its end minus the window start |
| Schedule.ScheduleCapacity | src/pages/ScheduleComponent.tsx:78-97 | no day is booked for more than `hoursPerDay` hours |
| Schedule.ChunksConserve | src/pages/ScheduleComponent.tsx:78-91 | one task's events carry its title, description and priority, and last exactly its positive hours |
| Schedule.ChunksSplit | src/pages/ScheduleComponent.tsx:91-98 | a task longer than what is left today fills the day, and continues at the start of the next day |
| Schedule.PlanConserves | src/pages/ScheduleComponent.tsx:67-100 | the plan books exactly the positive hours of its tasks |
| Schedule.TotalHoursPermutation | src/pages/ScheduleComponent.tsx:62 | the hours to book do not depend on the order of the tasks |
| Schedule.ScheduleConserves | src/pages/ScheduleComponent.tsx:54-103 | a schedule books, in total, exactly the positive hours of all the tasks |
| GoalTasks.TaskRecord | src/pages/Goal_bk.tsx:300-315 | the normalised record has exactly the listed keys, `id = order = index + 1`, the given name, time and priority, copied user, goal, description and elapsed time, and `\|\|` defaults for review interval, repetition count and last notification |
| GoalTasks.NameOf | src/pages/Goal_bk.tsx:302 | the name is `String(taskName ?? "")` |
| GoalTasks.TaskRecordIgnoresNumbering | src/pages/Goal_bk.tsx:300-305 | the record does not depend on the incoming `id` and `order` |
| GoalTasks.NormalisedIds | src/pages/Goal_bk.tsx:238-239 | in a table numbered 1..N, `findIndex` of id `k` is `k - 1` |
| GoalTasks.NormalisedRenumbered | src/pages/Goal_bk.tsx:241-244 | renumbering a normalised table changes nothing |
| GoalTasks.DragNormalised | src/pages/Goal_bk.tsx:233-247 | a drag between ids `a` and `o` of a normalised table lands task `a` at row `o`, numbered 1..N |
| GoalTasks.TotalHoursPointwise | src/pages/Goal_bk.tsx:407 | lists whose tasks count the same hours, position by position, have the same total |
| GoalTasks.TotalHoursNonNegative | src/pages/Goal_bk.tsx:407 | non-negative hours sum to a non-negative total |
| GoalTasks.EditField | src/pages/Goal_bk.tsx:266-277 | only the edited field changes; a numeric field gets `Number(text)` and any other field the text; no task being edited means no change |
| GoalTasks.EditNumericRoundTrip | src/pages/Goal_bk.tsx:273 | typing the decimal form of `n` into a numeric field stores the number `n` |
| GoalTasks.UpdateById | src/pages/Goal_bk.tsx:255-257 | only tasks whose id is `===` to `Number(id)` are replaced by `{...task, ...updated}` |
| GoalTasks.DeleteById | src/pages/Goal_bk.tsx:281 | no kept task has id `Number(id)` |
| GoalTasks.UpdateByRenderedId | src/pages/Goal.tsx:272-274 | updating by the string `"7"` is updating by the number 7 |
| GoalTasks.UpdateByNonNumericId | src/pages/Goal.tsx:272-274 | an id that does not parse as a number updates nothing |
| GoalTasks.DeleteByRenderedId | src/pages/Goal.tsx:298 | deleting by `"7"` drops exactly the tasks with id 7 and keeps every other task as often as it occurs |
| GoalTasks.DeleteAbsentId | src/pages/Goal.tsx:298 | deleting an id that no task has leaves the list as it is, not renumbered |
| GoalBk.ChatToTasks | src/pages/Goal_bk.tsx:300-315 | one record per AI task, in the same order, numbered 1..N, with `name = String(taskName ?? "")`, `taskTime = taskTime ?? 0` (so 0 is kept) and `taskPriority` copied |
| GoalBk.ChatToTasksIgnoresNumbering | src/pages/Goal_bk.tsx:300-305 | incoming ids and orders are discarded |
| GoalBk.RecordIgnoresNumbering | src/pages/Goal_bk.tsx:300-305 | one record does not depend on the incoming id and order |
| GoalBk.DragAfterTransform | src/pages/Goal_bk.tsx:233-247 | on the transformed table both dragged ids are found; the dragged task lands on the target's row and the orders stay 1..N |
| GoalBk.TotalTimeIsSum | src/pages/Goal_bk.tsx:407 | with numeric or missing hours, the total is their sum, a missing one counting 0 |
| GoalBk.TotalTime | src/pages/Goal_bk.tsx:407 | the total is text exactly when some `taskTime` is a string, and a number or NaN otherwise |
| GoalBk.TotalTimeNonNegative | src/pages/Goal_bk.tsx:407 | non-negative hours give a non-negative total |
| GoalBk.Edit | src/pages/Goal_bk.tsx:266-277 | only the edited field changes; `taskTime` and `taskPriority` get `Number(text)`, and other fields the text |
| GoalBk.EditorPriorityStaysText | src/pages/Goal_bk.tsx:273 | the row editor's `tasktaskPriority` is stored as text, while `taskTime` is stored as a number |
| Goal.ChatToTasks | src/pages/Goal.tsx:638-653 | one record per AI task, numbered 1..N, with `name = String(taskName ?? "")`, `taskTime = taskTime ?? 0`, and the priority read from `tasktaskPriority` |
| Goal.EarlyChatToTasks | src/pages/Goal.tsx:314-335 | the early chat effect builds the same numbered records but copies the priority from `taskPriority` |
| Goal.TableAfterReply | src/pages/Goal.tsx:635-665 | after the render in which the reply changes, the last queued update wins: an empty reply leaves the table alone, a reply arriving at an empty table is shown raw, and otherwise the table is the late chat transform |
| Goal.TransformTasks | src/pages/Goal.tsx:723-740 | one record per task, numbered 1..N, with `taskName` and `taskTime` copied as they are and the priority from `tasktaskPriority` |
| Goal.TransformsAgree | src/pages/Goal.tsx:723-740 | the two normalisations agree on a task exactly when its `taskName` is a string and its `taskTime` is neither null nor absent |
| Goal.DragReordersReply | src/pages/Goal.tsx:250-264 | the drag renumbers the reply, but the table rebuilt from it equals the table of the plainly moved reply |
| Goal.ChatToTasksIgnoresNumbering | src/pages/Goal.tsx:638-653 | incoming ids and orders are discarded |
| Goal.DraggedTaskLands | src/pages/Goal.tsx:250-264 | after the rebuild, the target's row is built from the dragged AI task |
| Goal.ChatToTasksAt | src/pages/Goal.tsx:638-653 | row `k` of the table is the record of AI task `k` |
| Goal.DraggedRow | src/pages/Goal.tsx:250-264 | every rebuilt row equals the row of the plainly moved reply |
| Goal.RecordIgnoresNumbering | src/pages/Goal.tsx:638-653 | one record does not depend on the incoming id and order |
| Goal.TotalTimeCases | src/pages/Goal.tsx:424 | with numeric or nullish hours, the total is the sum (null adding 0) when no `taskTime` is absent, and NaN as soon as one is |
| Goal.TotalTime | src/pages/Goal.tsx:424 | the total is text exactly when some `taskTime` is a string, and a number or NaN otherwise |
| Goal.TotalTimeAfterTransform | src/pages/Goal.tsx:638-653 | a contrast, not a model of line 424: the table the chat effect builds never lacks hours, so a total taken over the table would be the sum of the reply's hours |
| Goal.TotalTimeRawVersusTable | src/pages/Goal.tsx:424 | for one AI task without `taskTime`, the page's total is NaN while the table built from it sums to 0 |
| Goal.Edit | src/pages/Goal.tsx:283-293 | only the edited field changes; `taskTime` and `tasktaskPriority` get `Number(text)`, and other fields stay text |
| Goal.EditorPriorityIsNumber | src/pages/Goal.tsx:283-293 | the priority picked in the row editor is stored as a number, and a name stays text |
| Progress.Round | src/pages/Goal.tsx:179 | `Math.round(p / q)` is within one half of `p / q`, halves rounding up |
| Progress.Clamp | src/pages/Goal.tsx:179 | the clamp lies in 0..100 and is the identity inside that range |
| Progress.Percentage | src/pages/Goal_bk.tsx:159-165 | the percentage always lies in 0..100, and is 0 when the total time is not positive |
| Progress.PercentageRounds | src/pages/Goal.tsx:176-182 | for progress between 0 and the total, the percentage is the nearest integer to `100 * status / totalTime` |
| Progress.PercentageMonotone | src/pages/Goal.tsx:176-182 | more hours done never lowers the percentage |
| Progress.PercentageEnds | src/pages/Goal.tsx:176-182 | finishing every hour or more shows 100; no progress or less shows 0 |
| Auth.Step | src/store/authSlice.ts:20-70 | only `setUserId` and `clearUserId` change `userId`; only `loginSuccess` or `setAuth(true)` authenticate; `loginStart` sets loading and success, failure and logout clear it; no reducer shows an error while a login is in flight |
| Auth.Run | src/store/authSlice.ts:17-71 | after any sequence of actions the state is authenticated only if it already was or some action was `loginSuccess` or `setAuth(true)` |
| Auth.RunKeepsNoErrorWhileLoading | src/store/authSlice.ts:17-71 | every sequence of actions keeps that invariant |
| Auth.UserIdOnlyBySetters | src/store/authSlice.ts:22-69 | only `setUserId` and `clearUserId` change `state.userId` |
| Auth.RunTwo | src/store/authSlice.ts:17-71 | dispatching two actions applies their reducers in order |
| Auth.StartThenSuccess | src/store/authSlice.ts:42-56 | a started login that succeeds ends authenticated, idle, without error, and with the user recorded |
| Auth.StartThenFailure | src/store/authSlice.ts:42-62 | a started login that fails ends unauthenticated and idle, showing the message |
| Auth.SuccessThenLogout | src/store/authSlice.ts:51-69 | a logout right after a login ends logged out and idle, with `user` null and `userId` kept |
| Auth.AuthSlice.constructor | src/store/authSlice.ts:10-15 | the initial state has no user id, is not authenticated, has no error and is not loading |
| Auth.AuthSlice.SetUserId | src/store/authSlice.ts:22-27 | sets `userId`, and sets `user.userId` only when a user exists |
| Auth.AuthSlice.ClearUserId | src/store/authSlice.ts:38-40 | the later declaration: clears `userId` and leaves `user` alone |
| Auth.AuthSlice.SetUser | src/store/authSlice.ts:35-37 | changes only `user` |
| Auth.AuthSlice.LoginStart | src/store/authSlice.ts:42-45 | sets loading and clears the error, and nothing else |
| Auth.AuthSlice.SetAuth | src/store/authSlice.ts:47-49 | changes only `isAuthenticated` |
| Auth.AuthSlice.LoginSuccess | src/store/authSlice.ts:51-56 | records the user, authenticated, not loading, no error, and `userId` untouched |
| Auth.AuthSlice.LoginFailure | src/store/authSlice.ts:58-62 | shows the message, not authenticated, not loading |
| Auth.AuthSlice.Logout | src/store/authSlice.ts:64-69 | `user` null, not authenticated, no error, not loading, and `userId` kept |
| Auth.AuthSlice.Dispatch | src/store/authSlice.ts:17-71 | dispatching an action performs that action's reducer |
| Api.WithId | src/config/api.ts:46 | an id-built URL extends `BASE_URL` plus its path |
| Api.UserGoals | src/config/api.ts:35 | the user-goals URL is `BASE_URL/goals/user/` followed by the user id |
| Api.DeleteGoal | src/config/api.ts:42 | the URL lies under `BASE_URL` |
| Api.GoalDetail | src/config/api.ts:46 | the URL lies under `BASE_URL` |
| Api.ChatGoal | src/config/api.ts:50 | the URL lies under `BASE_URL` |
| Api.ChatHistory | src/config/api.ts:54 | the URL lies under `BASE_URL` |
| Api.GoalTasks | src/config/api.ts:58 | the URL lies under `BASE_URL` |
| Api.SaveTasks | src/config/api.ts:62 | the URL lies under `BASE_URL` |
| Api.UpdateTask | src/config/api.ts:66 | the URL lies under `BASE_URL` |
| Api.DeleteTask | src/config/api.ts:68 | the URL lies under `BASE_URL` |
| Api.FixedEndpointsUnderBase | src/config/api.ts:1-38 | every fixed endpoint except `CSRF_COOKIE` lies under `BASE_URL`, and `CSRF_COOKIE` is a relative path |
| Api.SharedEndpoints | src/config/api.ts:31-68 | `DELETE_GOAL` equals `GOAL_DETAIL`, `CREATE_GOAL` equals `GOALS`, and `UPDATE_TASK` equals `DELETE_TASK` |
| Api.NestedEndpoints | src/config/api.ts:46-62 | `SAVE_TASKS` is `GOAL_TASKS + "/save"`, and the chat and task URLs extend the goal's URL |
| Api.WithIdInjective | src/config/api.ts:42-68 | the same path and suffix with two different ids give two different URLs |
| Api.BuildersInjective | src/config/api.ts:42-68 | every id-built endpoint maps distinct ids to distinct URLs |
| Api.UserGoalsInjective | src/config/api.ts:35 | distinct user ids give distinct URLs, and the same id gives the same URL |
| Api.GoalAndTaskUrlsDiffer | src/config/api.ts:46-66 | a goal URL never equals a task URL, whatever the two ids |
| SortableItem.IsEditing | src/pages/SortableItem.tsx:26 | a row is edited only when an editing id is set and its id is not null; a string id is edited exactly when it equals the editing id |
| SortableItem.EditingRows | src/pages/SortableItem.tsx:26 | a row is edited exactly when its id is the number `n` or the string of its digits |
| SortableItem.OneEditingRow | src/pages/SortableItem.tsx:26 | in a table numbered 1..N, editing id `k` selects exactly row `k - 1` |
| SortableItem.OrderCell | src/pages/SortableItem.tsx:32 | the cell shows `order` when it is set, and `index + 1` otherwise |
| SortableItem.OrderCellsNumbered | src/pages/SortableItem.tsx:32 | a renumbered table shows 1..N, and distinct rows show distinct numbers |
| SortableItem.OrderCellAfterLocalDrag | src/pages/TaskList.tsx:319 | after the task list's local drag, the order cell (the same expression as the row component's) shows the dragged row's old number at its new position |
| SortableItem.NameCell | src/pages/SortableItem.tsx:41 | the cell shows `taskName` when it is truthy, and `name` otherwise |
| SortableItem.NameCellOfNormalised | src/pages/SortableItem.tsx:41 | a normalised row shows the name the transform gave it |
| SortableItem.DurationCell | src/pages/SortableItem.tsx:52 | the cell shows `taskTime` as text, or "0" when it is null or undefined |
| SortableItem.DurationCellReadsBack | src/pages/SortableItem.tsx:52 | reading the cell back as a number gives the task's hours, a missing one as 0 |
| SortableItem.DurationEditorValue | src/pages/SortableItem.tsx:47 | the editor is empty when no task is edited or it has no hours, and shows `String(taskTime)` otherwise: the digits for a number, the text itself for a string |
| SortableItem.DurationEditIsStable | src/pages/SortableItem.tsx:46-49 | firing the hours input unchanged leaves the edited task unchanged, on both goal pages |
| SortableItem.PriorityLabel | src/pages/SortableItem.tsx:66-72 | 低 exactly for `tasktaskPriority === 1`, 中 exactly for `=== 2`, 高 otherwise |
| SortableItem.PriorityEditorValue | src/pages/SortableItem.tsx:58 | the editor shows "1" when no task is edited or its priority is falsy, and `String(priority)` otherwise |
| SortableItem.PickPriority | src/pages/SortableItem.tsx:57-72 | on the goal page, picking option `v` shows `v` in the editor and its label in the row |
| SortableItem.PickPriorityAsText | src/pages/SortableItem.tsx:59-72 | on the earlier goal page the picked option stays text, so the label always shows 高 |
| SortableItem.NormalisedRowsShowHigh | src/pages/SortableItem.tsx:66-72 | the transforms store the priority under `taskPriority`, which the cell does not read, so every freshly normalised row shows 高 |

## Left out

- HTTP: every axios call, its asynchrony and its error path are left out. This covers fetching goals and tasks, create and chat requests, the save, update, delete and order requests, and the elapsed-time and review-interval updates. The model keeps the arrays and payloads computed around the calls. The replies of `handleSave` are parameters.
- Cleaning the AI reply and `JSON.parse` are library string processing. The parsed reply is a parameter.
- React effects and state batching are left out, with one exception. `Goal.tsx` declares two chat effects on the same dependency: the early one (lines 314-335) copies the priority from `taskPriority`, and the late one (lines 635-656) reads `tasktaskPriority`. The late one's update is queued last, so it is the one a non-empty table keeps (Goal.ChatToTasks). Each chat effect is followed by a fallback (lines 341-345 and 661-665) that queues the raw reply when the table it sees is empty. The late fallback is queued last of all, so a reply arriving at an empty table is shown raw, not normalised. Goal.TableAfterReply models this order of updates. On `Goal_bk.tsx` each transform is modelled on its own.
- Dates: moment, `Date`, FullCalendar and the `createdAt`/`updatedAt` timestamps are left out. "Today" is a day-number parameter, and a time of day is a count of minutes.
- The parsing of the `"HH:MM"` start time is left out. The hour and minute are parameters.
- Floating point is left out. Hours, ids and priorities are integers, and `Math.round` is taken as `floor(x + 1/2)` on exact rationals.
- Js.ParseNumber: reads only decimal integers with an optional `+` or `-` sign, and the empty string. Whitespace, fractions, exponents, hex and `Infinity` read as NaN here, which `Number` would not do.
- Js.Add: is exact only for integers and strings; floating-point sums are not modelled.
- Sorting.Less: compares two numbers or two strings. A mixed number/string comparison, with its implicit conversions, is not modelled.
- TaskList.SortedTasks: promises sortedness and stability only when the column values are all numbers or all strings. With mixed or nullish values the JS comparator is not a consistent order, and the result depends on the engine; the model still promises a permutation.
- TaskList.ReflectSchedule: promises the ascending order only when every `order` is a number, for the same reason.
- Schedule.SchedulingOrder: promises the ascending order only when every `order || 0` is a number, for the same reason.
- Schedule.GenerateSchedule: counts whole hours. A non-integral `estimated_time` or `hoursPerDay` is not modelled. A non-array input, which the source rejects at its guard, cannot occur in a typed model.
- Schedule.GenerateSchedule: requires `hoursPerDay > 0` or no task with positive hours, because otherwise the source loops forever.
- `findIndex` returning -1 on a drag is excluded by precondition: both ids come from rows of the rendered list, so both are found. (dnd-kit's `arrayMove` would count -1 from the end of the list; that case is not modelled.)
- Drag handlers: a drop outside every row gives `over == null`, and reading `over.id` then throws (TaskList.tsx:255, Goal_bk.tsx:236, Goal.tsx:253). The model takes `over` as a value and does not represent a missing drop target.
- Js.LexLess: orders strings by Unicode code point, while JS `<` compares UTF-16 code units. The two orders differ between characters above U+FFFF and characters in U+E000 to U+FFFF.
- TaskList.DragEnd: models the intended handler. As written, `arrayMove` (TaskList.tsx:259) is not imported, so the handler throws before reordering. No drag can start anyway, because no row is ever shown; see the next line.
- Task list rows: as written, the task list page throws while rendering its first row. `CSS` (TaskList.tsx:312) is not imported, so it names the browser's global `CSS` object, which has no `Transform`, and `CSS.Transform.toString(transform)` raises a TypeError. `desiredGoalId` is never set and stays `null` (TaskList.tsx:67), so the filter at TaskList.tsx:307 keeps every task, and the render throws whenever the list is non-empty. The order cell, the priority cell, the in-row inputs, the edit, save and delete buttons and the drag handles therefore never appear.
- TaskList.PriorityCell: models the intended rendering of TaskList.tsx:353-359; as written the row render throws before the cell is reached.
- TaskList.HandleChange: models the intended handler of the in-row inputs; as written those inputs are never rendered, so it is never called.
- TaskList.InputValue: about the same in-row inputs, never rendered as written.
- TaskList.DeleteNeedsSameType: models `handleDeleteTask` (TaskList.tsx:184), whose delete button sits in a row that is never rendered as written.
- SortableItem.OrderCellAfterLocalDrag: models the intended order cell of TaskList.tsx:319; as written neither the drag nor the cell is ever reached.
- Task list save: TaskList.tsx:127 calls the one-parameter `UPDATE_TASK` (config/api.ts:66) with two arguments, `UPDATE_TASK(goalId, Number(id))`, so the PUT would go to `/tasks/<goalId>` rather than to the edited task's URL; its save button is in a row, so as written it is never sent either. The request is not modelled; Api.UpdateTask models the builder itself.
- TaskList.OrderPayload: models the intended payload of TaskList.tsx:269. As written it is never built: `API_ENDPOINTS.UPDATE_TASK_ORDER` is missing from the endpoint table, so evaluating the request's arguments throws first, and the catch only sets the error message.
- TaskList.DragEndOrders: states what that payload would send after a drag; as written no order payload is ever sent.
- Goal.DragReordersReply: models `handleDragEnd` of Goal.tsx:250-264 as written, but that handler is unreachable: the table has no `DndContext` around it and nothing references the handler.
- Goal.DraggedTaskLands: about the same unreachable handler.
- Goal.DraggedRow: about the same unreachable handler.
- Goal.TransformTasks: `transformTasks` (Goal.tsx:723) is called only from commented-out code (Goal.tsx:700), so it models unreachable code; Goal.TransformsAgree compares it with the live chat transform.
- `desiredGoalId` is a parameter, and the page never sets it.
- The first `clearUserId` declaration is overridden by the later one with the same key, so only the later one is modelled.
- Api builders: take integer ids rendered in decimal. Fractional or string ids are not modelled. `UPDATE_TASK_ORDER`, `UPDATE_ELAPSED_TIME` and `UPDATE_REVIEW_INTERVAL` are referenced by the task list page but missing from the endpoint table, so calling them throws and those requests are never sent; there are no builders for them here.
- Progress.Percentage: takes integer hours for `status` and `totalTime`.
- Login, registration, routing, the auth provider, hooks, the sidebar and the type declarations are not part of this model. They are UI and session plumbing.
