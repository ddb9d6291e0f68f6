# Weekly schedule: task state and AI reconciliation

A model, in Dafny, of the logic of a one-page weekly schedule application.
Each weekday holds a fixed list of task templates (id, time slot, description,
category). On top of them the page keeps an overlay record, from task id to
the fields the user or the AI has set: `done`, `datetime`, `notified`,
`priority` and `reason`.

The model covers:

- the two server actions (`getPrioritizedTasks`, `getSuggestedTimes`). Each
  builds a request from the task list and sends it to an AI service. It then
  indexes the tasks in a JavaScript `Map` by id and overwrites the entries
  the response names. It returns the map's values in insertion order, or
  throws a fixed error when the service fails;
- the page's handlers: `toggleDone` and `setDateTime`;
- the minute-by-minute notification scan, which marks tasks due within 300
  seconds as `notified`;
- `handleAiAction`, which writes an AI result back into the overlay, shows a
  toast and clears the loading flag;
- `getCompletion`, the percentage of done tasks;
- each day's list: filtered by category tab, combined with the overlay, and
  sorted by `priority ?? 99` with the stable `Array.prototype.sort`.

Layout:

| file | module | models |
|---|---|---|
| `types.dfy` | `Types` | task, template, day and date value types (`src/lib/types.ts`) |
| `task_map.dfy` | `TaskMaps` | the id-keyed `Map` the merges use: a `TaskMap` class, plus reference functions for its keys and values |
| `actions.dfy` | `Actions` | request building, the merge reference `Merged`, the merge loops as methods, and their properties |
| `overlay.dfy` | `Overlay` | the overlay record and its pure updaters and views, the AI reconciliation reference, and the `notified` invariant over any sequence of operations |
| `priority_sort.dfy` | `PrioritySort` | the day list's stable sort: an in-place array insertion sort proved against a functional stable sort |
| `page.dfy` | `Page` | the page's state (`tasks`, `filter`, `isLoadingAi`) as a class whose methods are the handlers |

Modelling choices:

- The JavaScript field states "undefined" and "absent" behave alike in this
  code, so both are `None`. `datetime` also has `Null`, because the
  prioritize response can carry `null`.
- The AI services are parameters: total functions from the request to a
  `Result`, where `Failure` stands for any thrown error.
- The clock is the parameter `now` (milliseconds) or `currentDateTime` (its
  ISO text).
- `Date#toISOString` is a parameter `iso: int -> string`.
- `new Date(text).getTime()` is a parameter `parse: string -> Option<int>`,
  where `None` stands for NaN.
- A `Date` passed to `setDateTime` is a `JsDate`: its `getTime()`, or `None`
  for an invalid date.
- The week's templates, the constant table of `src/lib/data.ts`, are a
  parameter `days`; the page's handlers flatten it with `Overlay.AllItems`,
  and the pure functions take the resulting list `items`. The model does not
  assume distinct ids; the lemmas that need them require `Distinct`
  explicitly.

Where the code and the written design disagree, the model follows the code:

- The prioritize merge also copies `task`, `type` and `time` from the
  response, not only done/datetime/priority/reason. `handleAiAction` drops
  those three fields again when it writes the overlay.
- `handleAiAction` writes an overlay entry for every task the action returns,
  so a task the response does not name can gain an entry. That entry has all
  fields unset, so it reads the same as the missing entry it replaces.
  `Overlay.AiPrioritizeEntries` states it as "reads as before" (`EntryAt`).
- Dates are ISO strings, not timestamps.

## Model

| member | source | states |
|---|---|---|
| TaskMaps.Dedup | src/app/actions.ts:25 | the keys of a `Map` built from a list of ids: each id once, no id lost or added |
| TaskMaps.LastTask | src/app/actions.ts:25 | the value a `Map` keeps for an id is a task of the list with that id (the last one) |
| TaskMaps.DedupOfDistinct | src/app/actions.ts:25 | with distinct ids the `Map`'s keys are the ids in list order |
| TaskMaps.LastTaskOfDistinct | src/app/actions.ts:25 | with distinct ids every task is the value its id maps to |
| TaskMaps.LastById | src/app/actions.ts:25 | the `Map` built from a task list has exactly the list's ids as keys |
| TaskMaps.SetNext | src/app/actions.ts:25 | adding one more task to the `Map`: a new id goes last, a known id keeps its place and takes the new value |
| TaskMaps.TaskMap.constructor | src/app/actions.ts:25 | `new Map(tasks.map(t => [t.id, t]))`: keys are the distinct ids in first-occurrence order; each maps to the last task with that id |
| TaskMaps.TaskMap.Set | src/app/actions.ts:30-40 | `map.set`: the value is replaced; the key is appended only when new, so a known key keeps its position |
| TaskMaps.TaskMap.Values | src/app/actions.ts:44 | `Array.from(map.values())`: the values in key order |
| Actions.OrNull | src/app/actions.ts:17 | the request's date is null exactly for a missing, null or empty date (JavaScript falsiness); otherwise it is the date text |
| Actions.PrioritizeRequest | src/app/actions.ts:11-21 | one request item per task, in task order, with its id, task, type and time; the date, null when falsy; done, true exactly when the task's done is true; the given current time |
| Actions.PriorityOr3 | src/app/actions.ts:60 | the request priority: a nonzero priority is kept; a zero or missing one (falsy) becomes 3; never 0 |
| Actions.SuggestRequest | src/app/actions.ts:54-64 | one request item per task, in task order: deadline always null, a falsy priority sent as 3, the original time null when the date is falsy; the fixed historical-preference text |
| Actions.Latest | src/app/actions.ts:27-42 | response items by id: every id the response mentions is present, each filed under its own id, each an item of the response |
| Actions.LatestIsLast | src/app/actions.ts:27-42 | for an id, the kept response item is the last one with that id (a later `set` overwrites an earlier one) |
| Actions.Merged | src/app/actions.ts:25-44 | the merge reference: one output task per distinct input id |
| Actions.MergeStep | src/app/actions.ts:27-42 | one loop turn (update only when `taskMap.has(p.id)`) keeps the map equal to the reference, with one more response item seen |
| Actions.ValuesAreMerged | src/app/actions.ts:44 | after the loop, the map's values in key order equal the reference `Merged` |
| Actions.PrioritizedUpdateRules | src/app/actions.ts:30-40 | a prioritize update keeps the task's id, and of two updates for one task the later alone decides the result |
| Actions.SuggestionUpdateRules | src/app/actions.ts:73-77 | a suggestion keeps the task's id, and of two suggestions for one task the later alone decides the result |
| Actions.MergedIds | src/app/actions.ts:25-44 | a merge returns exactly the distinct input ids, in first-occurrence order |
| Actions.LastOfMerged | src/app/actions.ts:25-44 | the output task for an input id is that id's task updated by the last response item for the id, or unchanged if none |
| Actions.MergedOfDistinct | src/app/actions.ts:25-44 | with distinct input ids a merge keeps length and order, and updates each task in place |
| Actions.MergedIdempotent | src/app/actions.ts:25-44 | merging the same response into a merge's own output returns that output |
| Actions.PrioritizeKeepsTaskSet | src/app/actions.ts:25-28 | prioritizing neither adds nor drops a task: output ids are the input ids, once each; response items with unknown ids are ignored |
| Actions.PrioritizeInPlace | src/app/actions.ts:27-40 | with distinct ids: same length and order; a named task takes task/type/time/datetime/done/priority/reason from the last response item for it and keeps `notified`; an unnamed task is unchanged |
| Actions.PrioritizeIdempotent | src/app/actions.ts:27-42 | applying the same prioritize response twice equals applying it once |
| Actions.SuggestKeepsTaskSet | src/app/actions.ts:68-71 | suggesting neither adds nor drops a task: output ids are the input ids, once each; unknown ids are ignored |
| Actions.SuggestInPlace | src/app/actions.ts:70-77 | with distinct ids: same length and order; only `datetime` and `reason` of named tasks change, to the last suggestion's time and reasoning; all else is untouched |
| Actions.SuggestIdempotent | src/app/actions.ts:70-79 | applying the same suggestions twice equals applying them once |
| Actions.GetPrioritizedTasks | src/app/actions.ts:8-49 | returns the reference merge of the service's response, or the fixed error "Failed to prioritize tasks with AI." with nothing merged when the service fails |
| Actions.GetSuggestedTimes | src/app/actions.ts:51-87 | returns the reference merge of the service's suggestions, or the fixed error "Failed to suggest task times with AI." with nothing merged when the service fails |
| Overlay.ToggleDone | src/app/page.tsx:94-99 | `done` of the entry becomes the negation of its truth value (missing counts as false); its other fields and every other entry are unchanged |
| Overlay.ToggleTwice | src/app/page.tsx:94-99 | toggling twice restores the truth value of `done` and leaves the other fields as they were |
| Overlay.SetDateTime | src/app/page.tsx:101-117 | no date: only `datetime` of the entry is cleared (an empty entry is created if missing); an invalid date: state unchanged; a valid date: `datetime` becomes its ISO text, all else kept |
| Overlay.Notify | src/app/page.tsx:72-86 | the scan only sets `notified`; a task is notified afterwards exactly when it was before, or it is listed and was due (dated, not notified, not done, 0 < time − now ≤ 300000 ms); the entry of a task that was not listed and due is left exactly as it was |
| Overlay.DueItems | src/app/page.tsx:72-81 | the tasks a scan fires for are exactly the listed ones that are due |
| Overlay.NotifySnoc | src/app/page.tsx:72-86 | the scan over one more item adds one record update and one notification, exactly when that item is due |
| Overlay.NotifiesOnce | src/app/page.tsx:74 | a task a scan fires for was not notified, is notified afterwards, and is never due at any later scan |
| Overlay.DoneCount | src/app/page.tsx:124 | the number of done items is at most the number of items; it equals it iff all are done and is 0 iff none is |
| Overlay.Percent | src/app/page.tsx:125 | `n / len * 100` lies in [0, 100]; it is 100 exactly when `n` is the whole and 0 exactly when `n` is 0 |
| Overlay.PercentShare | src/app/page.tsx:125 | the percentage is exact: percentage × len = 100 × n |
| Overlay.Completion | src/app/page.tsx:122-126 | 0 for no items; otherwise the done count's percentage of the item count; within [0, 100]; 100 iff there are items and all are done; 0 iff none is done (done counts as in `Overlay.DoneCount`) |
| Overlay.Fraction | src/app/page.tsx:125 | a share of a positive whole lies in [0, 1] and reaches 1 or 0 exactly at the whole or at nothing |
| Overlay.OneOfThreeDone | src/app/page.tsx:122-126 | a day of three tasks with one done is one third complete |
| Overlay.WithState | src/app/page.tsx:132 | `{...item, ...tasks[item.id]}`: the template's fields with the entry's state fields |
| Overlay.WithStateAll | src/app/page.tsx:132 | every template, in order, with its entry; same ids as the templates |
| Overlay.LastWithState | src/app/page.tsx:132 | in the list sent to the AI, the task for a listed id carries that id's entry |
| Overlay.Visible | src/app/page.tsx:215 | the tab keeps exactly the items of the chosen category (all of them, in order, for "all") |
| Overlay.VisibleAppend | src/app/page.tsx:215 | the tab filters a list piece by piece, so the items it keeps stay in their order and keep their repeats |
| Overlay.AllItemsMembers | src/app/page.tsx:71 | `flatMap(d => d.items)`: an item is listed iff some day holds it |
| Overlay.AllItemsSnoc | src/app/page.tsx:71 | `flatMap` lists the days' items day after day: one more day appends its items, in their order |
| Overlay.ReconciledSnoc | src/app/page.tsx:139-148 | writing back one more result task stores its state fields under its id on top of the previous ones; writing back nothing leaves the copy as it was |
| Overlay.ReconciledAppend | src/app/page.tsx:139-148 | the write-back of a list with one more task at its end is the previous write-back with that task's fields stored under its id |
| Overlay.AiPrioritizeEntries | src/app/page.tsx:130-163 | after a prioritize reply: a named listed task has done/datetime/priority/reason from the last reply item for it and its old `notified`; other listed tasks read as before; unlisted entries are untouched; a failure changes nothing |
| Overlay.AiSuggestEntries | src/app/page.tsx:130-163 | after a suggest reply: a named listed task has the suggested time and reasoning, all other fields kept; other entries read as before; a failure changes nothing |
| Overlay.AiPrioritizeKeepsNotified | src/app/page.tsx:141-147 | a prioritize write-back changes no task's `notified` |
| Overlay.AiSuggestKeepsNotified | src/app/page.tsx:141-147 | a suggest write-back changes no task's `notified` |
| Overlay.AiPrioritizeIdempotent | src/app/page.tsx:139-149 | writing back the same prioritize reply twice gives the same overlay as once |
| Overlay.AiSuggestIdempotent | src/app/page.tsx:139-149 | writing back the same suggestions twice gives the same overlay as once |
| Overlay.WriteBackAsWritten | src/app/page.tsx:132-149 | `handleAiAction` split at its `await`: on success the state becomes the write-back over the state from before the call, whatever it is by then; on failure it is left as it is |
| Overlay.PendingReplyUndoesNotified | src/app/page.tsx:69-149 | a scan tick during a pending suggest call notifies a task due in 200 s, and the reply, as written, turns its `notified` off so that it is due again at the next tick a minute later |
| Overlay.PendingPrioritizeUndoesTick | src/app/page.tsx:132-149 | for every state and reply, a successful prioritize reply written back as the page does after a scan tick leaves each task notified exactly when it was before the tick; a failure keeps the tick's state |
| Overlay.PendingSuggestUndoesTick | src/app/page.tsx:132-149 | for every state and reply, a successful suggest reply written back as the page does after a scan tick leaves each task notified exactly when it was before the tick; a failure keeps the tick's state |
| Overlay.WriteBack | src/app/page.tsx:139-149 | the intended write-back onto the current state: returned tasks' fields stored under their ids with the current `notified` kept, other entries untouched, and no task's `notified` changed |
| Overlay.WriteBackOverSnapshot | src/app/page.tsx:139-149 | when the write-back keeps every `notified` anyway, the intended write-back is the source's |
| Overlay.PrioritizeWriteBackAgrees | src/app/page.tsx:130-149 | with nothing in between, the intended write-back of a prioritize reply gives the state the page sets |
| Overlay.SuggestWriteBackAgrees | src/app/page.tsx:130-149 | with nothing in between, the intended write-back of a suggest reply gives the state the page sets |
| Overlay.StepKeepsNotified | src/app/page.tsx:82-149 | no single operation (toggle, date pick, scan, either AI write-back, a late reply written back as intended) turns `notified` off |
| Overlay.RunKeepsNotified | src/app/page.tsx:82-149 | under any sequence of these operations, a notified task stays notified |
| PrioritySort.WithKeyMembers | src/app/page.tsx:218 | the tasks of one key are exactly the list's tasks with that key |
| PrioritySort.WithKeyAppend | src/app/page.tsx:218 | taking one key's tasks commutes with concatenation |
| PrioritySort.WithKeySnoc | src/app/page.tsx:218 | appending a task adds it to its own key's tasks only |
| PrioritySort.InsertPermutes | src/app/page.tsx:218 | one insertion step adds exactly the inserted task |
| PrioritySort.InsertAtMost | src/app/page.tsx:218 | inserting a task into tasks whose keys are at most `m`, when its key is at most `m`, leaves every key at most `m` |
| PrioritySort.InsertSorted | src/app/page.tsx:218 | inserting into a sorted list keeps it sorted by key |
| PrioritySort.InsertWithKey | src/app/page.tsx:218 | inserting puts the task after every task of its key and moves no other task of that key |
| PrioritySort.PastGreater | src/app/page.tsx:218 | stepping past a task of greater key does not change which tasks of a key come before the inserted one |
| PrioritySort.SortSnoc | src/app/page.tsx:218 | sorting one more task is one more insertion step |
| PrioritySort.SortPermutes | src/app/page.tsx:218 | the sort is a permutation of its input |
| PrioritySort.SortIsStable | src/app/page.tsx:218 | the sort's output is ascending by key, and tasks of equal key keep their input order |
| PrioritySort.LastKeysAgree | src/app/page.tsx:218 | two stable sorts of one list end with tasks of the same key |
| PrioritySort.DropLastKey | src/app/page.tsx:218 | two stable sorts agreeing per key still agree without their last tasks, and those last tasks are equal |
| PrioritySort.BothEmpty | src/app/page.tsx:218 | of two stable sorts of one list, one is empty exactly when the other is |
| PrioritySort.DropLast | src/app/page.tsx:218 | two non-empty stable sorts of one list end with the same task, and without it they are still sorted and agree key by key |
| PrioritySort.StableSortIsUnique | src/app/page.tsx:218 | any two stable sorts of a list are equal, so a stable `sort` must return the reference sort |
| PrioritySort.InsertAt | src/app/page.tsx:218 | placing a task just after the last smaller-or-equal key equals the reference insertion |
| PrioritySort.ShiftGreater | src/app/page.tsx:218 | the inner loop of an insertion pass: it moves the tasks with a key greater than the held one up by one slot, stops after the last smaller-or-equal key, and leaves the rest of the array as it was |
| PrioritySort.InsertPass | src/app/page.tsx:218 | one pass of the array sort leaves the prefix equal to the reference insertion and the rest untouched |
| PrioritySort.SortInPlace | src/app/page.tsx:218 | `sortedItems.sort(...)` on an array: the new contents are the reference sort of the old contents, a permutation that is stably sorted by `priority ?? 99` |
| Page.CompleteToast | src/app/page.tsx:150-153 | the success toast of either action is not destructive |
| Page.FailedToast | src/app/page.tsx:154-160 | the failure toast of either action is destructive |
| Page.ToastsTellApart | src/app/page.tsx:150-160 | a success toast is never a failure toast, and on either outcome the toasts of the two actions differ |
| Page.Reconcile | src/app/page.tsx:139-148 | the write-back loop returns the reference reconciliation: each returned task's state fields stored under its id, the rest of the copy unchanged |
| Page.Store.constructor | src/app/page.tsx:41-44 | the page starts with an empty overlay, the "all" tab and nothing loading |
| Page.Store.SetFilter | src/app/page.tsx:202 | a tab change sets the filter and nothing else |
| Page.Store.ToggleDone | src/app/page.tsx:94-99 | the overlay becomes the toggled overlay; `notified` of no task is lost; nothing else changes |
| Page.Store.SetDateTime | src/app/page.tsx:101-117 | clear, reject or set as `Overlay.SetDateTime`, by the source's early returns; `notified` of no task is lost |
| Page.Store.ScanNotifications | src/app/page.tsx:69-88 | one timer run over the week's flattened items: the overlay becomes the scan result and the notifications fired are the due tasks in week order, both judged on the state at the start of the run |
| Page.Store.NotifyDue | src/app/page.tsx:72-87 | the `forEach` pass: the loop leaves the scan result and returns the due items in list order |
| Page.Store.HandleAiAction | src/app/page.tsx:120-164 | for the week's flattened items, the overlay becomes the reconciliation of the chosen action's reply, or stays unchanged on failure, with the matching toast; every task's `notified` is kept; the loading flag is cleared |
| Page.Store.DayItems | src/app/page.tsx:214-218 | a day's card lists the visible templates with their state, as a permutation stably sorted by `priority ?? 99` |

## Findings

| source | as written | input that shows it | evidently intended | confidence | as-written member | corrected member |
|---|---|---|---|---|---|---|
| src/app/page.tsx:132-149 | `handleAiAction` builds `newTasksState` from the `tasks` of the click and sets it after the `await`, copying the old `notified` | state `{a: datetime "x"}`, `new Date("x")` 200 s ahead of a tick: that tick, during a pending suggest call, notifies `a`; the empty reply sets `notified` back to unset, so the next tick, 60 s later and still 140 s ahead, notifies `a` again | a write-back onto the state as it is when the reply lands (`setTasks(prev => ...)`) that keeps its `notified` | high (not executed) | Overlay.PendingReplyUndoesNotified | Overlay.WriteBack |

## Left out

- The AI flows (`src/ai/flows/*.ts`) are a prompt sent to an external model. The service is a parameter, so no property is claimed about the priorities or times it returns. In particular, the ordering policy written in the prompt (overdue first, alphabetical for undated tasks) is not modelled.
- `src/ai/dev.ts` (environment loading) is not part of this model.
- The data table of `src/lib/data.ts` is taken as a parameter (`items`, `days`), not modelled.
- `localStorage` loading and saving of the overlay is left out. It is browser storage; the constructor starts from the empty overlay the page starts with.
- The `Notification` API, its permission request and its message text are left out. These are browser effects; `ScanNotifications` returns the items it would notify about.
- `setInterval`/`clearInterval` and React's effect scheduling are left out. One timer tick is one call of `ScanNotifications`.
- Date parsing and formatting (`new Date(text)`, `toISOString`, `toLocaleTimeString`, the task item's time-of-day editing) are parameters or left out. They are host library code.
- Rendering and `isClient` gating are left out, as is `console.error` logging. The AI buttons are disabled while `isLoadingAi` is set; that is rendering, so `HandleAiAction` does not require the flag to be clear.
- `handleAiAction`'s intermediate `isLoadingAi` value is not visible in the model. It is set while the call is awaited and cleared in `finally`; `HandleAiAction` states only the final cleared flag.
- Overlay.RunKeepsNotified: holds for the source's AI write-back only when each handler runs to completion. In the source a scan tick that lands while an AI call is pending has its `notified` undone by the write-back, and the task is notified again (see Findings); in the trace a reply that lands late is the corrected `WriteBack`.
- Concurrency is left out: the model runs each handler to completion, apart from the late reply above. The page builds `newTasksState` from `tasks` as of the call and sets it without merging edits made while the AI call was pending. The same holds for a stale response overwriting a newer one, and for the clear branch of `setDateTime` reading `tasks` instead of `prev`.
- Overlay.Completion: exact real arithmetic stands for JavaScript's floating-point division, and `toFixed(0)` display rounding is not modelled.
- Priorities are integers: a fractional or NaN priority from the AI response is not modelled by the sort key `PrioritySort.Key` (`priority ?? 99`).
- Actions.PrioritizeRequest: the time is the parameter `currentDateTime`, not a clock reading taken inside the action.
