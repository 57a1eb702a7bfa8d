# Task manager core in Dafny

A model of the two in-memory task components of a small desktop task manager:

- **The client task store** (`frontend/src/store/index.ts`). It holds the task list shown by the UI, plus `loading`, `error` and `currentTask`. It has three derived views: completed, pending, and grouped by priority. It runs a start-up fetch that retries at a fixed interval. Its mutations are confirm-then-apply: the list changes only after the API call has resolved.
- **The API server's task table** (`backend/app/main.py`). `fake_db` is a list of tasks. The route handlers list it with optional filters, look up one task, create with `id = max + 1`, replace, pop, and set or clear the `completed` flag.

Files:

- `tasks.dfy` (module `Tasks`) holds what both sides share:
  - the `Task` record, with an optional id;
  - the id-less `TaskData` payload;
  - first-match search (`FindIndex`);
  - the order-preserving `Filter`;
  - `ReplaceFirst`.
- `store.dfy` (module `Store`) models the client store.
  - The views are functions of the list.
  - `MainStore` is a class whose methods update its four fields.
  - Each API call becomes a parameter holding what that call settled to (`Outcome`: `Ok(value)` or `Err(ApiError(message?))`). For the retrying fetch this parameter is the sequence of outcomes of its successive list requests.
  - `FetchTasks` is a recursive method, like the source. It is proved against the function `FetchChain`. Two lemmas describe `FetchChain` independently: the chain stops at the first success, or it exhausts its retries.
- `api.dfy` (module `Api`) models the server.
  - The reading handlers are functions of the table contents.
  - The mutating handlers are methods of `TaskTable`, whose `fakeDb` field they reassign.
  - Each method is tied to a function giving the new table, and keeps the invariant `WellKeyed`: every id is present, positive and unique.
  - A 404 becomes `HttpError(404, "任务未找到")`.
- `mirror.dfy` (module `Mirror`) relates the two sides. It starts from a client list equal to the server table and covers five handlers.
  - The unfiltered `get_tasks` listing, once fetched, becomes the client list.
  - For `create_task`, `update_task`, `delete_task` and `complete_task`/`uncomplete_task`, applying the handler's reply on the client reproduces the server's new table.
  - For `create_task`, both tables also stay well keyed, and the new row is found under its id.

Points where the code's behaviour is easy to misread:

- **`loading` during retries.** Each failed attempt's `finally` (frontend/src/store/index.ts:62-64) clears `loading` while the unawaited retry (line 57) is still in flight (see Findings). `MainStore.FetchTasks` promises only that `loading` is false once the whole call has resolved.
- **`removeTask`.** It filters out every entry with the id (frontend/src/store/index.ts:113). On a list with unique ids, this equals the server's pop of the first match (`Store.RemoveDropsExactlyOne`, `Mirror.DeleteMirrored`).
- **Errors from the API client.** The response interceptor of frontend/src/api/api.ts (lines 39-57) only logs and rethrows. So the store sees a rejected call as an error whose `message` may be missing or empty.

## Model

| member | source | states |
|---|---|---|
| Tasks.FindIndex | frontend/src/store/index.ts:92 | the result is the position of the FIRST task with that id; it is None exactly when no task has that id |
| Tasks.FindIndexSeesOnlyIds | backend/app/main.py:99 | the search depends only on the ids, so a change of `completed` does not move the match |
| Tasks.FindIndexUnique | backend/app/main.py:89 | in a list with unique ids, the first match is the only match |
| Tasks.Filter | frontend/src/store/index.ts:29 | the result holds exactly the elements of the input that pass the test, and is no longer than the input |
| Tasks.FilterCounts | frontend/src/store/index.ts:29 | each passing element is kept exactly as often as it occurs; failing ones never appear |
| Tasks.FilterAppend | frontend/src/store/index.ts:28-42 | filtering a concatenation concatenates the filtered parts, so the original order is preserved |
| Tasks.FilterOfFilter | backend/app/main.py:40-45 | two filters in a row equal one filter by the conjunction of their tests |
| Tasks.ReplaceFirst | frontend/src/store/index.ts:92-95 | length is unchanged; only the first task with the id is overwritten; the list is untouched when no task has the id |
| Store.ErrorText | frontend/src/store/index.ts:59 | gives the error's message unless it is missing or empty, else the fallback; never empty when the fallback is not |
| Store.CompletedTasks | frontend/src/store/index.ts:28-30 | holds exactly the completed tasks of the list |
| Store.PendingTasks | frontend/src/store/index.ts:32-34 | holds exactly the tasks that are not completed |
| Store.PriorityTasks | frontend/src/store/index.ts:36-42 | high, medium and low hold exactly the tasks of priority 3, 2 and 1; a task of any other priority is in none of them |
| Store.CompletedPendingPartition | frontend/src/store/index.ts:28-34 | completed plus pending is the whole list as a multiset, so together they have the list's length |
| Store.ViewsPreserveOrder | frontend/src/store/index.ts:28-42 | every view of a concatenation is the concatenation of the views, so each view keeps list order |
| Store.PriorityPartition | frontend/src/store/index.ts:36-42 | the three groups together are, as a multiset, the tasks whose priority is 1, 2 or 3 |
| Store.PriorityGroupsCoverAll | frontend/src/store/index.ts:36-42 | when every priority is 1, 2 or 3, the three groups together are as long as the list |
| Store.MaxAttempts | frontend/src/store/index.ts:45-57 | the attempt budget is at least 1, and `retries + 1` when `retries` is not negative |
| Store.FetchChain | frontend/src/store/index.ts:45-65 | the chain makes between 1 and `retries + 1` requests; if the last one succeeded the list is its response and the error is empty, otherwise the list is unchanged and the error is non-empty |
| Store.FetchStopsAtFirstSuccess | frontend/src/store/index.ts:49-57 | if request k is the first to succeed within the budget, the chain ends after k + 1 requests with that response as the list and no error |
| Store.FetchExhausts | frontend/src/store/index.ts:52-61 | if every request in the budget fails, the list is unchanged and the error is the last failure's message or the generic fetch text |
| Store.LoadingWhileRequesting | frontend/src/store/index.ts:53-64 | gives one `loading` value per request of the chain, as many as the chain makes |
| Store.UnawaitedRetryClearsLoading | frontend/src/store/index.ts:57-64 | as written, every request after the first runs with `loading` false |
| Store.AwaitedRetryKeepsLoading | frontend/src/store/index.ts:45-64 | with the retry awaited, `loading` is true during every request of the chain |
| Store.LoadingDropsOnFirstRetry | frontend/src/store/index.ts:45-64 | with the default 5 retries and a failing first request, the second request runs with `loading` false as written, and true when awaited |
| Store.WithoutId | frontend/src/store/index.ts:113 | no task with the id remains; every other task is kept; nothing new appears |
| Store.RemoveDropsExactlyOne | frontend/src/store/index.ts:113 | with unique ids, removing a present id yields the list minus that one position, one shorter, in order |
| Store.MainStore.constructor | frontend/src/store/index.ts:22-25 | the store starts not loading, with no tasks, no error and no current task |
| Store.MainStore.FetchTasks | frontend/src/store/index.ts:45-65 | list and error end as `FetchChain` says; `loading` is false at the end; `currentTask` is unchanged |
| Store.MainStore.AddTask | frontend/src/store/index.ts:68-83 | on success appends the server's task, clears the error and returns that task; on failure leaves the list, sets the error (fallback '添加任务失败') and returns null; `loading` ends false |
| Store.MainStore.ApplyServerCopy | frontend/src/store/index.ts:92-95 | the list becomes `ReplaceFirst` of the old list |
| Store.MainStore.EditTask | frontend/src/store/index.ts:86-104 | on success overwrites only the first task with the id (nothing if absent) and returns the server's task; on failure leaves the list, sets the error and returns null; `loading` ends false |
| Store.MainStore.RemoveTask | frontend/src/store/index.ts:107-122 | returns true exactly on success; on success drops every task with the id; on failure leaves the list and sets the error; `loading` ends false |
| Store.MainStore.MarkTaskComplete | frontend/src/store/index.ts:125-143 | as `EditTask`, with the status fallback text |
| Store.MainStore.MarkTaskUncomplete | frontend/src/store/index.ts:146-164 | as `EditTask`, with the status fallback text |
| Store.MainStore.SetCurrentTask | frontend/src/store/index.ts:167-169 | sets `currentTask` and nothing else |
| Store.MainStore.ResetError | frontend/src/store/index.ts:172-174 | clears `error` and nothing else |
| Api.GetTasks | backend/app/main.py:39-45 | returns exactly the rows matching every filter that is given; with no filter, the whole table |
| Api.GetTasksIsOneFilter | backend/app/main.py:39-45 | the listing equals one order-preserving filter by both conditions |
| Api.GetTask | backend/app/main.py:49-53 | succeeds exactly when some row has the id, with the first such row; otherwise 404 "任务未找到" |
| Api.MaxId | backend/app/main.py:59 | bounds every id and is the id of some row |
| Api.NextId | backend/app/main.py:59 | exceeds every id in the table; is 1 on an empty table, otherwise one more than an existing id |
| Api.Created | backend/app/main.py:57-68 | the new row's id is `NextId` of the table (`max + 1`, or 1 when empty), which no existing row has; the other fields are the body's, and the body's id is ignored |
| Api.Replacement | backend/app/main.py:77-83 | the stored row carries the path's id and the body's other fields |
| Api.AfterDelete | backend/app/main.py:88-94 | the first matching row is removed, the table is one shorter and the other rows keep their order; nothing changes when the id is absent |
| Api.AfterSetCompleted | backend/app/main.py:98-114 | only the first matching row changes, and only in `completed`; nothing changes when the id is absent |
| Api.SeedWellKeyed | backend/app/main.py:26-30 | the initial rows 1, 2, 3 have positive, unique ids |
| Api.CreateKeepsWellKeyed | backend/app/main.py:59-67 | creating keeps ids present, positive and unique |
| Api.UpdateKeepsWellKeyed | backend/app/main.py:73-83 | updating keeps ids present, positive and unique |
| Api.DeleteKeepsWellKeyed | backend/app/main.py:89-93 | deleting keeps ids present, positive and unique |
| Api.SetCompletedKeepsWellKeyed | backend/app/main.py:99-113 | completing or uncompleting keeps ids present, positive and unique |
| Api.DeleteRemovesTheTask | backend/app/main.py:88-94 | on a well-keyed table, deleting a present id leaves one row fewer and no row with that id |
| Api.SetCompletedIdempotent | backend/app/main.py:98-114 | doing it twice leaves the same table, and returns the same row, as doing it once |
| Api.DeletingMaxLowersNextId | backend/app/main.py:57-94 | after the row with the highest id is deleted, the next create's id is no larger than that id |
| Api.DeletingMaxLetsCreateReuseId | backend/app/main.py:57-94 | if id m - 1 is still in use, the next create after deleting the highest id m hands out m again |
| Api.SeedReusesIdThree | backend/app/main.py:26-94 | on the initial table, deleting task 3 and then creating gives the new task id 3 |
| Api.TaskTable.constructor | backend/app/main.py:26-30 | the table starts as the three initial rows and is well keyed |
| Api.TaskTable.CreateTask | backend/app/main.py:57-68 | appends `Created(old table, body)` and returns it; ids stay unique |
| Api.TaskTable.UpdateTask | backend/app/main.py:72-84 | the table becomes `ReplaceFirst` with the replacement row, which it returns; 404 and no change when the id is absent |
| Api.TaskTable.DeleteTask | backend/app/main.py:88-94 | the table becomes `AfterDelete` and the reply is "任务已删除"; 404 and no change when the id is absent |
| Api.TaskTable.SetCompleted | backend/app/main.py:98-114 | the table becomes `AfterSetCompleted`, and the changed row is returned; 404 and no change when the id is absent |
| Api.TaskTable.CompleteTask | backend/app/main.py:98-104 | `SetCompleted` with the flag true |
| Api.TaskTable.UncompleteTask | backend/app/main.py:108-114 | `SetCompleted` with the flag false |
| Mirror.FetchMirrored | frontend/src/store/index.ts:50-51 | when the first request brings back the unfiltered listing of `get_tasks`, the fetch ends after one request, holding the server's table and no error |
| Mirror.CreateMirrored | frontend/src/store/index.ts:73-74 | after the server appends the created row and the client appends the row it got back, both tables are well keyed and the new row is found under its id at the end |
| Mirror.UpdateMirrored | frontend/src/store/index.ts:91-95 | replacing the first match by the row `update_task` returned reproduces the server's new table |
| Mirror.DeleteMirrored | frontend/src/store/index.ts:112-113 | on a well-keyed table, the client's filter-by-id equals the server's pop of the first match |
| Mirror.SetCompletedMirrored | frontend/src/store/index.ts:130-134 | replacing the first match by the row the complete/uncomplete handler returned reproduces the server's new table |

## Left out

- Store.MainStore.FetchTasks: does not say what `loading` is while a retry is in flight. The model runs each failed attempt's `finally` after the rest of the chain, not while the next request is outstanding. That ordering is captured separately by `Store.LoadingWhileRequesting` (see Findings). The end state is the same either way.
- Store.MainStore.FetchTasks: needs one outcome for each attempt the budget allows (`MaxAttempts(retries)` of them). This is a requirement on the stand-in for the server, not on callers. Termination follows from `retries` decreasing. The chain never rejects: every path ends in a state.
- The `delay` wait (`setTimeout`), the 5000 ms request timeout and `console` logging are left out. `delay` is carried as an inert parameter.
- Interleaving of concurrent store calls and of concurrent requests to the server is not modelled; each call runs to completion.
- The API client (`frontend/src/api/api.ts`) is not modelled beyond `Outcome`. That includes how it picks its base address, its interceptors, and the text axios puts in `message` for an HTTP error.
- `taskData` in `AddTask` and `EditTask` is only sent to the server. The model's server reply is the `response` parameter, so `taskData` has no effect in the model.
- The server's `/` root handler, the CORS middleware, request validation and the uvicorn start-up are not modelled.
- Server rows are values. In the source, `complete_task` sets the flag on the stored row object and returns that object. No other reference to it survives a request, so a value model loses nothing observable.
- Numbers are mathematical integers. JavaScript numbers could carry a non-integer priority; such a task falls in no priority group, as in the model.
- `Api.MaxId` needs every row to have an id. A row without one would make backend/app/main.py:59 raise `TypeError`. `WellKeyed` rules this out for every reachable table.
- Api.DeletingMaxLetsCreateReuseId: covers the case where id m - 1 is still in use. The case where the table empties is not covered; `NextId` of an empty table is 1.
- Electron window, menu, process and IPC code, the router and the build configuration are not part of this model.

## Findings

| source | as written | input that shows it | evidently intended | confidence | as-written member | corrected member |
|---|---|---|---|---|---|---|
| frontend/src/store/index.ts:57 | `return fetchTasks(retries - 1, delay)` inside `try`/`finally` is not awaited, so the failed attempt's `finally` (line 63) sets `loading` false right after the retry's request is issued | `fetchTasks()` with the default 5 retries, where the first list request fails: the second request runs with `loading` false | `loading` true until the whole chain settles (`return await fetchTasks(...)`) | medium, not executed | Store.UnawaitedRetryClearsLoading | Store.AwaitedRetryKeepsLoading |

Both halves are instances of `Store.LoadingWhileRequesting`. `Store.LoadingDropsOnFirstRetry` shows the concrete input. The end state of the chain does not depend on this ordering: list, error and final `loading` are the same in both versions. So `FetchChain` and `MainStore.FetchTasks` describe the corrected code as well as the code as written.
