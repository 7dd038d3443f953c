# GSD to-do app: the task stores in Dafny

The repository is a teaching to-do app with two independent task stores.

- The browser front end (`script.js`) keeps an ordered array of tasks
  `{id, text, completed}`. The user adds tasks (the input is trimmed and
  empty input is refused with an alert), deletes them, ticks them off, views
  all / active / completed tasks and sees three counters.
- A small Express back end, written twice (`backend/script.js` and
  `backend/index.js`), keeps an ordered array of todos `{id, title, done}`
  seeded with two records and serves GET / POST / PUT / DELETE on `/todos`.

Both stores are modelled as immutable `seq`s. Every operation is a pure
function from the old store to the new one, plus an outcome or response
datatype:

- `seqs.dfy` (`Seqs`): the two array operations both stores are built from.
  `Filter` models `Array.prototype.filter` and `FirstIndex` models the
  position `Array.prototype.find` stops at.
- `js_string.dfy` (`JsString`): `String.prototype.trim`, with the ECMAScript
  WhiteSpace and LineTerminator characters.
- `task_list.dfy` (`TaskList`): the front-end store.
- `api.dfy` (`Api`): the todo record, the four requests, the responses, and
  `Run`, which plays a sequence of requests against a server.
- `script_server.dfy` (`ScriptServer`): the `backend/script.js` handlers.
- `index_server.dfy` (`IndexServer`): the `backend/index.js` handlers. They
  are written by direct recursion rather than through `Seqs`, and
  `HandlersAgree` proves they give the same store and answer as
  `ScriptServer` for every store and request.
- `corrected_server.dfy` (`CorrectedServer`): the back end with POST's id
  generation corrected (see Findings).

The clock read by `addTask` (`Date.now()`) is a parameter `now`. The code
does not check it, so `AddTask` has no precondition on it. Id uniqueness is
proved under the assumption that `now` is not already in use
(`AddTaskKeepsIdsUnique`).

Behaviour worth knowing before reading the contracts:

- Toggling an id that is not in the list does nothing and reports nothing
  (script.js:142-144).
- The source comments call both kinds of id unique: "Use timestamp as unique
  ID" (script.js:98) and "Simple way to make a unique id"
  (backend/script.js:121). The front end takes whatever `Date.now()`
  returns without checking it. The back end uses `length + 1`, which can
  collide (see Findings).
- The front-end filter is a string, as in `renderTasks`. Any value other
  than "active" or "completed" shows the whole list, not only "all".

## Model

| member | source | states |
|---|---|---|
| `Seqs.Filter` | script.js:124 | `Array.prototype.filter`: an element is in the result exactly when it is in the input and passes the test, and the result is no longer than the input. |
| `Seqs.FilterAppend` | script.js:124 | Filtering a concatenation is the concatenation of the filtered parts, so filter keeps the input order. |
| `Seqs.FirstIndex` | script.js:141 | `Array.prototype.find` stops at the first element that passes the test, and finds nothing exactly when no element passes. |
| `TaskList.AddTask` | script.js:86-104 | The input is refused (with alert "Please enter a task!", list unchanged) exactly when it is all whitespace. Otherwise exactly one task is appended: earlier tasks keep their order, and the new task has id `now`, `completed = false`, and the trimmed, non-empty text. |
| `TaskList.AddTaskKeepsIdsUnique` | script.js:97-104 | If the ids are unique and `now` is not one of them, they stay unique after an add. |
| `TaskList.AddToEmptyScenario` | script.js:86-104 | Adding "Buy milk" to an empty list gives the single task `{now, "Buy milk", false}`. The counters are then total 1, active 1, completed 0. |
| `TaskList.DeleteTask` | script.js:122-124 | A task is kept exactly when it was in the list and its id differs from the deleted id. With an absent id the list is unchanged. |
| `TaskList.DeleteTaskKeepsOrder` | script.js:124 | Deleting from a concatenation deletes from each part in place, so survivors keep their original order. |
| `TaskList.DeleteTaskIdempotent` | script.js:124 | Deleting the same id twice equals deleting it once. |
| `TaskList.DeleteTaskKeepsIdsUnique` | script.js:122-124 | Delete keeps ids unique and leaves no task with the deleted id. |
| `TaskList.ToggleTask` | script.js:139-144 | Length, ids and texts are unchanged. `completed` changes at exactly one position, the first task with the id. With an absent id the list is unchanged. |
| `TaskList.ToggleTaskTwice` | script.js:141-144 | Toggling the same id twice gives back the original list. |
| `TaskList.ToggleTaskKeepsIdsUnique` | script.js:141-144 | Toggle keeps ids unique. |
| `TaskList.View` | script.js:159-169 | The "active" view holds exactly the unfinished tasks. The "completed" view holds exactly the finished ones. Any other filter shows the whole list. |
| `TaskList.ViewKeepsOrder` | script.js:164-169 | Each view of a concatenation is the concatenation of the views, so views keep insertion order. |
| `TaskList.ToggleFirstOfTwoScenario` | script.js:139-169 | With two unfinished tasks where the first is toggled, the active view is exactly the second task and the completed view is exactly the toggled first. |
| `TaskList.Statistics` | script.js:213-216 | total is the list length. completed equals the size of the completed view and is at most total. active equals the size of the active view. total = active + completed. |
| `JsString.Trim` | script.js:88 | The result is a slice of the input with only whitespace around it and no whitespace at either end. It is empty exactly when the input is all whitespace. |
| `JsString.TrimOfUnique` | script.js:88 | The trim specification admits only one string, so it fully determines `Trim`. |
| `JsString.TrimIdempotent` | script.js:88 | Trimming twice equals trimming once. |
| `ScriptServer.SeedShape` | backend/script.js:82-85 | The initial store holds two records, ids 1 and 2, both not done, with unique ids. |
| `ScriptServer.List` | backend/script.js:111-113 | GET returns the store exactly, with status 200, and leaves it unchanged. |
| `ScriptServer.Create` | backend/script.js:118-131 | POST grows the store by exactly one record at the end and leaves the earlier records as they were. The new record has id `length + 1`, the given title and `done = false`. It is returned with status 201. |
| `ScriptServer.Update` | backend/script.js:137-154 | The answer is NotFound "Todo not found" exactly when no record has the id, and then the store is unchanged. Otherwise the first match gets `done` set to the given value and is returned. Ids, titles, every other record and the length are unchanged. |
| `ScriptServer.UpdateIdempotent` | backend/script.js:142-153 | Repeating an update gives the same store and the same answer. |
| `ScriptServer.Delete` | backend/script.js:159-168 | Every record with the id goes and every other record stays. An absent id changes nothing. The answer is always "Todo deleted" with status 200. |
| `ScriptServer.DeleteKeepsOrder` | backend/script.js:164 | Delete keeps the surviving records in their original order. |
| `ScriptServer.DeleteIdempotent` | backend/script.js:164 | Deleting twice gives the same store and answer as deleting once. |
| `ScriptServer.Handle` | backend/script.js:111-168 | The only 404 answer is a PUT of an id the store does not hold. The only 201 answer is a POST. |
| `Api.StatusCode` | backend/script.js:130-167 | POST answers 201 (line 130), PUT of an absent id 404 (line 146), and every other answer goes out with Express's default 200. |
| `Api.Run` | backend/script.js:82-168 | The module-level `todos` is carried from one request to the next: one request is one handler call. |
| `Api.RunAppend` | backend/script.js:82-168 | Playing two request sequences one after the other equals playing their concatenation. |
| `ScriptServer.MissingIdScenario` | backend/script.js:137-168 | On the seed store, PUT /todos/999 gives 404 "Todo not found" and DELETE /todos/999 gives "Todo deleted". Neither changes the store. |
| `ScriptServer.CreateAfterDeleteDuplicatesId` | backend/script.js:121 | From the seed, DELETE /todos/1 then POST leaves two records with id 2, so ids are no longer unique. |
| `IndexServer.SeedShape` | backend/index.js:13-16 | The initial store holds ids 1 and 2, both not done, and equals the `backend/script.js` seed. |
| `IndexServer.List` | backend/index.js:21-23 | GET returns the store unchanged. |
| `IndexServer.Create` | backend/index.js:28-37 | POST appends one record `{length + 1, title, false}` after the unchanged earlier records and returns it. |
| `IndexServer.Find` | backend/index.js:44 | `find` returns nothing exactly when no record has the id. Otherwise it returns a record of the store with that id. |
| `IndexServer.Handle` | backend/index.js:21-62 | Route dispatch: the only 404 answer is a PUT of an absent id, the only 201 answer is a POST, and no request grows the store by more than one record. |
| `IndexServer.FindIsFirst` | backend/index.js:44 | `find` returns the record at the first matching position. |
| `IndexServer.SetDone` | backend/index.js:50 | Setting `done` on the found record keeps length, ids and titles, and changes nothing when the id is absent. |
| `IndexServer.SetDoneAtFirst` | backend/index.js:50 | The assignment rewrites exactly the first record with the id. |
| `IndexServer.Update` | backend/index.js:42-52 | The answer is NotFound "Todo not found" exactly when the id is absent, and then the store is unchanged. Otherwise the returned record has the id and the supplied `done`. |
| `IndexServer.UpdateFirstMatchOnly` | backend/index.js:43-51 | Only the first match changes, and only its `done`, which becomes the supplied value. Repeating the update changes nothing. |
| `IndexServer.Without` | backend/index.js:59 | A record is kept exactly when it was in the store and has a different id. |
| `IndexServer.WithoutIsFilter` | backend/index.js:59 | That filter keeps the same records, in the same order, as the shared filter. |
| `IndexServer.Delete` | backend/index.js:57-62 | Records with the id go, all others stay, and the answer is always "Todo deleted". |
| `IndexServer.DeleteIdempotent` | backend/index.js:58-61 | Delete is idempotent and a no-op for an absent id. |
| `IndexServer.HandlersAgree` | backend/index.js:21-62 | For every store and every request, the `backend/index.js` handlers give the same new store and the same answer as the `backend/script.js` handlers. |
| `IndexServer.RunsAgree` | backend/index.js:13-62 | Any sequence of requests leaves both servers with the same store. |
| `IndexServer.CreateAfterDeleteDuplicatesId` | backend/index.js:30 | From the seed, DELETE /todos/1 then POST leaves duplicate ids. |
| `CorrectedServer.NextId` | backend/script.js:121 | The corrected id is positive and held by no record of the store. |
| `CorrectedServer.Handle` | backend/script.js:121 | The corrected server answers POST with a record whose id the store did not hold, and answers every other request exactly as `backend/script.js` does. |
| `CorrectedServer.DeletedLargestIdReused` | backend/script.js:121 | From the seed, DELETE /todos/2 then POST hands id 2 out again, with no duplicate in the store. |
| `CorrectedServer.Create` | backend/script.js:118-131 | POST with the corrected id appends one record whose id no existing record has. It keeps unique ids unique. |
| `CorrectedServer.NextIdWithoutDeletes` | backend/script.js:121 | On a store that never lost a record (ids 1..n in order), the corrected id equals `length + 1`. |
| `CorrectedServer.HandleKeepsIdsUnique` | backend/script.js:111-168 | With the corrected POST, every request keeps ids unique. |
| `CorrectedServer.RunKeepsIdsUnique` | backend/script.js:111-168 | Any sequence of requests on the corrected server keeps ids unique. |
| `CorrectedServer.SeedRunKeepsIdsUnique` | backend/script.js:82-168 | From the seed, no sequence of requests on the corrected server produces a duplicate id. |

## Findings

| source | as written | input that shows it | evidently intended | confidence | as-written member | corrected member |
|---|---|---|---|---|---|---|
| backend/script.js:121 | `id: todos.length + 1`, commented as a unique id | seed store, DELETE /todos/1, then POST /todos: two records with id 2 | the new id differs from every id in the store | high; not executed | `ScriptServer.CreateAfterDeleteDuplicatesId` | `CorrectedServer.SeedRunKeepsIdsUnique` |
| backend/index.js:30 | the same `todos.length + 1` id | the same requests on the seed store | the same | high; not executed | `IndexServer.CreateAfterDeleteDuplicatesId` | `CorrectedServer.RunKeepsIdsUnique` |

The corrected POST (`CorrectedServer.Create`) numbers a new record one past
the largest id in the store. The other routes are unchanged. The correction
promises only that no two records in the store share an id. It does not
promise that a deleted id is never handed out again: from the seed,
DELETE /todos/2 followed by POST gives the new record id 2
(`CorrectedServer.DeletedLargestIdReused`).

## Left out

- DOM work: building list items in `renderTasks`, the "No tasks yet"
  placeholder, writing the counters into spans, highlighting filter buttons
  in `filterTasks`, showing the alert (only its text is kept), clearing the
  input field, and event-listener wiring. None of this holds store logic.
- `saveTasks` / `loadTasks`: localStorage and `JSON.stringify` /
  `JSON.parse` are host calls. The store is never serialised in the model.
- `Date.now()`: replaced by the parameter `now`. `AddTask` accepts any
  `now`, a repeated one included; id uniqueness is proved only for a `now`
  not already in use (`AddTaskKeepsIdsUnique`).
- `parseInt` on route parameters: the id arrives as an `int`. A
  non-numeric parameter gives NaN in the source, which matches no record.
  That is the same as an absent id, which the model covers.
- Request bodies: `title` is a string and `done` a boolean. A missing or
  differently typed field, which the source would store as it is, is not
  modelled.
- Express, `cors`, `express.json` and `app.listen`. HTTP is reduced to
  `Api.Response` and `Api.StatusCode`.
- Concurrent requests: the source does not try to isolate them.
- JavaScript numbers are unbounded `int`s here. Ids from `length + 1` or
  `Date.now()` stay far below 2^53.
- JsString.Trim: works on Unicode scalar values rather than UTF-16 code
  units. Every character `trim` removes is a single code unit, so this only
  matters for lone surrogates, which `string` cannot hold.
- CorrectedServer.NextId: a deleted record's id can be handed out again
  when that record held the largest id, because the id is derived from the
  current store rather than from a counter kept across requests.
- back-end/readme-backend.php is documentation and a suggested SQL schema,
  with no executable logic. It is not part of this model.
