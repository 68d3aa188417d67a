# Task manager: a verified model of its store, API gate and client state

The task manager is a FastAPI backend over two SQL tables (`users`, `tasks`) and a React
client with a dashboard page, a task item component and an authentication context. This
project models the logic of both halves in Dafny and proves what they promise:

- **Store** (`crud.dfy`, module `Crud`). The tables are a class `Store` holding two maps
  from primary key to row, with counters for fresh ids. `Valid()` is the table
  constraints: every row under its own key, unique usernames, every task owned by an
  existing user. The lookups and updates of the data-access layer are methods. Each one
  states its result and the new maps. A user sees, updates and deletes only their own
  tasks, and `OthersUnchanged` says that the rows of every other owner stay as they were.
  `list_tasks` scans the table and inserts each owned row by deadline. `update_task` runs
  its `setattr` loop over the explicitly set fields, and that loop is proved equal to the
  field-by-field partial update `ApplyUpdate`.
- **Records** (`models.dfy`, `schemas.dfy`). These are table rows, the column defaults,
  the cascade of a user's deletion to their tasks, and the request and response shapes. A
  `TaskCreate` body is validated with its defaults; a missing `title` or `deadline` is an
  error.
- **API** (`api.dfy`, module `Api`). The `Authorization` gate is a total function. It
  models Python's `lower()`, `startswith` and `split()`, the last with its full whitespace
  set. The header value "Bearer " with no token, as the route receives it, passes the
  prefix test, and then `split()[1]` raises. The model returns `InternalError` (status 500)
  for it. HTTP servers strip trailing spaces and tabs from field values (section 3.2 of
  RFC 7230), so on the wire this takes other trailing whitespace that `split()` knows, such
  as a no-break space. The routes are methods
  over the store. Their contracts give the exact outcome for each case: 401 from the gate,
  then 404 "User not found", then 400 / 401 / 404 "Task not found" or success.
- **Client** (`dashboard.dfy`, `taskitem.dfy`, `authcontext.dfy`, `handshake.dfy`). This
  part covers:
  - the two `isOverdue` versions, with "now" as a parameter;
  - the filter projection, proved to be a partition of the list into order-preserving
    subsequences;
  - the JavaScript `trim` test of the add form;
  - the dashboard state (`tasks`, `loading`, `error`, `newTask`, `filter`) as a class
    with one method per handler. Each method returns the request it sends and takes the
    server's reply as input;
  - the authentication provider as a class over the in-memory token and the shared local
    storage;
  - the header the client builds, proved to be accepted by the server's gate.

Foreign calls are function parameters: password hashing and checking, token issuing and
decoding, and date formatting. Wall-clock time is a parameter `now`. Deadlines are
integer timestamps.

The delete route answers `{"status": "deleted"}` (backend/main.py:102), not an empty
response, and the model follows that.

## Model

| member | source | states |
|---|---|---|
| `Models.NewTaskRow` | backend/models.py:17-21 | a new row takes the given values; an attribute that is None, left out or passed as None, takes its column default: description "", completed false, deadline the current time; so a new row never has a NULL description |
| `Models.CascadeDelete` | backend/models.py:12 | deleting a user keeps exactly the tasks of other owners, unchanged |
| `Models.CascadeKeepsConsistent` | backend/models.py:10-21 | after the cascade, keys, unique usernames and the owner foreign key still hold |
| `Models.Consistent` | backend/models.py:7-21 | the table constraints: rows stored under their primary keys, unique usernames, and every task's owner_id naming an existing user |
| `Schemas.ParseTaskCreate` | backend/schemas.py:27-34 | a body is valid iff title and deadline are given and completed is not null; description defaults to "" (null kept), completed to false |
| `Schemas.CreateDefaults` | backend/schemas.py:29-31 | a body with only title and deadline gets description "" and completed false |
| `Schemas.ToUserOut` | backend/schemas.py:15-19 | a user is returned as id and username only; the password is not part of the shape |
| `Schemas.ToTaskOut` | backend/schemas.py:42-45 | a task is returned as its id plus the `TaskBase` fields; owner_id is dropped |
| `Schemas.UserOutHidesPassword` | backend/schemas.py:15-19 | a user's answer is the same whatever the stored password, so it cannot reveal it |
| `Schemas.TaskOutHidesOwner` | backend/schemas.py:42-45 | a task's answer is the same whatever its owner_id |
| `Schemas.ToTaskOuts` | backend/main.py:65 | a `List[TaskOut]` answer has one response-shaped entry per row, in the same order |
| `Crud.SetFields` | backend/crud.py:48 | at most one entry per field and none for an empty update; that the entries are exactly the set fields, in order, is what `Crud.ApplySetFields` proves |
| `Crud.SetAttr` | backend/crud.py:49 | one `setattr` changes one field and keeps id and owner |
| `Crud.ApplyFields` | backend/crud.py:48-49 | the `setattr` calls in list order; id and owner are kept |
| `Crud.ApplyUpdate` | backend/crud.py:48-49 | each set field takes the new value; unset fields, id and owner are kept |
| `Crud.ApplySetFields` | backend/crud.py:48-49 | applying the set fields one `setattr` at a time equals `ApplyUpdate` |
| `Crud.ApplySetAttrs` | backend/crud.py:48-49 | the `setattr` loop computes the fold of the set fields over the row |
| `Crud.EmptyUpdateChangesNothing` | backend/schemas.py:36-40 | a `TaskUpdate` with no field set leaves the task unchanged |
| `Crud.OwnershipIsolation` | backend/crud.py:37-60 | when other owners' rows are unchanged, every other owner's task set is the same before and after |
| `Crud.InsertByDeadline` | backend/crud.py:33 | inserting keeps every element and adds exactly the new one |
| `Crud.InsertKeepsSorted` | backend/crud.py:33 | inserting into a deadline-sorted list keeps it sorted |
| `Crud.Store.Valid` | backend/models.py:7-21 | the table constraints of `Models.Consistent`, with every id below the next id the table hands out |
| `Crud.Store.GetUserByUsername` | backend/crud.py:8-9 | returns a user iff the name is taken, and the returned user is the stored row with that username |
| `Crud.Store.CreateUser` | backend/crud.py:11-19 | adds one user under a fresh id with the hash of the password; tasks unchanged; constraints kept |
| `Crud.Store.CreateTask` | backend/crud.py:22-27 | adds one task under a fresh id with the request's title, deadline and completed flag and the owner; a null description is stored as the column default ""; other rows unchanged |
| `Crud.Store.ListTasks` | backend/crud.py:29-35 | returns every task of the owner exactly once, only those, and in non-decreasing deadline order |
| `Crud.Store.GetTask` | backend/crud.py:37-42 | returns the task iff the id exists and belongs to the owner |
| `Crud.Store.UpdateTask` | backend/crud.py:44-52 | a missing or unowned task gives None and no change; otherwise only that row changes, to `ApplyUpdate` of it |
| `Crud.Store.DeleteTask` | backend/crud.py:54-60 | returns true iff the task exists and is owned, then removes exactly that row; otherwise nothing changes |
| `Crud.Store.DeleteUser` | backend/models.py:12 | removes the user and, by cascade, all their tasks; constraints kept |
| `Api.Lower` | backend/main.py:43 | lower-casing keeps the length and maps each character |
| `Api.Words` | backend/main.py:45 | `split()` gives non-empty words containing no whitespace, and no words iff the string is all whitespace |
| `Api.WordsAfterWord` | backend/main.py:45 | a word, a whitespace character and a rest split into that word followed by the words of the rest |
| `Api.WordsSkipSpace` | backend/main.py:45 | leading whitespace produces no word; with `Api.WordsOfWord` and `Api.WordsAfterWord` this fixes `split()` on every string |
| `Api.WordsKeepNonSpace` | backend/main.py:45 | the words put back together are exactly the non-whitespace characters of the string, in order |
| `Api.HasBearerPrefix` | backend/main.py:43 | a header is present, non-empty, and its lower-case form starts with "bearer "; its use is stated by `Api.GetCurrentUsername` and `Api.BearerPrefix` |
| `Api.GetCurrentUsername` | backend/main.py:42-49 | "Missing token" iff there is no header or no case-insensitive "bearer " prefix; a server error iff there is no second word; "Invalid token" iff the decoder gives nothing for the second word; otherwise the decoded non-empty username |
| `Api.BearerRoundTrip` | backend/main.py:43-46 | "Bearer " + a non-empty token without whitespace passes the prefix test, splits into ["Bearer", token], and the decoder sees that token |
| `Api.BareBearerIsServerError` | backend/main.py:43-45 | the header value "Bearer ", as the route receives it, passes the prefix test but ends in a server error, not a 401 |
| `Api.NoBreakSpaceIsServerError` | backend/main.py:43-45 | "Bearer " followed by a no-break space, which HTTP trimming keeps, ends in a server error |
| `Api.Register` | backend/main.py:27-31 | a taken username gives 400 "Username already taken" with no change; otherwise one user is added; usernames stay unique |
| `Api.Login` | backend/main.py:33-39 | succeeds iff a user with that name accepts the password, then returns the issued token, whose type takes the `Token` default "bearer"; failure is 401 "Invalid credentials" |
| `Api.RegisterThenLogin` | backend/main.py:27-39 | with a checker that accepts a password against its own hash, registering then logging in succeeds |
| `Api.CreateTask` | backend/main.py:54-63 | gate error, else 404 "User not found", else one new task of the caller with the request's fields, a null description answered and stored as "" |
| `Api.ListMyTasks` | backend/main.py:65-73 | gate error, else 404 "User not found", else exactly the caller's tasks, each once, ordered by deadline |
| `Api.UpdateMyTask` | backend/main.py:75-88 | gate error, else 404 "User not found", else 404 "Task not found" with no change iff the task is not the caller's, else the partial update of that one task |
| `Api.DeleteMyTask` | backend/main.py:90-102 | gate error, else 404 "User not found", else 404 "Task not found" iff the task is not the caller's, else `{"status": "deleted"}` and exactly that task is removed |
| `Dashboard.OverdueMeaning` | frontend/src/pages/Dashboard.js:16-19 | not overdue when completed or without deadline; otherwise overdue iff deadline < now, strictly |
| `Dashboard.IsOverdue` | frontend/src/pages/Dashboard.js:16-19 | the dashboard's overdue test; its meaning is stated by `Dashboard.OverdueMeaning` |
| `Dashboard.FormatDeadline` | frontend/src/pages/Dashboard.js:21-23 | an absent deadline reads "No deadline"; a present one is the formatted time |
| `Dashboard.Select` | frontend/src/pages/Dashboard.js:95-100 | a filter result is an order-preserving subsequence holding every accepted occurrence and no other |
| `Dashboard.Shows` | frontend/src/pages/Dashboard.js:95-99 | the per-task test of `filteredTasks`; `Dashboard.ExactlyOneFilter` and `Dashboard.OtherFilterShowsAll` state what it does |
| `Dashboard.Filtered` | frontend/src/pages/Dashboard.js:95-100 | `filteredTasks` is an order-preserving subsequence of the task list |
| `Dashboard.ExactlyOneFilter` | frontend/src/pages/Dashboard.js:96-98 | each task passes exactly one of "completed", "pending" and "overdue" |
| `Dashboard.FiltersPartition` | frontend/src/pages/Dashboard.js:95-100 | the three filtered views together hold every task exactly as often as the list does |
| `Dashboard.OtherFilterShowsAll` | frontend/src/pages/Dashboard.js:99 | any other filter value shows the whole list |
| `Dashboard.FindById` | frontend/src/pages/Dashboard.js:45-46 | finds the first task with the id, or reports that none has it |
| `Dashboard.ReplaceById` | frontend/src/pages/Dashboard.js:53 | same length; entries with the id become the reply, all others are unchanged |
| `Dashboard.RemoveById` | frontend/src/pages/Dashboard.js:63 | an order-preserving subsequence without any entry of that id and with every other entry |
| `Dashboard.SkipStart` | frontend/src/pages/Dashboard.js:84 | the index of the first non-whitespace character from a position on: every character skipped is whitespace and the one found is not |
| `Dashboard.SkipEnd` | frontend/src/pages/Dashboard.js:84 | the index just past the last non-whitespace character before a position: every character skipped is whitespace and the one before is not |
| `Dashboard.TrimStart` | frontend/src/pages/Dashboard.js:84 | the result is a suffix of the input; what is dropped is all whitespace, and the result does not start with whitespace |
| `Dashboard.TrimEnd` | frontend/src/pages/Dashboard.js:84 | the result is a prefix of the input; what is dropped is all whitespace, and the result does not end with whitespace |
| `Dashboard.Trim` | frontend/src/pages/Dashboard.js:84 | `trim()` is the slice of the title between a whitespace-only prefix and a whitespace-only suffix, with neither end whitespace |
| `Dashboard.TrimEmptyIffBlank` | frontend/src/pages/Dashboard.js:84 | `trim()` gives "" iff the title is whitespace only |
| `Dashboard.AuthHeader` | frontend/src/services/api.js:8-10 | the header is "Bearer " + token, and "Bearer null" without a token |
| `Dashboard.FetchError` | frontend/src/pages/Dashboard.js:33 | the message is the server detail when it is a non-empty string; with no detail or an empty one it is "Failed to fetch tasks"; never empty |
| `Dashboard.DashboardState.constructor` | frontend/src/pages/Dashboard.js:9-13 | the page starts with no tasks, not loading, no error, an empty form and filter "all" |
| `Dashboard.DashboardState.Visible` | frontend/src/pages/Dashboard.js:95-100 | the listed tasks are an order-preserving subsequence of the state's tasks |
| `Dashboard.DashboardState.StartFetch` | frontend/src/pages/Dashboard.js:26-30 | before the await, loading is true and the error is cleared; GET /tasks is sent with the bearer header |
| `Dashboard.DashboardState.FinishFetch` | frontend/src/pages/Dashboard.js:31-36 | the list becomes the reply, or the error is set; loading ends false either way |
| `Dashboard.DashboardState.FetchTasks` | frontend/src/pages/Dashboard.js:26-37 | the whole fetch ends not loading, with the reply's tasks and no error, or the old tasks and the error message |
| `Dashboard.DashboardState.HandleToggle` | frontend/src/pages/Dashboard.js:44-57 | an unknown id sends nothing and changes nothing; otherwise sends the flipped completed flag and replaces entries with that id by the reply |
| `Dashboard.DashboardState.HandleDelete` | frontend/src/pages/Dashboard.js:59-67 | a refused confirmation sends nothing; otherwise sends DELETE and removes all, and only, entries with that id |
| `Dashboard.DashboardState.HandleInlineEdit` | frontend/src/pages/Dashboard.js:69-80 | sends the one-field update and replaces only the entries with that id by the reply |
| `Dashboard.DashboardState.HandleAddTask` | frontend/src/pages/Dashboard.js:82-92 | a blank title sends nothing and changes nothing; on success the reply is appended and the form becomes three empty strings |
| `TaskItem.OverdueMeaning` | frontend/src/components/TaskItem.js:3-6 | not overdue when completed; with a deadline, overdue iff deadline < now, strictly |
| `TaskItem.IsOverdue` | frontend/src/components/TaskItem.js:3-6 | the component's overdue test; its meaning is stated by `TaskItem.OverdueMeaning` |
| `TaskItem.AgreesWithDashboard` | frontend/src/components/TaskItem.js:3-6 | with a deadline present, both `isOverdue` versions agree |
| `TaskItem.NullDeadlineDisagrees` | frontend/src/components/TaskItem.js:5 | for a null deadline the component treats the task as overdue (epoch before now) while the dashboard does not |
| `TaskItem.Look` | frontend/src/components/TaskItem.js:14-57 | the one overdue flag decides both the highlight and the "(Overdue)" marker |
| `TaskItem.CompletedNeverMarked` | frontend/src/components/TaskItem.js:3-4 | a completed task is never highlighted or marked |
| `AuthContext.GetItem` | frontend/src/context/AuthContext.js:6 | the stored value under the key, or null when absent |
| `AuthContext.AuthProvider.constructor` | frontend/src/context/AuthContext.js:6 | the initial token is what storage holds under "token" |
| `AuthContext.AuthProvider.Login` | frontend/src/context/AuthContext.js:8-11 | token and storage["token"] both become the new token; the two agree |
| `AuthContext.AuthProvider.Logout` | frontend/src/context/AuthContext.js:13-16 | the token becomes null and "token" is removed from storage; the two agree |
| `AuthContext.AuthProvider.OnStorageEvent` | frontend/src/context/AuthContext.js:18-24 | a "token" event sets the token to the new value, null included; other keys leave it; a keyed change keeps token and storage in agreement, a clear does not |
| `Handshake.ClientHeaderAccepted` | frontend/src/services/api.js:8-10 | the header the client builds for a real token passes the server's gate with exactly that token |
| `Handshake.NullTokenHeader` | frontend/src/pages/Dashboard.js:30 | without a token the client sends "Bearer null" and the server decodes the word "null" |

## Left out

- backend/auth.py: bcrypt hashing, password checks, and JWT issuing and decoding with expiry are foreign library calls and a clock. They are function parameters with no properties assumed, except that `Api.RegisterThenLogin` takes the hypothesis that a password checks against its own hash.
- Database plumbing: sessions, commits, refreshes and transactions are left out, and the `database` module is not part of this model. Each write is atomic and its effect is visible at once.
- Constraint violations: `Crud.Store.CreateUser` requires a free username and `Crud.Store.CreateTask` requires an existing owner. The database's integrity error for the other case is not modelled. The routes meet both requirements on every call.
- Fresh ids come from a counter that never reuses an id. A database may reuse the largest id after a delete; the model only promises that a new id is not in use.
- Crud.Store.ListTasks: the order of tasks with equal deadlines is left open, as SQL leaves it; the model commits to no particular tie order.
- Request validation by the web framework (422 answers) is `Schemas.ParseTaskCreate` on its own. The routes take bodies that are already validated, and the order in which the framework reports body and header errors is not modelled.
- An explicit JSON null for `title`, `deadline` or `completed` in a `TaskUpdate` is not modelled. For `title` and `deadline` the NOT NULL columns refuse the write with a server error. `completed` is a nullable column (backend/models.py:20): the NULL is committed and stays in the row. The `TaskOut` answer then fails with a server error, and so does every later task list of that owner. A null description is modelled: an update writes NULL, while a create stores the column default "".
- Api.Lower: only ASCII letters are case-mapped; Python's full Unicode `lower()` is left out.
- Dates: ISO strings, their parsing, time zones and invalid date strings are left out. Deadlines are integers and "now" is a parameter.
- The locale formatting in `formatDeadline` (both files) is the `format` parameter.
- CORS, routing and response serialisation are left out, and so are the HTTP client and its network calls. Each handler returns its request and takes the reply as an input. A failure's `detail` is modelled only as an optional string; a list-shaped detail is left out.
- The login and register pages, `index.js` and `debug_check.py` are not part of this model. They are form plumbing, navigation and a debug print.
- React wiring is left out:
  - the effect that fetches on mount and on token change;
  - the filter buttons' `setFilter`;
  - the form inputs' `onChange`;
  - `preventDefault`;
  - rendering and styling.
- `window.confirm` is a boolean input and `console.error` logging is dropped.
- Overlapping asynchronous handlers that race on a stale `tasks` list are concurrency and are left out. Each handler runs alone from start to end.
- `storage` events fire only in other tabs. `OnStorageEvent` models such a tab's write to the shared storage together with this tab's handler.
