# Task board client: a Dafny model

This project models the client-side logic of a small team task board. The
board, the dashboard and the notices run in the browser over a hosted
database. Four pieces of that logic are modelled:

- **The Kanban board controller** (`Kanban`, `kanban.dfy`). It holds the
  cached task list, the id of the dragged task and a loading flag. A drop:
  1. is checked against four guards;
  2. patches the moved task's status in the list at once (optimistically);
  3. issues the remote update;
  4. on a failed update, reloads the whole list from the server.

  The four fixed columns show the tasks of their status, in list order.
- **The task-creation dialog** (`CreateTask`, `create_task.dfy`, with the
  JavaScript string built-ins it relies on in `JsString`, `js_string.dfy`).
  It parses the comma-separated tag field, builds the insert record and then
  resets or keeps the form, depending on the insert's outcome.
- **The dashboard** (`Dashboard`, `dashboard.dfy`). It counts task rows by
  status, turns missing server counts into 0 and derives the admin flag from
  a role lookup.
- **The assignment-notice listener** (`TaskNotification`,
  `task_notification.dfy`). It caches the signed-in user's team. When a task
  is inserted for that team, it raises one notice carrying the task's title.

Shared value types live in `Common` (`common.dfy`): an optional value and the
notice log entries.

Each component's state is a class whose methods change its fields, as the
React state setters do. The list map and filter, the tag parser and the stat
derivation are pure functions. Lemmas about those functions carry the
promised properties.

Every call to the hosted database is an input to the model. An
asynchronous handler is split in two at its `await`:
- the first method issues the request and returns it;
- the second takes the server's answer: an update result, a row snapshot or
  a count.

Notices are modelled as a log of `Toast` values appended to the component.

The model keeps these behaviours of the code, which a reader might not
expect:
- A failed task load keeps the list as it was. It does not empty it.
- When an update fails and the reload that follows also fails, the
  optimistic patch stays in place.
- The dashboard reports a failure only when the combined request rejects.
  A query that answers with an error yields zero counts and no notice.
- `created_by` is absent when no user is signed in.

## Model

| member | source | states |
|---|---|---|
| `Kanban.ColumnIdsAreValidStatuses` | src/pages/Kanban.tsx:28-33 | the four column ids, in order, are exactly the statuses a drop accepts |
| `Kanban.IsValidStatus` | src/pages/Kanban.tsx:109-110 | a drop target is accepted exactly when it is the id of one of the four rendered columns |
| `Kanban.Find` | src/pages/Kanban.tsx:106 | the result is null exactly when no task has the id; otherwise it is the task at the first position holding the id |
| `Kanban.FindFirst` | src/pages/Kanban.tsx:106 | the lookup returns the task at any position with the id before which no task holds it |
| `Kanban.PatchStatus` | src/pages/Kanban.tsx:113-115 | the optimistic patch keeps length, order, every id and every field but the status; the status becomes the target exactly on the tasks with the id |
| `Kanban.PatchedAt` | src/pages/Kanban.tsx:113-115 | position by position, the patched list holds the task with the target status when its id matches and the task itself otherwise |
| `Kanban.PatchKeepsValid` | src/pages/Kanban.tsx:109-115 | patching to a valid status keeps every status of the list valid |
| `Kanban.TasksByStatus` | src/pages/Kanban.tsx:131-133 | a task is in a bucket exactly when it is in the list with that status; a bucket is never longer than the list |
| `Kanban.BucketIsOrderedFilter` | src/pages/Kanban.tsx:131-133 | a bucket is a subsequence of the list, so it keeps the list's order |
| `Kanban.BucketCount` | src/pages/Kanban.tsx:131-133 | a bucket holds every occurrence of each task with its status and none of any other task |
| `Kanban.ColumnsPartition` | src/pages/Kanban.tsx:131-133 | when every status is valid, the buckets of the four rendered columns (`Columns[0..3].id`) together are the whole list as a multiset, and their sizes add up to its length |
| `Kanban.BucketsDisjoint` | src/pages/Kanban.tsx:131-133 | buckets of two different statuses share no task |
| `Kanban.PatchMovesTask` | src/pages/Kanban.tsx:106-115 | after the patch the dragged task is in the target bucket, no task with its id is in its old bucket, and the lookup sees the patched task |
| `Kanban.PatchFindsMoved` | src/pages/Kanban.tsx:113-115 | the first task with the id, patched, is in the target bucket and is what the lookup returns |
| `Kanban.PatchLeavesOldBucket` | src/pages/Kanban.tsx:113-115 | after the patch no task with the id is in any bucket but the target's |
| `Kanban.KanbanBoard.constructor` | src/pages/Kanban.tsx:38-41 | the board starts with no tasks, nothing dragged and loading on |
| `Kanban.KanbanBoard.FetchTasks` | src/pages/Kanban.tsx:56-70 | a response replaces the whole list, with null data read as the empty list; a failure keeps the list and adds the load-failure notice; loading is off afterwards |
| `Kanban.KanbanBoard.HandleDragStart` | src/pages/Kanban.tsx:93-95 | the dragged id is remembered |
| `Kanban.KanbanBoard.HandleDragEnd` | src/pages/Kanban.tsx:97-115 | the drag always ends; an update is issued exactly when there is a target, the task exists, its status differs and the target is a valid status; if none is issued the list is unchanged, otherwise the list is the patch and the update names the task and target; valid statuses stay valid |
| `Kanban.KanbanBoard.SettleMove` | src/pages/Kanban.tsx:117-128 | a successful update keeps the patch and adds the success notice; a failed one adds the failure notice and replaces the list with the reload's snapshot |
| `Kanban.KanbanBoard.ActiveTask` | src/pages/Kanban.tsx:135 | the overlay task is the listed task with the dragged id; there is none when nothing is dragged, the id is empty or no task has it |
| `Kanban.MoveThenRevert` | src/pages/Kanban.tsx:97-129 | a drop whose update fails shows the task in the target column before the answer, and afterwards the board is the server snapshot again with the task in its old column |
| `JsString.Trim` | src/components/kanban/CreateTaskDialog.tsx:67 | a trimmed piece has no whitespace at either end, is no longer than the piece and holds only its characters |
| `JsString.TrimIsSlice` | src/components/kanban/CreateTaskDialog.tsx:67 | a trimmed piece is a slice of the piece with only whitespace cut from each end |
| `JsString.TrimOfTrimmed` | src/components/kanban/CreateTaskDialog.tsx:67 | text without whitespace at either end is its own trim |
| `JsString.TrimOfPadded` | src/components/kanban/CreateTaskDialog.tsx:67 | leading whitespace before trimmed text is removed and nothing else |
| `JsString.Split` | src/components/kanban/CreateTaskDialog.tsx:66 | the split has at least one piece and no piece holds the separator |
| `JsString.JoinSplit` | src/components/kanban/CreateTaskDialog.tsx:66 | joining the pieces of a split with the separator restores the text |
| `JsString.SplitJoin` | src/components/kanban/CreateTaskDialog.tsx:66 | splitting the join of separator-free pieces restores the pieces |
| `CreateTask.TrimAll` | src/components/kanban/CreateTaskDialog.tsx:67 | the map keeps the number of pieces and trims each one in place |
| `CreateTask.TrimAndDropEmpty` | src/components/kanban/CreateTaskDialog.tsx:67-68 | the cleaned pieces are no more than the raw pieces, and each is non-empty without whitespace at either end; what is kept is stated by the three lemmas below |
| `CreateTask.TrimAndDropEmptyIsOrdered` | src/components/kanban/CreateTaskDialog.tsx:67-68 | the cleaned tags are a subsequence of the trimmed pieces, so their order is kept |
| `CreateTask.TrimAndDropEmptyCount` | src/components/kanban/CreateTaskDialog.tsx:67-68 | every non-empty trimmed piece occurs among the tags exactly as often as among the trimmed pieces, so none is dropped or deduplicated |
| `CreateTask.NonEmptyPieceKept` | src/components/kanban/CreateTaskDialog.tsx:67-68 | a piece whose trim is non-empty is kept, trimmed |
| `CreateTask.CommaFreeKept` | src/components/kanban/CreateTaskDialog.tsx:65-68 | cleaning comma-free pieces gives comma-free tags |
| `CreateTask.ParseTags` | src/components/kanban/CreateTaskDialog.tsx:65-68 | every parsed tag is non-empty, comma-free and has no whitespace at either end; there are no more tags than split pieces |
| `CreateTask.ParseTagsIsOrderedFilter` | src/components/kanban/CreateTaskDialog.tsx:65-68 | for any field, the comma segments join back to the field, and the tags are those segments trimmed, empties dropped, the rest kept in order with repetitions; every segment with a non-empty trim appears |
| `CreateTask.HeadTagKept` | src/components/kanban/CreateTaskDialog.tsx:67-68 | a well-formed first piece is kept unchanged at the head of the tags |
| `CreateTask.WellFormedTagsKept` | src/components/kanban/CreateTaskDialog.tsx:67-68 | cleaning well-formed tags returns them unchanged, with order and repetitions |
| `CreateTask.ParseJoinedPieces` | src/components/kanban/CreateTaskDialog.tsx:65-68 | parsing comma-joined pieces trims each piece and drops the empty ones, in order |
| `CreateTask.ParseJoinedTags` | src/components/kanban/CreateTaskDialog.tsx:65-68 | parsing the comma-join of any list of well-formed tags gives that list back, so order and duplicates are kept |
| `CreateTask.ParseTagsExample` | src/components/kanban/CreateTaskDialog.tsx:65-68 | `"bug, feature,  , urgent"` parses to bug, feature, urgent, and the empty field parses to no tags |
| `CreateTask.NullIfEmpty` | src/components/kanban/CreateTaskDialog.tsx:75 | the empty string becomes null, any other text is kept as it is |
| `CreateTask.BuildInsert` | src/components/kanban/CreateTaskDialog.tsx:70-79 | title, description, status and priority are copied; an empty team or due date is null and a non-empty one is copied; the tags are the parsed, well-formed field; the creator is the current user |
| `CreateTask.FailureText` | src/components/kanban/CreateTaskDialog.tsx:96 | the error's own non-empty message is shown, otherwise the fixed fallback; the text is never empty |
| `CreateTask.CreateTaskDialog.constructor` | src/components/kanban/CreateTaskDialog.tsx:37-47 | the dialog starts with the default form and not loading |
| `CreateTask.CreateTaskDialog.BeginSubmit` | src/components/kanban/CreateTaskDialog.tsx:60-79 | loading starts and the insert record is built from the unchanged form |
| `CreateTask.CreateTaskDialog.FinishSubmit` | src/components/kanban/CreateTaskDialog.tsx:81-99 | on success the dialog closes, the success callback runs once and the form is reset to its defaults; on failure the form and open state are kept and the error text is shown; loading ends on both paths |
| `Dashboard.CountStatus` | src/pages/Dashboard.tsx:74-76 | the count is the number of occurrences of the status among the rows |
| `Dashboard.CountsBounded` | src/pages/Dashboard.tsx:70-76 | counts of three different statuses add up to at most the number of rows |
| `Dashboard.OrZero` | src/pages/Dashboard.tsx:73 | a present count is kept and an absent one is 0 |
| `Dashboard.DeriveStats` | src/pages/Dashboard.tsx:70-79 | today, done and review counts are the rows' status counts and sum to at most the rows; null rows give zero counts; the three totals are the server's counts or 0 |
| `Dashboard.DashboardPage.constructor` | src/pages/Dashboard.tsx:33-42 | stats start at zero, loading on, not admin |
| `Dashboard.DashboardPage.FetchDashboardData` | src/pages/Dashboard.tsx:62-85 | an answer sets the derived stats; a rejected request keeps the stats and adds the failure notice; loading is off afterwards |
| `Dashboard.DashboardPage.CheckAdminRole` | src/pages/Dashboard.tsx:49-60 | with no user the flag is unchanged; otherwise it is true exactly when an admin role row came back |
| `TaskNotification.ResolveTeam` | src/components/TaskNotification.tsx:21-29 | the cached team is the profile's team when there is a non-empty one, and null otherwise |
| `TaskNotification.ShouldNotify` | src/components/TaskNotification.tsx:47 | a task with no team or an empty team, a task of another team, or any task when no team is cached never notifies; a task of the non-empty cached team does |
| `TaskNotification.NotifyIffProfileTeam` | src/components/TaskNotification.tsx:47 | a user with no cached team is never notified; otherwise a task notifies exactly when its team is the profile's non-empty team |
| `TaskNotification.TaskNotificationListener.constructor` | src/components/TaskNotification.tsx:15 | the listener starts with no cached team, no channel and no notices |
| `TaskNotification.TaskNotificationListener.RunEffect` | src/components/TaskNotification.tsx:17-68 | the previous run's channel is removed first; with no user nothing is then fetched or subscribed; otherwise one profile lookup is issued and a channel is opened that captures the current cached team |
| `TaskNotification.TaskNotificationListener.ReceiveProfile` | src/components/TaskNotification.tsx:28 | the cached team becomes the profile's resolved team; the open channel keeps the team it captured |
| `TaskNotification.TaskNotificationListener.OnInsert` | src/components/TaskNotification.tsx:43-61 | on an open channel, a task of the team the channel captured adds exactly one notice with its title; every other event adds none |
| `TaskNotification.Session` | src/components/TaskNotification.tsx:17-68 | after sign-in and the profile answer, an insert before the effect re-runs raises nothing; after the re-run an insert notifies exactly when it is of the profile's team; after sign-out the same insert raises nothing |

## Left out

- Database calls: the queries, the insert, the update and the counts are inputs to the model (a snapshot, an outcome, a count). The gateway itself is not modelled.
- Realtime channels: subscription, the change feed that triggers reloads and channel teardown are transport. The board's effect also discards the cleanup its subscription returns (src/pages/Kanban.tsx:51-54), so the model makes no teardown promise.
- Request races: the model runs each handler's two halves in sequence. A reload racing an optimistic patch, and answers that arrive after unmount, are not modelled.
- Drag and drop: the library's sensors, drop-target detection and drag overlay are foreign code. The drop target is an optional column id input.
- Form validation: the browser enforces the title field's `required` attribute, not the submit handler, so the title is not checked.
- Notices: the toast library is modelled as a log of notice values. Durations, icons and layout are rendering.
- Team list: the dialog's team list fetch only feeds a select box. It is not part of this model.
- Rendering: the task list, card and column components, the profile page, animation and routing are rendering and navigation. They are not part of this model.
- Single-row queries: `.single()` is modelled only by its data, a row or null. Its error for zero or several rows is not read by the code.
- Whitespace: `JsString.IsWhitespace` lists the ECMAScript whitespace and line terminator code points, with the space separators of current Unicode. It does not track changes between Unicode versions.
- String encoding: a Dafny `string` is a sequence of Unicode scalar values, while a JavaScript string is a sequence of UTF-16 code units. Lone surrogates cannot be represented. No modelled operation depends on this.
- Effect re-runs: React decides when the listener's effect runs again (a change of user or of cached team). The model's callers call `RunEffect` at those points, as `Session` does; the re-run's second profile lookup, which returns the same team, is not followed.
- Task types: the `Task` row's status and priority are strings, not the source's literal unions. A drop compares the status with an arbitrary drop-target id.
