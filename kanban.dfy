/** The kanban board controller: the cached task list, the drag lifecycle with
    its optimistic status patch, the revert-by-reload on a failed update, and
    the bucketing of tasks into the four fixed columns. */
module Kanban {
  import opened Common

  /** A row of the tasks table. The status is kept as a string: the board
      compares it with drop-target ids, which are arbitrary strings. */
  datatype Task = Task(
    id: string,
    title: string,
    description: string,
    status: string,
    priority: string,
    assignee_id: Option<string>,
    team_id: Option<string>,
    percentage_complete: int,
    tags: seq<string>,
    due_date: Option<string>)

  /** A board column; its id is the status whose tasks it shows. */
  datatype Column = Column(id: string, title: string, color: string)

  const Columns: seq<Column> := [
    Column("backlog", "Backlog", "status-backlog"),
    Column("today", "Today", "status-today"),
    Column("review", "In Review", "status-review"),
    Column("done", "Done", "status-done")
  ]

  /** The statuses a drop may move a task to. */
  const ValidStatuses: seq<string> := ["backlog", "today", "review", "done"]

  const MovedText := "Task moved successfully"
  const MoveFailedText := "Failed to move task"
  const LoadFailedText := "Failed to load tasks"

  /** `validStatuses.includes(s)`: a drop target is accepted exactly when it
      is the id of one of the rendered columns. */
  function IsValidStatus(s: string): (b: bool)
    ensures b <==> s == Columns[0].id || s == Columns[1].id || s == Columns[2].id || s == Columns[3].id
  {
    s in ValidStatuses
  }

  ghost predicate AllValid(ts: seq<Task>) {
    forall i :: 0 <= i < |ts| ==> IsValidStatus(ts[i].status)
  }

  /** The columns the board renders are exactly the statuses a drop accepts. */
  lemma ColumnIdsAreValidStatuses()
    ensures |Columns| == |ValidStatuses|
    ensures forall k :: 0 <= k < |Columns| ==> Columns[k].id == ValidStatuses[k]
  {
  }

  /** `tasks.find(t => t.id === id)`: the first task with that id, if any. */
  function Find(ts: seq<Task>, id: string): (r: Option<Task>)
    ensures r.None? <==> forall i :: 0 <= i < |ts| ==> ts[i].id != id
    ensures r.Some? ==> exists i :: 0 <= i < |ts| && ts[i] == r.value && r.value.id == id
                                   && forall j :: 0 <= j < i ==> ts[j].id != id
    decreases |ts|
  {
    if ts == [] then None
    else if ts[0].id == id then Some(ts[0])
    else
      var r := Find(ts[1..], id);
      assert r.Some? ==> exists i :: 0 <= i < |ts[1..]| && ts[1..][i] == r.value && r.value.id == id
                                     && forall j :: 0 <= j < i ==> ts[1..][j].id != id;
      assert forall i :: 0 <= i < |ts[1..]| ==> ts[1..][i] == ts[i + 1];
      r
  }

  /** The optimistic patch `prev.map(t => t.id === id ? {...t, status} : t)`.
      Length and order are kept, every task keeps its id and every field but
      its status, and the status changes exactly on the tasks with that id. */
  function PatchStatus(ts: seq<Task>, id: string, status: string): (r: seq<Task>)
    ensures |r| == |ts|
    ensures forall i :: 0 <= i < |ts| ==> r[i].id == ts[i].id && r[i].(status := ts[i].status) == ts[i]
    ensures forall i :: 0 <= i < |ts| ==> r[i].status == if ts[i].id == id then status else ts[i].status
    decreases |ts|
  {
    if ts == [] then []
    else
      var head := if ts[0].id == id then ts[0].(status := status) else ts[0];
      [head] + PatchStatus(ts[1..], id, status)
  }

  /** `tasks.filter(task => task.status === status)`: a column's bucket. */
  function TasksByStatus(ts: seq<Task>, status: string): (bucket: seq<Task>)
    ensures forall t :: t in bucket <==> t in ts && t.status == status
    ensures |bucket| <= |ts|
    decreases |ts|
  {
    if ts == [] then []
    else if ts[0].status == status then [ts[0]] + TasksByStatus(ts[1..], status)
    else TasksByStatus(ts[1..], status)
  }

  /** A bucket is the order-preserving subsequence of the tasks with exactly
      that status. */
  lemma {:induction false} BucketIsOrderedFilter(ts: seq<Task>, status: string)
    ensures IsSubsequence(TasksByStatus(ts, status), ts)
    decreases |ts|
  {
    if ts != [] {
      BucketIsOrderedFilter(ts[1..], status);
      var rest := TasksByStatus(ts[1..], status);
      if ts[0].status == status {
        assert ([ts[0]] + rest)[1..] == rest;
      }
    }
  }

  /** A bucket keeps every occurrence of each task with its status and no
      occurrence of any other task. */
  lemma {:induction false} BucketCount(ts: seq<Task>, status: string, t: Task)
    ensures multiset(TasksByStatus(ts, status))[t] == if t.status == status then multiset(ts)[t] else 0
    decreases |ts|
  {
    if ts != [] {
      BucketCount(ts[1..], status, t);
      assert ts == [ts[0]] + ts[1..];
    }
  }

  /** The buckets of the four rendered columns together hold every task of
      a board whose statuses are valid, each exactly once. */
  lemma ColumnsPartition(ts: seq<Task>)
    requires AllValid(ts)
    ensures multiset(TasksByStatus(ts, Columns[0].id)) + multiset(TasksByStatus(ts, Columns[1].id))
          + multiset(TasksByStatus(ts, Columns[2].id)) + multiset(TasksByStatus(ts, Columns[3].id))
          == multiset(ts)
    ensures |TasksByStatus(ts, Columns[0].id)| + |TasksByStatus(ts, Columns[1].id)|
          + |TasksByStatus(ts, Columns[2].id)| + |TasksByStatus(ts, Columns[3].id)| == |ts|
  {
    ColumnIdsAreValidStatuses();
    var b, d, r, n := TasksByStatus(ts, "backlog"), TasksByStatus(ts, "today"),
                      TasksByStatus(ts, "review"), TasksByStatus(ts, "done");
    var all := multiset(b) + multiset(d) + multiset(r) + multiset(n);
    forall t ensures all[t] == multiset(ts)[t] {
      BucketCount(ts, "backlog", t);
      BucketCount(ts, "today", t);
      BucketCount(ts, "review", t);
      BucketCount(ts, "done", t);
      if t in ts {
        var i :| 0 <= i < |ts| && ts[i] == t;
        assert t.status in ValidStatuses;
      }
    }
    assert all == multiset(ts);
    assert |all| == |b| + |d| + |r| + |n|;
  }

  /** No task is in two different buckets. */
  lemma BucketsDisjoint(ts: seq<Task>, a: string, b: string)
    requires a != b
    ensures multiset(TasksByStatus(ts, a)) !! multiset(TasksByStatus(ts, b))
  {
    forall t | t in multiset(TasksByStatus(ts, a)) ensures t !in multiset(TasksByStatus(ts, b)) {
      assert t in TasksByStatus(ts, a);
    }
  }

  /** A patch to a valid status keeps every status valid. */
  lemma PatchKeepsValid(ts: seq<Task>, id: string, status: string)
    requires AllValid(ts) && IsValidStatus(status)
    ensures AllValid(PatchStatus(ts, id, status))
  {
  }

  /** The patched list at one position. */
  lemma {:induction false} PatchedAt(ts: seq<Task>, id: string, status: string, i: nat)
    requires i < |ts|
    ensures PatchStatus(ts, id, status)[i] == if ts[i].id == id then ts[i].(status := status) else ts[i]
    decreases i
  {
    if i > 0 {
      PatchedAt(ts[1..], id, status, i - 1);
    }
  }

  /** `find` returns the task at the first position holding the id. */
  lemma {:induction false} FindFirst(ts: seq<Task>, id: string, i: nat)
    requires i < |ts| && ts[i].id == id
    requires forall j :: 0 <= j < i ==> ts[j].id != id
    ensures Find(ts, id) == Some(ts[i])
    decreases i
  {
    if i > 0 {
      FindFirst(ts[1..], id, i - 1);
    }
  }

  /** After the patch, the moved task sits in the target bucket, no task with
      its id is left in its old bucket, and `find` sees the patched task. */
  lemma PatchMovesTask(ts: seq<Task>, t: Task, status: string)
    requires Find(ts, t.id) == Some(t) && t.status != status
    ensures t.(status := status) in TasksByStatus(PatchStatus(ts, t.id, status), status)
    ensures forall u :: u in TasksByStatus(PatchStatus(ts, t.id, status), t.status) ==> u.id != t.id
    ensures Find(PatchStatus(ts, t.id, status), t.id) == Some(t.(status := status))
  {
    var i :| 0 <= i < |ts| && ts[i] == t && forall j :: 0 <= j < i ==> ts[j].id != t.id;
    PatchFindsMoved(ts, t, status, i);
    PatchLeavesOldBucket(ts, t.id, t.status, status);
  }

  /** The task first holding the id is found, patched, in the new bucket. */
  lemma PatchFindsMoved(ts: seq<Task>, t: Task, status: string, i: nat)
    requires i < |ts| && ts[i] == t
    requires forall j :: 0 <= j < i ==> ts[j].id != t.id
    ensures t.(status := status) in TasksByStatus(PatchStatus(ts, t.id, status), status)
    ensures Find(PatchStatus(ts, t.id, status), t.id) == Some(t.(status := status))
  {
    var r := PatchStatus(ts, t.id, status);
    PatchedAt(ts, t.id, status, i);
    assert r[i] in r;
    assert forall j :: 0 <= j < i ==> r[j].id == ts[j].id;
    FindFirst(r, t.id, i);
  }

  /** Once every task with the id is moved to `status`, none of them is left
      in any other bucket. */
  lemma PatchLeavesOldBucket(ts: seq<Task>, id: string, from: string, status: string)
    requires from != status
    ensures forall u :: u in TasksByStatus(PatchStatus(ts, id, status), from) ==> u.id != id
  {
    var r := PatchStatus(ts, id, status);
    forall u | u in TasksByStatus(r, from) ensures u.id != id {
      var k :| 0 <= k < |r| && r[k] == u;
      assert r[k].id == ts[k].id;
    }
  }

  /** A server response to the task list query. `data` is null when the
      query returned no rows object. */
  datatype LoadResponse = Loaded(data: Option<seq<Task>>) | LoadFailed

  /** The outcome of the single-row status update. */
  datatype UpdateOutcome = Updated | UpdateFailed

  /** The remote update a valid drop issues: set this task's status. */
  datatype StatusUpdate = StatusUpdate(taskId: string, status: string)

  /** The board's component state. */
  class KanbanBoard {
    var tasks: seq<Task>
    var activeId: Option<string>
    var loading: bool
    var toasts: seq<Toast>

    /** The state at mount: no tasks, nothing dragged, loading. */
    constructor ()
      ensures tasks == [] && activeId == None && loading && toasts == []
    {
      tasks := [];
      activeId := None;
      loading := true;
      toasts := [];
    }

    /** `fetchTasks` with the server's response: a response replaces the
        whole list (no rows becomes the empty list), a failure keeps the list
        and reports it; loading ends either way. */
    method FetchTasks(response: LoadResponse)
      modifies this
      ensures tasks == if response.LoadFailed? then old(tasks) else response.data.GetOr([])
      ensures toasts == old(toasts) + if response.LoadFailed? then [Error(LoadFailedText)] else []
      ensures !loading && activeId == old(activeId)
    {
      if response.LoadFailed? {
        toasts := toasts + [Error(LoadFailedText)];
      } else {
        tasks := response.data.GetOr([]);
      }
      loading := false;
    }

    /** `handleDragStart`: remember the dragged task. */
    method HandleDragStart(id: string)
      modifies this`activeId
      ensures activeId == Some(id)
    {
      activeId := Some(id);
    }

    /** `handleDragEnd` up to the remote call. The drag always ends. A drop
        with no target, on an unknown task, onto the task's own status or
        onto an unknown status changes nothing and issues no update.
        Otherwise the list is patched at once and the update to issue is
        returned; its response is handled by SettleMove. */
    method HandleDragEnd(taskId: string, over: Option<string>) returns (request: Option<StatusUpdate>)
      modifies this
      ensures activeId == None
      ensures request.Some? <==> over.Some? && Find(old(tasks), taskId).Some?
                                 && Find(old(tasks), taskId).value.status != over.value
                                 && IsValidStatus(over.value)
      ensures request.None? ==> tasks == old(tasks)
      ensures request.Some? ==> request.value == StatusUpdate(taskId, over.value)
                                && tasks == PatchStatus(old(tasks), taskId, over.value)
      ensures AllValid(old(tasks)) ==> AllValid(tasks)
      ensures loading == old(loading) && toasts == old(toasts)
    {
      activeId := None;
      request := None;
      if over.None? {
        return;
      }
      var newStatus := over.value;
      var task := Find(tasks, taskId);
      if task.None? || task.value.status == newStatus {
        return;
      }
      if !IsValidStatus(newStatus) {
        return;
      }
      if AllValid(tasks) {
        PatchKeepsValid(tasks, taskId, newStatus);
      }
      tasks := PatchStatus(tasks, taskId, newStatus);
      request := Some(StatusUpdate(taskId, newStatus));
    }

    /** The continuation of `handleDragEnd` once the update has answered:
        a success is reported and the patch stays; a failure is reported and
        the list is reloaded with `reload`, the server's fresh response. */
    method SettleMove(outcome: UpdateOutcome, reload: LoadResponse)
      modifies this
      ensures outcome.Updated? ==> tasks == old(tasks) && loading == old(loading)
                                   && toasts == old(toasts) + [Success(MovedText)]
      ensures outcome.UpdateFailed? ==>
                && tasks == (if reload.LoadFailed? then old(tasks) else reload.data.GetOr([]))
                && !loading
                && toasts == old(toasts) + [Error(MoveFailedText)]
                             + (if reload.LoadFailed? then [Error(LoadFailedText)] else [])
      ensures activeId == old(activeId)
    {
      if outcome.Updated? {
        toasts := toasts + [Success(MovedText)];
      } else {
        toasts := toasts + [Error(MoveFailedText)];
        FetchTasks(reload);
      }
    }

    /** `activeTask`: the dragged task for the overlay. An empty id is falsy
        and shows nothing. */
    function ActiveTask(): (r: Option<Task>)
      reads this
      ensures r.Some? ==> r.value in tasks && activeId == Some(r.value.id) && r.value.id != ""
      ensures r.None? <==> activeId.None? || activeId.value == ""
                           || forall i :: 0 <= i < |tasks| ==> tasks[i].id != activeId.value
    {
      if activeId.None? || activeId.value == "" then None else Find(tasks, activeId.value)
    }
  }

  /** A board loads a server snapshot, a task is dragged to another valid
      column and the update fails while the server still holds the
      snapshot. Before the response the task shows in the target column;
      after reconciliation the board is the snapshot again, the task back in
      its old column. */
  method MoveThenRevert(snapshot: seq<Task>, taskId: string, target: string)
    returns (optimistic: seq<Task>, reconciled: seq<Task>)
    requires Find(snapshot, taskId).Some? && IsValidStatus(target)
    requires Find(snapshot, taskId).value.status != target
    ensures Find(snapshot, taskId).value.(status := target) in TasksByStatus(optimistic, target)
    ensures forall u :: u in TasksByStatus(optimistic, Find(snapshot, taskId).value.status) ==> u.id != taskId
    ensures reconciled == snapshot
    ensures Find(snapshot, taskId).value in TasksByStatus(reconciled, Find(snapshot, taskId).value.status)
  {
    var board := new KanbanBoard();
    board.FetchTasks(Loaded(Some(snapshot)));
    board.HandleDragStart(taskId);
    var request := board.HandleDragEnd(taskId, Some(target));
    optimistic := board.tasks;
    PatchMovesTask(snapshot, Find(snapshot, taskId).value, target);
    board.SettleMove(UpdateFailed, Loaded(Some(snapshot)));
    reconciled := board.tasks;
  }
}
