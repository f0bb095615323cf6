/** The to-do endpoints under `/users/{user_id}/tasks`. Each receives the caller resolved by
    `GetCurrentUser`, first checks that the path's user id is the caller's, and then touches only rows whose
    `user_id` is the caller's. */
module TaskRoutes {
  import opened Wrappers
  import opened Uuids
  import opened Models
  import opened Schemas
  import opened Exceptions
  import opened Dependencies
  import Text

  /** `select(Task).where(Task.id == task_id, Task.user_id == owner)`: the row with that id, if its owner is `owner`. */
  function FindTask(tasks: map<Uuid, Task>, taskId: Uuid, owner: Uuid): (r: Option<Task>)
    requires TasksKeyedById(tasks)
    ensures r.Some? <==> exists t :: t in tasks.Values && t.id == taskId && t.userId == owner
    ensures r.Some? ==> r.value in tasks.Values && r.value.id == taskId && r.value.userId == owner
  {
    if taskId in tasks && tasks[taskId].userId == owner then Some(tasks[taskId]) else None
  }

  /** The tasks of users other than `owner` are the same rows before and after. */
  ghost predicate UnchangedOutside(before: map<Uuid, Task>, after: map<Uuid, Task>, owner: Uuid)
  {
    (forall id :: id in before && before[id].userId != owner ==> id in after && after[id] == before[id])
    && (forall id :: id in after && after[id].userId != owner ==> id in before && before[id] == after[id])
  }

  /** No stored task's creation time changes. */
  ghost predicate CreationTimesKept(before: map<Uuid, Task>, after: map<Uuid, Task>)
  {
    forall id :: id in before && id in after ==> after[id].createdAt == before[id].createdAt
  }

  /** `create_task`: after the ownership check, stores a new task with the trimmed title, the given
      description, the caller as owner and not completed, under the fresh id `newId`. */
  method CreateTask(db: Db, pathUserId: Uuid, currentUser: User, data: TaskCreate, newId: Uuid, now: Timestamp)
    returns (r: Result<TaskResponse, AppException>)
    requires db.Valid() && currentUser.id in db.users && ValidTaskCreate(data) && newId !in db.tasks
    modifies db
    ensures db.Valid() && db.users == old(db.users)
    ensures UnchangedOutside(old(db.tasks), db.tasks, currentUser.id) && CreationTimesKept(old(db.tasks), db.tasks)
    ensures pathUserId != currentUser.id ==> r == Err(AuthorizationError()) && db.tasks == old(db.tasks)
    ensures pathUserId == currentUser.id ==>
              && db.tasks == old(db.tasks)[newId := NewTask(newId, StoredTitle(data.title), currentUser.id, now, data.description)]
              && r == Ok(ToTaskResponse(db.tasks[newId]))
  {
    var check := VerifyUserOwnership(pathUserId, currentUser);
    if check.Fail? {
      return Err(check.error);
    }
    CreateFitsColumns(data);
    var task := NewTask(newId, StoredTitle(data.title), currentUser.id, now, data.description);
    PutTaskKeepsWellFormed(db.users, db.tasks, task);
    db.tasks := db.tasks[newId := task];
    r := Ok(ToTaskResponse(task));
  }

  /** `get_task`: the caller's task with that id, NotFoundError("Task not found") if there is none. */
  function GetTask(tasks: map<Uuid, Task>, pathUserId: Uuid, currentUser: User, taskId: Uuid): (r: Result<TaskResponse, AppException>)
    requires TasksKeyedById(tasks)
    ensures pathUserId != currentUser.id ==> r == Err(AuthorizationError())
    ensures pathUserId == currentUser.id ==>
              && (r.Ok? <==> taskId in tasks && tasks[taskId].userId == currentUser.id)
              && (r.Ok? ==> r.value == ToTaskResponse(tasks[taskId]))
              && (r.Err? ==> r.error == NotFoundError("Task not found"))
  {
    var check := VerifyUserOwnership(pathUserId, currentUser);
    if check.Fail? then Err(check.error)
    else
      var task := FindTask(tasks, taskId, currentUser.id);
      if task.None? then Err(NotFoundError("Task not found"))
      else Ok(ToTaskResponse(task.value))
  }

  /** Another user's task, asked for under the caller's own path, is reported as not found (404), never as
      forbidden: its existence does not leak. */
  lemma OtherUsersTaskNotFound(tasks: map<Uuid, Task>, caller: User, taskId: Uuid)
    requires TasksKeyedById(tasks) && taskId in tasks && tasks[taskId].userId != caller.id
    ensures GetTask(tasks, caller.id, caller, taskId) == GetTask(tasks - {taskId}, caller.id, caller, taskId)
    ensures GetTask(tasks, caller.id, caller, taskId) == Err(NotFoundError("Task not found"))
  {
  }

  /** The row after `update_task` applied `data` at time `now`. */
  function Updated(t: Task, data: TaskUpdate, now: Timestamp): (u: Task)
    ensures u.id == t.id && u.userId == t.userId && u.isCompleted == t.isCompleted && u.createdAt == t.createdAt
    ensures u.title == if data.title.Some? then StoredTitle(data.title.value) else t.title
    ensures u.description == if data.description.Some? then data.description else t.description
    ensures u.updatedAt == now
  {
    t.(title := if data.title.Some? then StoredTitle(data.title.value) else t.title,
       description := if data.description.Some? then data.description else t.description,
       updatedAt := now)
  }

  /** An update that supplies nothing only moves the update time; a description that is not supplied is
      never cleared. */
  lemma EmptyUpdateOnlyTouchesTimestamp(t: Task, now: Timestamp)
    ensures Updated(t, TaskUpdate(None, None), now) == t.(updatedAt := now)
  {
  }

  /** Sending the same update twice leaves the row as sending it once, up to the update time. */
  lemma UpdateIdempotent(t: Task, data: TaskUpdate, n1: Timestamp, n2: Timestamp)
    ensures Updated(Updated(t, data, n1), data, n2) == Updated(t, data, n2)
  {
    if data.title.Some? {
      Text.StripIdempotent(data.title.value, Text.Whitespace);
    }
  }

  /** Two updates in a row supply each field from the later one when it has it, else from the earlier. */
  lemma UpdatesCompose(t: Task, d1: TaskUpdate, d2: TaskUpdate, n1: Timestamp, n2: Timestamp)
    ensures Updated(Updated(t, d1, n1), d2, n2)
            == Updated(t, TaskUpdate(if d2.title.Some? then d2.title else d1.title,
                                     if d2.description.Some? then d2.description else d1.description), n2)
  {
  }

  /** `update_task`: after the ownership check, the caller's task with that id gets the supplied fields
      (the title trimmed) and a new update time; NotFoundError("Task not found") if there is no such task. */
  method UpdateTask(db: Db, pathUserId: Uuid, currentUser: User, taskId: Uuid, data: TaskUpdate, now: Timestamp)
    returns (r: Result<TaskResponse, AppException>)
    requires db.Valid() && ValidTaskUpdate(data)
    modifies db
    ensures db.Valid() && db.users == old(db.users)
    ensures UnchangedOutside(old(db.tasks), db.tasks, currentUser.id) && CreationTimesKept(old(db.tasks), db.tasks)
    ensures pathUserId != currentUser.id ==> r == Err(AuthorizationError()) && db.tasks == old(db.tasks)
    ensures pathUserId == currentUser.id && !(taskId in old(db.tasks) && old(db.tasks)[taskId].userId == currentUser.id) ==>
              r == Err(NotFoundError("Task not found")) && db.tasks == old(db.tasks)
    ensures pathUserId == currentUser.id && taskId in old(db.tasks) && old(db.tasks)[taskId].userId == currentUser.id ==>
              && db.tasks == old(db.tasks)[taskId := Updated(old(db.tasks)[taskId], data, now)]
              && r == Ok(ToTaskResponse(db.tasks[taskId]))
  {
    var check := VerifyUserOwnership(pathUserId, currentUser);
    if check.Fail? {
      return Err(check.error);
    }
    var found := FindTask(db.tasks, taskId, currentUser.id);
    if found.None? {
      return Err(NotFoundError("Task not found"));
    }
    var task := found.value;
    if data.title.Some? {
      task := task.(title := StoredTitle(data.title.value));
    }
    if data.description.Some? {
      task := task.(description := data.description);
    }
    task := task.(updatedAt := now);
    assert task == Updated(found.value, data, now);
    PutTaskKeepsWellFormed(db.users, db.tasks, task);
    db.tasks := db.tasks[taskId := task];
    r := Ok(ToTaskResponse(task));
  }

  /** `delete_task`: after the ownership check, removes the caller's task with that id and nothing else;
      NotFoundError("Task not found") if there is no such task. */
  method DeleteTask(db: Db, pathUserId: Uuid, currentUser: User, taskId: Uuid) returns (r: Outcome<AppException>)
    requires db.Valid()
    modifies db
    ensures db.Valid() && db.users == old(db.users)
    ensures UnchangedOutside(old(db.tasks), db.tasks, currentUser.id) && CreationTimesKept(old(db.tasks), db.tasks)
    ensures pathUserId != currentUser.id ==> r == Fail(AuthorizationError()) && db.tasks == old(db.tasks)
    ensures pathUserId == currentUser.id && !(taskId in old(db.tasks) && old(db.tasks)[taskId].userId == currentUser.id) ==>
              r == Fail(NotFoundError("Task not found")) && db.tasks == old(db.tasks)
    ensures pathUserId == currentUser.id && taskId in old(db.tasks) && old(db.tasks)[taskId].userId == currentUser.id ==>
              r == Pass && db.tasks == old(db.tasks) - {taskId}
  {
    var check := VerifyUserOwnership(pathUserId, currentUser);
    if check.Fail? {
      return check;
    }
    var found := FindTask(db.tasks, taskId, currentUser.id);
    if found.None? {
      return Fail(NotFoundError("Task not found"));
    }
    DeleteTaskKeepsWellFormed(db.users, db.tasks, taskId);
    db.tasks := db.tasks - {taskId};
    r := Pass;
  }

  /** The row after `toggle_complete` at time `now`. */
  function Toggled(t: Task, now: Timestamp): (u: Task)
    ensures u.isCompleted == !t.isCompleted && u.updatedAt == now
    ensures u.(isCompleted := t.isCompleted, updatedAt := t.updatedAt) == t
  {
    t.(isCompleted := !t.isCompleted, updatedAt := now)
  }

  /** Toggling twice restores the row, up to the update time. */
  lemma ToggleTwice(t: Task, n1: Timestamp, n2: Timestamp)
    ensures Toggled(Toggled(t, n1), n2) == t.(updatedAt := n2)
  {
  }

  /** `toggle_complete`: after the ownership check, flips the completion flag of the caller's task with
      that id and sets a new update time; NotFoundError("Task not found") if there is no such task. */
  method ToggleComplete(db: Db, pathUserId: Uuid, currentUser: User, taskId: Uuid, now: Timestamp)
    returns (r: Result<TaskResponse, AppException>)
    requires db.Valid()
    modifies db
    ensures db.Valid() && db.users == old(db.users)
    ensures UnchangedOutside(old(db.tasks), db.tasks, currentUser.id) && CreationTimesKept(old(db.tasks), db.tasks)
    ensures pathUserId != currentUser.id ==> r == Err(AuthorizationError()) && db.tasks == old(db.tasks)
    ensures pathUserId == currentUser.id && !(taskId in old(db.tasks) && old(db.tasks)[taskId].userId == currentUser.id) ==>
              r == Err(NotFoundError("Task not found")) && db.tasks == old(db.tasks)
    ensures pathUserId == currentUser.id && taskId in old(db.tasks) && old(db.tasks)[taskId].userId == currentUser.id ==>
              && db.tasks == old(db.tasks)[taskId := Toggled(old(db.tasks)[taskId], now)]
              && r == Ok(ToTaskResponse(db.tasks[taskId]))
  {
    var check := VerifyUserOwnership(pathUserId, currentUser);
    if check.Fail? {
      return Err(check.error);
    }
    var found := FindTask(db.tasks, taskId, currentUser.id);
    if found.None? {
      return Err(NotFoundError("Task not found"));
    }
    var task := found.value;
    task := task.(isCompleted := !task.isCompleted);
    task := task.(updatedAt := now);
    PutTaskKeepsWellFormed(db.users, db.tasks, task);
    db.tasks := db.tasks[taskId := task];
    r := Ok(ToTaskResponse(task));
  }

  // ---------------------------------------------------------------------------------------------
  // Listing: the caller's tasks, newest first, one page at a time.

  /** Ordered by `created_at`, descending. */
  ghost predicate NewestFirst(s: seq<Task>)
  {
    forall i, j :: 0 <= i < j < |s| ==> s[i].createdAt >= s[j].createdAt
  }

  /** No task id occurs twice. */
  ghost predicate DistinctIds(s: seq<Task>)
  {
    forall i, j :: 0 <= i < j < |s| ==> s[i].id != s[j].id
  }

  /** `s` holds exactly the stored tasks whose ids are in `ids`, each once. */
  ghost predicate Enumerates(s: seq<Task>, tasks: map<Uuid, Task>, ids: set<Uuid>)
  {
    && (forall i :: 0 <= i < |s| ==> s[i].id in ids && s[i].id in tasks && tasks[s[i].id] == s[i])
    && (forall id :: id in ids ==> exists i :: 0 <= i < |s| && s[i].id == id)
    && DistinctIds(s)
    && |s| == |ids|
  }

  /** Inserting `t` into a newest-first sequence before the first task that is not newer. */
  function InsertNewestFirst(s: seq<Task>, t: Task): (r: seq<Task>)
    ensures multiset(r) == multiset(s) + multiset{t}
  {
    if s == [] || t.createdAt >= s[0].createdAt then [t] + s
    else
      assert s == [s[0]] + s[1..];
      [s[0]] + InsertNewestFirst(s[1..], t)
  }

  /** Insertion keeps a sequence newest-first. */
  lemma {:induction false} InsertKeepsNewestFirst(s: seq<Task>, t: Task)
    requires NewestFirst(s)
    ensures NewestFirst(InsertNewestFirst(s, t))
  {
    if s != [] && t.createdAt < s[0].createdAt {
      var rest := InsertNewestFirst(s[1..], t);
      InsertKeepsNewestFirst(s[1..], t);
      forall i | 0 <= i < |rest| ensures s[0].createdAt >= rest[i].createdAt {
        assert rest[i] in multiset(rest);
        if rest[i] != t {
          assert rest[i] in multiset(s[1..]);
          var j :| 0 <= j < |s[1..]| && s[1..][j] == rest[i];
          assert s[j + 1] == rest[i];
        }
      }
    }
  }

  /** Insertion of a task whose id is new keeps the ids distinct. */
  lemma {:induction false} InsertKeepsDistinct(s: seq<Task>, t: Task)
    requires DistinctIds(s) && forall i :: 0 <= i < |s| ==> s[i].id != t.id
    ensures DistinctIds(InsertNewestFirst(s, t))
  {
    if s != [] && t.createdAt < s[0].createdAt {
      var rest := InsertNewestFirst(s[1..], t);
      InsertKeepsDistinct(s[1..], t);
      forall i | 0 <= i < |rest| ensures s[0].id != rest[i].id {
        assert rest[i] in multiset(rest);
        if rest[i] != t {
          assert rest[i] in multiset(s[1..]);
          var j :| 0 <= j < |s[1..]| && s[1..][j] == rest[i];
          assert s[j + 1] == rest[i];
        }
      }
    }
  }

  /** A page: `LIMIT limit OFFSET offset` over the ordered rows. */
  function Page(s: seq<Task>, limit: nat, offset: nat): (r: seq<Task>)
    ensures |r| == if offset >= |s| then 0 else if offset + limit <= |s| then limit else |s| - offset
    ensures forall i :: 0 <= i < |r| ==> r[i] == s[offset + i]
  {
    var lo := if offset < |s| then offset else |s|;
    var hi := if offset + limit < |s| then offset + limit else |s|;
    s[lo..hi]
  }

  /** One step of the ordering loop: inserting the stored task `id` from the ids still to place keeps
      the placed rows an enumeration of the ids placed so far. */
  lemma InsertStep(tasks: map<Uuid, Task>, ids: set<Uuid>, remaining: set<Uuid>, rows: seq<Task>, id: Uuid)
    requires TasksKeyedById(tasks) && ids <= tasks.Keys && remaining <= ids && id in remaining
    requires NewestFirst(rows) && Enumerates(rows, tasks, ids - remaining)
    ensures NewestFirst(InsertNewestFirst(rows, tasks[id]))
    ensures Enumerates(InsertNewestFirst(rows, tasks[id]), tasks, ids - (remaining - {id}))
  {
    var next := InsertNewestFirst(rows, tasks[id]);
    var done' := ids - (remaining - {id});
    InsertKeepsNewestFirst(rows, tasks[id]);
    InsertKeepsDistinct(rows, tasks[id]);
    assert |next| == |rows| + 1 by {
      assert |multiset(next)| == |multiset(rows)| + 1;
    }
    forall k | k in done'
      ensures exists i :: 0 <= i < |next| && next[i].id == k
    {
      if k == id {
        assert tasks[id] in multiset(next);
      } else {
        assert k in ids - remaining;
        var i :| 0 <= i < |rows| && rows[i].id == k;
        assert rows[i] in multiset(next);
      }
    }
    forall i | 0 <= i < |next|
      ensures next[i].id in done' && next[i].id in tasks && tasks[next[i].id] == next[i]
    {
      assert next[i] in multiset(next);
      if next[i] != tasks[id] {
        assert next[i] in multiset(rows);
      }
    }
    assert done' == (ids - remaining) + {id};
  }

  /** The database's `ORDER BY created_at DESC` over the rows with ids in `ids`: it takes the rows one by one,
      in no particular order, and inserts each among those already placed. */
  method OrderNewestFirst(tasks: map<Uuid, Task>, ids: set<Uuid>) returns (rows: seq<Task>)
    requires TasksKeyedById(tasks) && ids <= tasks.Keys
    ensures NewestFirst(rows) && Enumerates(rows, tasks, ids)
  {
    rows := [];
    var remaining := ids;
    while remaining != {}
      invariant remaining <= ids
      invariant NewestFirst(rows) && Enumerates(rows, tasks, ids - remaining)
      decreases remaining
    {
      var id :| id in remaining;
      InsertStep(tasks, ids, remaining, rows, id);
      rows := InsertNewestFirst(rows, tasks[id]);
      remaining := remaining - {id};
    }
    assert ids - remaining == ids;
  }

  /** `list_tasks`: after the ownership check, the total number of the caller's tasks, and the page
      `[offset, offset + limit)` of the caller's tasks ordered newest first. Ties in `created_at` may come
      in any order; `ordered` is the order this call produced. */
  method ListTasks(tasks: map<Uuid, Task>, pathUserId: Uuid, currentUser: User, limit: nat := 50, offset: nat := 0)
    returns (r: Result<TaskListResponse, AppException>, ghost ordered: seq<Task>)
    requires TasksKeyedById(tasks) && 1 <= limit <= 100
    ensures pathUserId != currentUser.id ==> r == Err(AuthorizationError())
    ensures pathUserId == currentUser.id ==>
              && r.Ok?
              && r.value.total == |OwnedIds(tasks, currentUser.id)|
              && NewestFirst(ordered)
              && Enumerates(ordered, tasks, OwnedIds(tasks, currentUser.id))
              && r.value.tasks == seq(|Page(ordered, limit, offset)|, i requires 0 <= i < |Page(ordered, limit, offset)| =>
                                        ToTaskResponse(Page(ordered, limit, offset)[i]))
  {
    ordered := [];
    var check := VerifyUserOwnership(pathUserId, currentUser);
    if check.Fail? {
      return Err(check.error), ordered;
    }
    var owned := set id | id in tasks && tasks[id].userId == currentUser.id;
    assert owned == OwnedIds(tasks, currentUser.id);
    var total := |owned|;
    var rows := OrderNewestFirst(tasks, owned);
    ordered := rows;
    var page := Page(rows, limit, offset);
    r := Ok(TaskListResponse(seq(|page|, i requires 0 <= i < |page| => ToTaskResponse(page[i])), total));
  }
}
