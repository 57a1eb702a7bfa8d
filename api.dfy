/** The API server's in-memory task table and its route handlers. The
    table is a list of tasks; reading handlers are functions of that list,
    mutating handlers are methods of the table object. A 404 becomes an
    error response. */
module Api {
  import opened Tasks

  /** A handler's reply: the value it returns, or the HTTP error it raises. */
  datatype Response<+T> = Reply(value: T) | HttpError(status: int, detail: string)

  const NotFoundStatus := 404
  const NotFoundDetail := "任务未找到"
  const DeletedMessage := "任务已删除"

  /** The table's three initial rows. */
  const Seed: seq<Task> := [
    Task(Some(1), "学习FastAPI", Some("学习FastAPI框架"), false, 2),
    Task(Some(2), "开发Vue3组件", Some("开发Vue3组件库"), true, 3),
    Task(Some(3), "打包Electron应用", Some("打包Electron桌面应用"), false, 1)
  ]

  /** Every row has a positive id and no two rows share one. */
  predicate WellKeyed(db: seq<Task>) {
    (forall i :: 0 <= i < |db| ==> db[i].id.Some? && db[i].id.value >= 1) && UniqueIds(db)
  }

  // ---------------------------------------------------------------------
  // Reading handlers

  predicate MatchesFilter(t: Task, completed: Option<bool>, priority: Option<int>) {
    (completed.None? || t.completed == completed.value) && (priority.None? || t.priority == priority.value)
  }

  function HasCompleted(flag: bool): Task -> bool {
    (t: Task) => t.completed == flag
  }

  function HasPriority(level: int): Task -> bool {
    (t: Task) => t.priority == level
  }

  /** `get_tasks`: the table narrowed by `completed`, then by `priority`,
      each filter applied only when given. */
  function GetTasks(db: seq<Task>, completed: Option<bool>, priority: Option<int>): (r: seq<Task>)
    ensures forall t :: t in r <==> t in db && MatchesFilter(t, completed, priority)
    ensures completed.None? && priority.None? ==> r == db
  {
    var byCompleted := if completed.Some? then Filter(db, HasCompleted(completed.value)) else db;
    if priority.Some? then Filter(byCompleted, HasPriority(priority.value)) else byCompleted
  }

  /** The listing is a single order-preserving filter by both conditions. */
  lemma GetTasksIsOneFilter(db: seq<Task>, completed: Option<bool>, priority: Option<int>)
    ensures GetTasks(db, completed, priority) == Filter(db, (t: Task) => MatchesFilter(t, completed, priority))
  {
    var both := (t: Task) => MatchesFilter(t, completed, priority);
    if completed.Some? && priority.Some? {
      FilterOfFilter(db, HasCompleted(completed.value), HasPriority(priority.value), both);
    } else if completed.Some? {
      FilterOfFilter(db, HasCompleted(completed.value), (t: Task) => true, both);
      FilterKeepsAll(Filter(db, HasCompleted(completed.value)), (t: Task) => true);
    } else if priority.Some? {
      FilterOfFilter(db, (t: Task) => true, HasPriority(priority.value), both);
      FilterKeepsAll(db, (t: Task) => true);
    } else {
      FilterKeepsAll(db, both);
    }
  }

  /** `get_task`: the first row with that id, or 404. */
  function GetTask(db: seq<Task>, taskId: int): (r: Response<Task>)
    ensures r.Reply? <==> exists i :: 0 <= i < |db| && db[i].id == Some(taskId)
    ensures r.Reply? ==> r.value in db && r.value.id == Some(taskId)
    ensures r.Reply? ==> forall i :: 0 <= i < |db| && db[i].id == Some(taskId) && db[i] != r.value ==>
      exists j :: 0 <= j < i && db[j] == r.value
    ensures r.HttpError? ==> r == HttpError(NotFoundStatus, NotFoundDetail)
  {
    match FindIndex(db, taskId)
    case None => HttpError(NotFoundStatus, NotFoundDetail)
    case Some(i) => Reply(db[i])
  }

  // ---------------------------------------------------------------------
  // The table after each mutating handler

  /** `max(ids) + 1`, or 1 for an empty table. */
  function NextId(db: seq<Task>): (r: int)
    requires forall i :: 0 <= i < |db| ==> db[i].id.Some?
    ensures forall i :: 0 <= i < |db| ==> db[i].id.value < r
    ensures |db| == 0 ==> r == 1
    ensures |db| > 0 ==> exists i :: 0 <= i < |db| && db[i].id.value == r - 1
  {
    if |db| == 0 then 1 else MaxId(db) + 1
  }

  /** The largest id in a non-empty table. */
  function MaxId(db: seq<Task>): (m: int)
    requires |db| > 0
    requires forall i :: 0 <= i < |db| ==> db[i].id.Some?
    ensures forall i :: 0 <= i < |db| ==> db[i].id.value <= m
    ensures exists i :: 0 <= i < |db| && db[i].id.value == m
  {
    if |db| == 1 then db[0].id.value
    else
      var rest := MaxId(db[1..]);
      assert forall i :: 1 <= i < |db| ==> db[i] == db[1..][i - 1];
      if db[0].id.value >= rest then db[0].id.value else rest
  }

  /** The row `create_task` stores for `body`: the id `NextId(db)`, unused
      by any row, and the body's other fields; any id in the body is
      ignored. */
  function Created(db: seq<Task>, body: Task): (t: Task)
    requires forall i :: 0 <= i < |db| ==> db[i].id.Some?
    ensures t.id == Some(NextId(db))
    ensures forall i :: 0 <= i < |db| ==> db[i].id != t.id
    ensures t.(id := body.id) == body
  {
    Task(Some(NextId(db)), body.title, body.description, body.completed, body.priority)
  }

  /** The row `update_task` stores: the body's fields under the path's id. */
  function Replacement(taskId: int, body: Task): (t: Task)
    ensures t.id == Some(taskId) && t.(id := body.id) == body
  {
    Task(Some(taskId), body.title, body.description, body.completed, body.priority)
  }

  /** The table after `delete_task`: the first row with that id popped. */
  function AfterDelete(db: seq<Task>, taskId: int): (r: seq<Task>)
    ensures FindIndex(db, taskId).None? ==> r == db
    ensures FindIndex(db, taskId).Some? ==>
      var i := FindIndex(db, taskId).value;
      |r| == |db| - 1 &&
      (forall j :: 0 <= j < i ==> r[j] == db[j]) &&
      (forall j :: i < j < |db| ==> r[j - 1] == db[j])
  {
    match FindIndex(db, taskId)
    case None => db
    case Some(i) => db[..i] + db[i + 1..]
  }

  /** The table after `complete_task` (`flag` true) or `uncomplete_task`
      (`flag` false): only the first matching row's flag changes. */
  function AfterSetCompleted(db: seq<Task>, taskId: int, flag: bool): (r: seq<Task>)
    ensures |r| == |db|
    ensures FindIndex(db, taskId).None? ==> r == db
    ensures FindIndex(db, taskId).Some? ==>
      var i := FindIndex(db, taskId).value;
      r[i].completed == flag && r[i].(completed := db[i].completed) == db[i] &&
      forall j :: 0 <= j < |db| && j != i ==> r[j] == db[j]
  {
    match FindIndex(db, taskId)
    case None => db
    case Some(i) => db[i := db[i].(completed := flag)]
  }

  // ---------------------------------------------------------------------
  // Id discipline

  lemma SeedWellKeyed()
    ensures WellKeyed(Seed)
  {
  }

  /** Creating keeps ids unique: the new id is above every existing one. */
  lemma CreateKeepsWellKeyed(db: seq<Task>, body: Task)
    requires WellKeyed(db)
    ensures WellKeyed(db + [Created(db, body)])
  {
    var r := db + [Created(db, body)];
    forall i, j | 0 <= i < j < |r| && r[i].id.Some?
      ensures r[i].id != r[j].id
    {
      if j == |db| {
        assert r[i] == db[i];
      }
    }
    if |db| > 0 {
      var k :| 0 <= k < |db| && db[k].id.value == NextId(db) - 1;
      assert Created(db, body).id.value >= 1;
    }
  }

  /** Updating keeps ids unique: the replaced row keeps its id. */
  lemma UpdateKeepsWellKeyed(db: seq<Task>, taskId: int, body: Task)
    requires WellKeyed(db)
    ensures WellKeyed(ReplaceFirst(db, taskId, Replacement(taskId, body)))
  {
    var r := ReplaceFirst(db, taskId, Replacement(taskId, body));
    assert forall j :: 0 <= j < |db| ==> r[j].id == db[j].id;
  }

  /** Deleting keeps ids unique: it only removes a row. */
  lemma DeleteKeepsWellKeyed(db: seq<Task>, taskId: int)
    requires WellKeyed(db)
    ensures WellKeyed(AfterDelete(db, taskId))
  {
    var r := AfterDelete(db, taskId);
    if FindIndex(db, taskId).Some? {
      var k := FindIndex(db, taskId).value;
      assert forall j :: 0 <= j < |r| ==> r[j] == db[if j < k then j else j + 1];
    }
  }

  /** Setting the flag keeps ids unique: no id changes. */
  lemma SetCompletedKeepsWellKeyed(db: seq<Task>, taskId: int, flag: bool)
    requires WellKeyed(db)
    ensures WellKeyed(AfterSetCompleted(db, taskId, flag))
  {
    var r := AfterSetCompleted(db, taskId, flag);
    assert forall j :: 0 <= j < |db| ==> r[j].id == db[j].id;
  }

  /** In a well-keyed table deleting a present id removes its only row: the
      id is gone and one row fewer remains. */
  lemma DeleteRemovesTheTask(db: seq<Task>, taskId: int)
    requires WellKeyed(db)
    requires FindIndex(db, taskId).Some?
    ensures |AfterDelete(db, taskId)| == |db| - 1
    ensures FindIndex(AfterDelete(db, taskId), taskId).None?
  {
    var k := FindIndex(db, taskId).value;
    var r := AfterDelete(db, taskId);
    forall j | 0 <= j < |r|
      ensures r[j].id != Some(taskId)
    {
      if j < k {
        assert r[j] == db[j];
      } else {
        assert r[j] == db[j + 1];
        assert db[k].id != db[j + 1].id;
      }
    }
  }

  /** Completing (or uncompleting) twice leaves the same table and returns
      the same row as doing it once. */
  lemma SetCompletedIdempotent(db: seq<Task>, taskId: int, flag: bool)
    ensures var once := AfterSetCompleted(db, taskId, flag);
      AfterSetCompleted(once, taskId, flag) == once &&
      FindIndex(once, taskId) == FindIndex(db, taskId)
  {
    var once := AfterSetCompleted(db, taskId, flag);
    assert forall j :: 0 <= j < |db| ==> once[j].id == db[j].id;
    FindIndexSeesOnlyIds(once, db, taskId);
  }

  /** Ids are not a counter: once the row holding the highest id is
      deleted, the next create hands out an id no larger than it. */
  lemma DeletingMaxLowersNextId(db: seq<Task>, i: nat)
    requires WellKeyed(db)
    requires i < |db| && db[i].id.value == MaxId(db)
    ensures WellKeyed(AfterDelete(db, MaxId(db)))
    ensures NextId(AfterDelete(db, MaxId(db))) <= MaxId(db)
  {
    var after := AfterDelete(db, MaxId(db));
    DeleteKeepsWellKeyed(db, MaxId(db));
    RemainingIdsBelow(db, i);
    if |after| > 0 {
      var k :| 0 <= k < |after| && after[k].id.value == NextId(after) - 1;
    }
  }

  /** The deleted highest id `m` is handed out again by the next create
      whenever `m - 1` is still in use (at position `j`). */
  lemma DeletingMaxLetsCreateReuseId(db: seq<Task>, i: nat, j: nat)
    requires WellKeyed(db)
    requires i < |db| && db[i].id.value == MaxId(db)
    requires j < |db| && db[j].id == Some(MaxId(db) - 1)
    ensures NextId(AfterDelete(db, MaxId(db))) == MaxId(db)
  {
    var m := MaxId(db);
    DeletingMaxLowersNextId(db, i);
    var after := AfterDelete(db, m);
    var k := StillPresent(db, i, j);
    assert after[k].id.value == m - 1;
  }

  /** After deleting the row with the highest id, every remaining id is
      below it. */
  lemma RemainingIdsBelow(db: seq<Task>, i: nat)
    requires WellKeyed(db)
    requires i < |db| && db[i].id.value == MaxId(db)
    ensures var after := AfterDelete(db, MaxId(db));
      forall j :: 0 <= j < |after| ==> after[j].id.Some? && after[j].id.value < MaxId(db)
  {
    var m := MaxId(db);
    FindIndexUnique(db, m, i);
    DeleteRemovesTheTask(db, m);
    var after := AfterDelete(db, m);
    forall j | 0 <= j < |after|
      ensures after[j].id.Some? && after[j].id.value < m
    {
      var src := if j < i then j else j + 1;
      assert after[j] == db[src];
      assert after[j].id != Some(m);
    }
  }

  /** Deleting the row at `i` keeps the row at any other position `j`,
      found at position `k` afterwards. */
  lemma StillPresent(db: seq<Task>, i: nat, j: nat) returns (k: nat)
    requires WellKeyed(db)
    requires i < |db| && j < |db| && i != j
    ensures k < |AfterDelete(db, db[i].id.value)|
    ensures AfterDelete(db, db[i].id.value)[k] == db[j]
  {
    var id := db[i].id.value;
    FindIndexUnique(db, id, i);
    k := if j < i then j else j - 1;
  }

  /** On the initial table: delete task 3, then create, and the new task is
      given id 3 again. */
  lemma SeedReusesIdThree(body: Task)
    ensures var after := AfterDelete(Seed, 3);
      Created(after, body).id == Some(3)
  {
    var after := AfterDelete(Seed, 3);
    assert FindIndex(Seed, 3) == Some(2);
    assert after == Seed[..2];
    assert after[1].id == Some(2);
  }

  // ---------------------------------------------------------------------
  // The table and its mutating handlers

  class TaskTable {
    var fakeDb: seq<Task>

    ghost predicate Valid()
      reads this
    {
      WellKeyed(fakeDb)
    }

    constructor ()
      ensures Valid() && fakeDb == Seed
    {
      fakeDb := Seed;
      SeedWellKeyed();
    }

    /** `create_task`: append a row with id `max + 1` (1 when empty) and the
        body's other fields, and return it. */
    method CreateTask(task: Task) returns (r: Task)
      requires Valid()
      modifies this
      ensures Valid()
      ensures r == Created(old(fakeDb), task)
      ensures fakeDb == old(fakeDb) + [r]
    {
      var newId := if |fakeDb| > 0 then MaxId(fakeDb) + 1 else 1;
      var newTask := Task(Some(newId), task.title, task.description, task.completed, task.priority);
      CreateKeepsWellKeyed(fakeDb, task);
      fakeDb := fakeDb + [newTask];
      r := newTask;
    }

    /** `update_task`: overwrite the first row with that id by the body,
        keeping the id, and return it; 404 when there is none. */
    method UpdateTask(taskId: int, task: Task) returns (r: Response<Task>)
      requires Valid()
      modifies this
      ensures Valid()
      ensures fakeDb == ReplaceFirst(old(fakeDb), taskId, Replacement(taskId, task))
      ensures FindIndex(old(fakeDb), taskId).Some? ==> r == Reply(Replacement(taskId, task))
      ensures FindIndex(old(fakeDb), taskId).None? ==> r == HttpError(NotFoundStatus, NotFoundDetail)
    {
      var index := FindIndex(fakeDb, taskId);
      if index.None? {
        return HttpError(NotFoundStatus, NotFoundDetail);
      }
      UpdateKeepsWellKeyed(fakeDb, taskId, task);
      fakeDb := fakeDb[index.value := Task(Some(taskId), task.title, task.description, task.completed, task.priority)];
      r := Reply(fakeDb[index.value]);
    }

    /** `delete_task`: pop the first row with that id; 404 when there is none. */
    method DeleteTask(taskId: int) returns (r: Response<string>)
      requires Valid()
      modifies this
      ensures Valid()
      ensures fakeDb == AfterDelete(old(fakeDb), taskId)
      ensures FindIndex(old(fakeDb), taskId).Some? ==> r == Reply(DeletedMessage)
      ensures FindIndex(old(fakeDb), taskId).None? ==> r == HttpError(NotFoundStatus, NotFoundDetail)
    {
      var index := FindIndex(fakeDb, taskId);
      if index.None? {
        return HttpError(NotFoundStatus, NotFoundDetail);
      }
      DeleteKeepsWellKeyed(fakeDb, taskId);
      fakeDb := fakeDb[..index.value] + fakeDb[index.value + 1..];
      r := Reply(DeletedMessage);
    }

    /** `complete_task` (`flag` true) and `uncomplete_task` (`flag` false):
        set the first matching row's flag and return the row; 404 when
        there is none. */
    method SetCompleted(taskId: int, flag: bool) returns (r: Response<Task>)
      requires Valid()
      modifies this
      ensures Valid()
      ensures fakeDb == AfterSetCompleted(old(fakeDb), taskId, flag)
      ensures FindIndex(old(fakeDb), taskId).Some? ==>
        r == Reply(fakeDb[FindIndex(old(fakeDb), taskId).value])
      ensures FindIndex(old(fakeDb), taskId).None? ==> r == HttpError(NotFoundStatus, NotFoundDetail)
    {
      var index := FindIndex(fakeDb, taskId);
      if index.None? {
        return HttpError(NotFoundStatus, NotFoundDetail);
      }
      SetCompletedKeepsWellKeyed(fakeDb, taskId, flag);
      fakeDb := fakeDb[index.value := fakeDb[index.value].(completed := flag)];
      r := Reply(fakeDb[index.value]);
    }

    method CompleteTask(taskId: int) returns (r: Response<Task>)
      requires Valid()
      modifies this
      ensures Valid()
      ensures fakeDb == AfterSetCompleted(old(fakeDb), taskId, true)
      ensures FindIndex(old(fakeDb), taskId).Some? ==>
        r == Reply(fakeDb[FindIndex(old(fakeDb), taskId).value])
      ensures FindIndex(old(fakeDb), taskId).None? ==> r == HttpError(NotFoundStatus, NotFoundDetail)
    {
      r := SetCompleted(taskId, true);
    }

    method UncompleteTask(taskId: int) returns (r: Response<Task>)
      requires Valid()
      modifies this
      ensures Valid()
      ensures fakeDb == AfterSetCompleted(old(fakeDb), taskId, false)
      ensures FindIndex(old(fakeDb), taskId).Some? ==>
        r == Reply(fakeDb[FindIndex(old(fakeDb), taskId).value])
      ensures FindIndex(old(fakeDb), taskId).None? ==> r == HttpError(NotFoundStatus, NotFoundDetail)
    {
      r := SetCompleted(taskId, false);
    }
  }
}
