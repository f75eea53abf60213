/** The GUI front-end's store (`src/db.rs`): the `tasks` and `projects`
    tables as sequences of rows in rowid order.  Ids are SQLite's
    `INTEGER PRIMARY KEY` rowids: an insert takes one more than the largest
    id in the table, or 1 in an empty table. */
module GuiDb {
  import opened Common
  import opened GuiDomain
  import Sequences

  /** A `tasks` row; the status is kept as its stored text. */
  datatype TaskRow = TaskRow(
    id: int,
    title: string,
    description: Option<string>,
    status: string,
    dueDate: Option<Timestamp>,
    projectId: Option<int>,
    createdAt: Timestamp)

  datatype ProjectRow = ProjectRow(id: int, name: string, createdAt: Timestamp)

  datatype Db = Db(tasks: seq<TaskRow>, projects: seq<ProjectRow>)

  /** The primary keys are unique and positive. */
  ghost predicate Valid(db: Db) {
    && (forall i, j :: 0 <= i < j < |db.tasks| ==> db.tasks[i].id != db.tasks[j].id)
    && (forall i, j :: 0 <= i < j < |db.projects| ==> db.projects[i].id != db.projects[j].id)
    && (forall i :: 0 <= i < |db.tasks| ==> db.tasks[i].id >= 1)
    && (forall i :: 0 <= i < |db.projects| ==> db.projects[i].id >= 1)
  }

  /** The largest number of `ids`, or 0 for none. */
  function MaxOf(ids: seq<int>): (m: int)
    ensures m >= 0
    ensures forall i :: 0 <= i < |ids| ==> ids[i] <= m
    ensures ids == [] ==> m == 0
    ensures m != 0 ==> exists i :: 0 <= i < |ids| && ids[i] == m
  {
    if ids == [] then 0
    else
      var rest := MaxOf(ids[1..]);
      assert forall i :: 1 <= i < |ids| ==> ids[i] == ids[1..][i - 1];
      if ids[0] > rest then ids[0] else rest
  }

  /** The ids of `rows`, in row order. */
  function Ids<R>(rows: seq<R>, id: R -> int): (ids: seq<int>)
    ensures |ids| == |rows| && forall i :: 0 <= i < |rows| ==> ids[i] == id(rows[i])
  {
    seq(|rows|, i requires 0 <= i < |rows| => id(rows[i]))
  }

  /** The id the next task insert receives. */
  function NextTaskId(db: Db): (id: int)
    ensures id >= 1
    ensures forall i :: 0 <= i < |db.tasks| ==> db.tasks[i].id < id
    ensures db.tasks == [] ==> id == 1
    ensures id == 1 || exists i :: 0 <= i < |db.tasks| && db.tasks[i].id == id - 1
  {
    MaxOf(Ids(db.tasks, (r: TaskRow) => r.id)) + 1
  }

  function NextProjectId(db: Db): (id: int)
    ensures id >= 1
    ensures forall i :: 0 <= i < |db.projects| ==> db.projects[i].id < id
    ensures db.projects == [] ==> id == 1
    ensures id == 1 || exists i :: 0 <= i < |db.projects| && db.projects[i].id == id - 1
  {
    MaxOf(Ids(db.projects, (r: ProjectRow) => r.id)) + 1
  }

  /** The task a row reads back as. */
  function ToTask(row: TaskRow): Task {
    Task(Some(row.id), row.title, row.description, StatusFromString(row.status),
         row.dueDate, row.projectId, row.createdAt)
  }

  /** Every row whose id is `id` rewritten by `f`; the others as they were. */
  function UpdateWhere(rows: seq<TaskRow>, id: int, f: TaskRow -> TaskRow): (r: seq<TaskRow>)
    ensures |r| == |rows|
    ensures forall i :: 0 <= i < |rows| ==> r[i] == if rows[i].id == id then f(rows[i]) else rows[i]
  {
    seq(|rows|, i requires 0 <= i < |rows| => if rows[i].id == id then f(rows[i]) else rows[i])
  }

  /* ---------------------------------------------------------------------- */
  /* Tasks                                                                  */

  /** `create_task`: appends a row under a fresh id, which it returns.  The
      task's own id is not used. */
  function CreateTask(db: Db, t: Task): (r: (Db, int))
    requires Valid(db)
    ensures Valid(r.0)
    ensures r.1 == NextTaskId(db)
    ensures forall i :: 0 <= i < |db.tasks| ==> db.tasks[i].id != r.1
    ensures r.0.tasks == db.tasks + [TaskRow(r.1, t.title, t.description, StatusToString(t.status),
                                             t.dueDate, t.projectId, t.createdAt)]
    ensures r.0.projects == db.projects
  {
    var id := NextTaskId(db);
    var row := TaskRow(id, t.title, t.description, StatusToString(t.status), t.dueDate, t.projectId, t.createdAt);
    (Db(db.tasks + [row], db.projects), id)
  }

  /** The id a caller puts in the task makes no difference. */
  lemma CreateTaskIgnoresId(db: Db, t: Task, id: Option<int>)
    requires Valid(db)
    ensures CreateTask(db, t.(id := id)) == CreateTask(db, t)
  {
  }

  /** `update_task_status`: sets the status of the row with that id. */
  function UpdateTaskStatus(db: Db, id: int, status: TaskStatus): (r: Db)
    requires Valid(db)
    ensures Valid(r)
    ensures |r.tasks| == |db.tasks| && r.projects == db.projects
    ensures forall i :: 0 <= i < |db.tasks| ==>
      r.tasks[i] == if db.tasks[i].id == id then db.tasks[i].(status := StatusToString(status)) else db.tasks[i]
  {
    Db(UpdateWhere(db.tasks, id, (row: TaskRow) => row.(status := StatusToString(status))), db.projects)
  }

  /** `update_task_due_date`: sets the due date of the row with that id. */
  function UpdateTaskDueDate(db: Db, id: int, due: Option<Timestamp>): (r: Db)
    requires Valid(db)
    ensures Valid(r)
    ensures |r.tasks| == |db.tasks| && r.projects == db.projects
    ensures forall i :: 0 <= i < |db.tasks| ==>
      r.tasks[i] == if db.tasks[i].id == id then db.tasks[i].(dueDate := due) else db.tasks[i]
  {
    Db(UpdateWhere(db.tasks, id, (row: TaskRow) => row.(dueDate := due)), db.projects)
  }

  /** `update_task`: fails on a task without id; otherwise overwrites the
      title, description, status, due date and project of that row, keeping
      its creation time. */
  function UpdateTask(db: Db, t: Task): (r: Result<Db>)
    requires Valid(db)
    ensures t.id.None? <==> r.Err?
    ensures r.Err? ==> r.error == Missing("Task ID is missing")
    ensures r.Ok? ==> Valid(r.value) && |r.value.tasks| == |db.tasks| && r.value.projects == db.projects
    ensures r.Ok? ==> forall i :: 0 <= i < |db.tasks| ==>
      if db.tasks[i].id == t.id.value then
        && r.value.tasks[i].id == db.tasks[i].id
        && r.value.tasks[i].createdAt == db.tasks[i].createdAt
        && ToTask(r.value.tasks[i]) == t.(createdAt := db.tasks[i].createdAt)
      else r.value.tasks[i] == db.tasks[i]
  {
    match t.id
    case None => Err(Missing("Task ID is missing"))
    case Some(id) =>
      var f := (row: TaskRow) => row.(title := t.title, description := t.description,
        status := StatusToString(t.status), dueDate := t.dueDate, projectId := t.projectId);
      var rows := UpdateWhere(db.tasks, id, f);
      forall i | 0 <= i < |db.tasks| && db.tasks[i].id == id
        ensures ToTask(rows[i]) == t.(createdAt := db.tasks[i].createdAt)
      {
        StatusRoundTrip(t.status);
      }
      Ok(Db(rows, db.projects))
  }

  /** The rows whose id is not `id`. */
  function RemoveTaskRows(rows: seq<TaskRow>, id: int): (r: seq<TaskRow>)
    ensures forall x :: x in r <==> x in rows && x.id != id
    ensures Sequences.IsSubsequence(r, rows)
  {
    Sequences.Filter(rows, (x: TaskRow) => x.id != id)
  }

  /** `delete_task`: removes the row with that id and no other. */
  function DeleteTask(db: Db, id: int): (r: Db)
    requires Valid(db)
    ensures Valid(r)
    ensures forall x :: x in r.tasks <==> x in db.tasks && x.id != id
    ensures Sequences.IsSubsequence(r.tasks, db.tasks)
    ensures r.projects == db.projects
  {
    var rows := RemoveTaskRows(db.tasks, id);
    Sequences.FilterKeepsPairs(db.tasks, (x: TaskRow) => x.id != id, (x: TaskRow, y: TaskRow) => x.id != y.id);
    forall i | 0 <= i < |rows| ensures rows[i].id >= 1 {
      assert rows[i] in rows;
    }
    Db(rows, db.projects)
  }

  /** `ORDER BY created_at DESC`. */
  function NewerFirst(a: Task, b: Task): bool {
    a.createdAt >= b.createdAt
  }

  function ToTasks(rows: seq<TaskRow>): (r: seq<Task>)
    ensures |r| == |rows| && forall i :: 0 <= i < |rows| ==> r[i] == ToTask(rows[i])
  {
    seq(|rows|, i requires 0 <= i < |rows| => ToTask(rows[i]))
  }

  /** `get_all_tasks`: every task, newest first; tasks created at the same
      instant stay in table order. */
  function GetAllTasks(db: Db): (r: seq<Task>)
    ensures Sequences.Sorted(r, NewerFirst)
    ensures multiset(r) == multiset(ToTasks(db.tasks))
  {
    assert Sequences.TotalPreorder(NewerFirst);
    Sequences.SortSorted(ToTasks(db.tasks), NewerFirst);
    Sequences.Sort(ToTasks(db.tasks), NewerFirst)
  }

  /** A created task is read back with its fresh id and its own fields. */
  lemma CreateThenGet(db: Db, t: Task)
    requires Valid(db)
    ensures t.(id := Some(CreateTask(db, t).1)) in GetAllTasks(CreateTask(db, t).0)
  {
    var (db', id) := CreateTask(db, t);
    StatusRoundTrip(t.status);
    var rows := db'.tasks;
    assert ToTasks(rows)[|rows| - 1] == t.(id := Some(id));
    assert t.(id := Some(id)) in multiset(ToTasks(rows));
  }

  /** After `update_task_status` the task reads back with the new status. */
  lemma UpdateStatusThenGet(db: Db, id: int, status: TaskStatus, t: Task)
    requires Valid(db)
    requires t in GetAllTasks(db) && t.id == Some(id)
    ensures t.(status := status) in GetAllTasks(UpdateTaskStatus(db, id, status))
  {
    var i :| 0 <= i < |db.tasks| && ToTasks(db.tasks)[i] == t by {
      assert t in multiset(ToTasks(db.tasks));
    }
    var db' := UpdateTaskStatus(db, id, status);
    StatusRoundTrip(status);
    assert ToTasks(db'.tasks)[i] == t.(status := status);
    assert t.(status := status) in multiset(ToTasks(db'.tasks));
  }

  /** After a due-date update the task reads back with the new due date. */
  lemma UpdateDueDateThenGet(db: Db, id: int, due: Option<Timestamp>, t: Task)
    requires Valid(db)
    requires t in GetAllTasks(db) && t.id == Some(id)
    ensures t.(dueDate := due) in GetAllTasks(UpdateTaskDueDate(db, id, due))
  {
    var i :| 0 <= i < |db.tasks| && ToTasks(db.tasks)[i] == t by {
      assert t in multiset(ToTasks(db.tasks));
    }
    var db' := UpdateTaskDueDate(db, id, due);
    assert ToTasks(db'.tasks)[i] == t.(dueDate := due);
    assert t.(dueDate := due) in multiset(ToTasks(db'.tasks));
  }

  /* ---------------------------------------------------------------------- */
  /* Projects                                                               */

  /** `create_project`: appends a project row under a fresh id. */
  function CreateProject(db: Db, p: Project): (r: (Db, int))
    requires Valid(db)
    ensures Valid(r.0)
    ensures r.1 == NextProjectId(db)
    ensures forall i :: 0 <= i < |db.projects| ==> db.projects[i].id != r.1
    ensures r.0.projects == db.projects + [ProjectRow(r.1, p.name, p.createdAt)]
    ensures r.0.tasks == db.tasks
  {
    var id := NextProjectId(db);
    (Db(db.tasks, db.projects + [ProjectRow(id, p.name, p.createdAt)]), id)
  }

  /** `update_project`: fails on a project without id; otherwise renames
      that project only. */
  function UpdateProject(db: Db, p: Project): (r: Result<Db>)
    requires Valid(db)
    ensures p.id.None? <==> r.Err?
    ensures r.Err? ==> r.error == Missing("Project ID is missing")
    ensures r.Ok? ==> Valid(r.value) && r.value.tasks == db.tasks && |r.value.projects| == |db.projects|
    ensures r.Ok? ==> forall i :: 0 <= i < |db.projects| ==>
      r.value.projects[i] ==
        if db.projects[i].id == p.id.value then db.projects[i].(name := p.name) else db.projects[i]
  {
    match p.id
    case None => Err(Missing("Project ID is missing"))
    case Some(id) =>
      var rows := seq(|db.projects|, i requires 0 <= i < |db.projects| =>
        if db.projects[i].id == id then db.projects[i].(name := p.name) else db.projects[i]);
      Ok(Db(db.tasks, rows))
  }

  /** The project rows whose id is not `id`, keeping the key constraints. */
  function RemoveProjectRows(rows: seq<ProjectRow>, id: int): (r: seq<ProjectRow>)
    requires forall i, j :: 0 <= i < j < |rows| ==> rows[i].id != rows[j].id
    requires forall i :: 0 <= i < |rows| ==> rows[i].id >= 1
    ensures forall x :: x in r <==> x in rows && x.id != id
    ensures forall i, j :: 0 <= i < j < |r| ==> r[i].id != r[j].id
    ensures forall i :: 0 <= i < |r| ==> r[i].id >= 1
  {
    var r := Sequences.Filter(rows, (p: ProjectRow) => p.id != id);
    Sequences.FilterKeepsPairs(rows, (p: ProjectRow) => p.id != id, (x: ProjectRow, y: ProjectRow) => x.id != y.id);
    forall i | 0 <= i < |r| ensures r[i].id >= 1 {
      assert r[i] in r;
    }
    r
  }

  /** `delete_project`: first moves every task of the project to the inbox
      (no project), then removes the project.  No task is removed. */
  function DeleteProject(db: Db, id: int): (r: Db)
    requires Valid(db)
    ensures Valid(r)
    ensures |r.tasks| == |db.tasks|
    ensures forall i :: 0 <= i < |db.tasks| ==>
      r.tasks[i] == if db.tasks[i].projectId == Some(id) then db.tasks[i].(projectId := None) else db.tasks[i]
    ensures forall p :: p in r.projects <==> p in db.projects && p.id != id
  {
    var tasks := seq(|db.tasks|, i requires 0 <= i < |db.tasks| =>
      if db.tasks[i].projectId == Some(id) then db.tasks[i].(projectId := None) else db.tasks[i]);
    Db(tasks, RemoveProjectRows(db.projects, id))
  }

  /** After deleting a project no task refers to it, and every task is
      still there. */
  lemma DeleteProjectMovesToInbox(db: Db, id: int)
    requires Valid(db)
    ensures forall t :: t in GetAllTasks(DeleteProject(db, id)) ==> t.projectId != Some(id)
    ensures |GetAllTasks(DeleteProject(db, id))| == |GetAllTasks(db)|
  {
    var r := DeleteProject(db, id);
    forall t | t in GetAllTasks(r) ensures t.projectId != Some(id) {
      assert t in multiset(ToTasks(r.tasks));
    }
    assert |multiset(GetAllTasks(r))| == |multiset(ToTasks(r.tasks))|;
    assert |multiset(GetAllTasks(db))| == |multiset(ToTasks(db.tasks))|;
  }

  function ToProject(row: ProjectRow): Project {
    Project(Some(row.id), row.name, row.createdAt)
  }

  /** `get_projects`: every project, in table order. */
  function GetProjects(db: Db): (r: seq<Project>)
    ensures |r| == |db.projects| && forall i :: 0 <= i < |r| ==> r[i] == ToProject(db.projects[i])
  {
    seq(|db.projects|, i requires 0 <= i < |db.projects| => ToProject(db.projects[i]))
  }
}
