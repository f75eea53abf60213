/** The terminal front-end's application state (`src/core/state.rs`): the
    task list read from the store, the cursor into it, the mode and the
    command buffer.  Storage errors are left out, so each operation always
    completes. */
module TuiState {
  import opened Common
  import opened Modes
  import opened SqliteStore

  datatype AppState = AppState(
    tasks: seq<Task>,
    selectedIndex: nat,
    mode: Mode,
    commandBuffer: string,
    store: Store,
    running: bool)

  /** The cursor is on a task whenever there is one. */
  ghost predicate CursorInRange(app: AppState) {
    app.tasks != [] ==> app.selectedIndex < |app.tasks|
  }

  /** `AppState::new`: reads every task and starts at the top in Normal mode. */
  function New(store: Store): (app: AppState)
    ensures app.tasks == AllTasks(store) && app.store == store
    ensures app.selectedIndex == 0 && app.mode == Normal && app.commandBuffer == [] && app.running
    ensures CursorInRange(app)
  {
    AppState(AllTasks(store), 0, Normal, [], store, true)
  }

  /** `reload_tasks`: re-reads the list and pulls the cursor back onto its
      last task if the list shrank below it; an empty list leaves the cursor
      where it was. */
  function Reload(app: AppState): (r: AppState)
    ensures r.tasks == AllTasks(app.store)
    ensures CursorInRange(r)
    ensures app.selectedIndex < |r.tasks| || r.tasks == [] ==> r.selectedIndex == app.selectedIndex
    ensures app.selectedIndex >= |r.tasks| && r.tasks != [] ==> r.selectedIndex == |r.tasks| - 1
    ensures r == app.(tasks := r.tasks, selectedIndex := r.selectedIndex)
  {
    var tasks := AllTasks(app.store);
    var index := if app.selectedIndex >= |tasks| && tasks != [] then |tasks| - 1 else app.selectedIndex;
    app.(tasks := tasks, selectedIndex := index)
  }

  /** A reload with nothing changed in the store changes nothing more. */
  lemma ReloadIdempotent(app: AppState)
    ensures Reload(Reload(app)) == Reload(app)
  {
  }

  /** `add_task`: stores the new task and reloads.  The task is built by the
      caller (`Task::new` is not part of this model). */
  function AddTask(app: AppState, t: Task): (r: AppState)
    requires Valid(app.store)
    ensures Valid(r.store)
    ensures r.store == SaveTask(app.store, t)
    ensures r == Reload(app.(store := r.store))
    ensures t in r.tasks
    ensures CursorInRange(r)
    ensures r.mode == app.mode && r.commandBuffer == app.commandBuffer && r.running == app.running
  {
    var r := Reload(app.(store := SaveTask(app.store, t)));
    SaveThenGet(app.store, t, (c, p, row) => true);
    GetTasksUnfiltered(SaveTask(app.store, t), (c, p, row) => true);
    r
  }

  /** `delete_selected_task`: with the cursor on a task, deletes that task's
      id and reloads; with the cursor past the end, does nothing. */
  function DeleteSelected(app: AppState): (r: AppState)
    requires Valid(app.store)
    ensures Valid(r.store)
    ensures app.selectedIndex >= |app.tasks| ==> r == app
    ensures app.selectedIndex < |app.tasks| ==>
      && r.store == DeleteTask(app.store, app.tasks[app.selectedIndex].id)
      && r == Reload(app.(store := r.store))
      && (forall t :: t in r.tasks ==> t.id != app.tasks[app.selectedIndex].id)
      && CursorInRange(r)
  {
    if app.selectedIndex < |app.tasks| then
      var id := app.tasks[app.selectedIndex].id;
      var st := DeleteTask(app.store, id);
      DeleteThenGet(app.store, id, None, (c, p, row) => true);
      GetTasksUnfiltered(st, (c, p, row) => true);
      Reload(app.(store := st))
    else
      app
  }

  /** Two tasks with different ids added to an empty store give a list of
      two. */
  lemma AddTwoTasks(t1: Task, t2: Task)
    requires t1.id != t2.id
    ensures |AddTask(AddTask(New(EmptyStore()), t1), t2).tasks| == 2
  {
    var st1 := SaveTask(EmptyStore(), t1);
    SaveNewTask(EmptyStore(), t1);
    assert st1.rows == [RowOf(t1)];
    assert FindRow(st1.rows, t2.id).None?;
    SaveNewTask(st1, t2);
    assert |SaveTask(st1, t2).rows| == 2;
  }

  /** Two tasks with different ids, the second at a later position, added to
      an empty store come back in the order they were added. */
  lemma AddTwoTasksInOrder(t1: Task, t2: Task)
    requires t1.id != t2.id && t1.position < t2.position
    ensures AddTask(AddTask(New(EmptyStore()), t1), t2).tasks == [t1, t2]
  {
    SaveTwoInOrder(t1, t2);
  }

  /** `move_selection_up`: one row up, stopping at the top. */
  function MoveUp(app: AppState): (r: AppState)
    ensures r.selectedIndex <= app.selectedIndex
    ensures r.selectedIndex + 1 >= app.selectedIndex
    ensures r.selectedIndex == app.selectedIndex <==> app.selectedIndex == 0
    ensures r == app.(selectedIndex := r.selectedIndex)
  {
    if app.selectedIndex > 0 then app.(selectedIndex := app.selectedIndex - 1) else app
  }

  /** `move_selection_down`: one row down, stopping at the last task. */
  function MoveDown(app: AppState): (r: AppState)
    ensures r.selectedIndex >= app.selectedIndex
    ensures r.selectedIndex <= app.selectedIndex + 1
    ensures r.selectedIndex == app.selectedIndex <==> app.selectedIndex + 1 >= |app.tasks|
    ensures r == app.(selectedIndex := r.selectedIndex)
  {
    if app.tasks != [] && app.selectedIndex < |app.tasks| - 1 then
      app.(selectedIndex := app.selectedIndex + 1)
    else
      app
  }

  /** Both moves keep the cursor on a task. */
  lemma MovesKeepCursorInRange(app: AppState)
    requires CursorInRange(app)
    ensures CursorInRange(MoveUp(app)) && CursorInRange(MoveDown(app))
  {
  }

  /** Away from the ends, a move down undoes a move up and vice versa. */
  lemma MovesInverse(app: AppState)
    ensures 0 < app.selectedIndex < |app.tasks| ==> MoveDown(MoveUp(app)) == app
    ensures app.selectedIndex + 1 < |app.tasks| ==> MoveUp(MoveDown(app)) == app
  {
  }

  /** `n` moves down from the top reach row `min(n, len - 1)`. */
  function MoveDownTimes(app: AppState, n: nat): AppState {
    if n == 0 then app else MoveDown(MoveDownTimes(app, n - 1))
  }

  lemma {:induction false} MoveDownTimesIndex(app: AppState, n: nat)
    requires app.tasks != [] && app.selectedIndex == 0
    ensures MoveDownTimes(app, n).selectedIndex == if n < |app.tasks| then n else |app.tasks| - 1
    ensures MoveDownTimes(app, n).tasks == app.tasks
  {
    if n > 0 {
      MoveDownTimesIndex(app, n - 1);
    }
  }
}
