/** The GUI front-end's view state (`src/state.rs`): the cached task and
    project lists, the sidebar filter and the search text, over the store of
    `GuiDb`.  Storage errors are left out, so each operation completes.
    The clock and the local calendar day of an instant are parameters. */
module GuiState {
  import opened Common
  import opened Strings
  import opened GuiDomain
  import opened GuiDb
  import Sequences

  /** The sidebar selection. */
  datatype Filter = Inbox | Today | Upcoming | ProjectView(id: int)

  datatype AppState = AppState(
    db: Db,
    tasks: seq<Task>,
    projects: seq<Project>,
    activeFilter: Filter,
    searchQuery: string,
    isDarkMode: bool)

  /** `AppState::new`: nothing loaded yet, the inbox selected, no search. */
  function New(db: Db): (app: AppState)
    ensures app.db == db && app.tasks == [] && app.projects == []
    ensures app.activeFilter == Inbox && app.searchQuery == [] && !app.isDarkMode
  {
    AppState(db, [], [], Inbox, [], false)
  }

  /** `refresh`: reloads both cached lists from the store. */
  function Refresh(app: AppState): (r: AppState)
    ensures r.tasks == GetAllTasks(app.db) && r.projects == GetProjects(app.db)
    ensures r == app.(tasks := r.tasks, projects := r.projects)
  {
    app.(tasks := GetAllTasks(app.db), projects := GetProjects(app.db))
  }

  /** The project a new task joins: the selected project, if any. */
  function ProjectOfFilter(f: Filter): (r: Option<int>)
    ensures r.Some? <==> f.ProjectView?
    ensures r.Some? ==> r.value == f.id
  {
    match f
    case ProjectView(id) => Some(id)
    case _ => None
  }

  /** The due date a new task gets: the one given, else today's instant when
      the Today view is selected, else none. */
  function DueOfNewTask(given: Option<Timestamp>, f: Filter, now: Timestamp): (r: Option<Timestamp>)
    ensures given.Some? ==> r == given
    ensures given.None? ==> (r.Some? <==> f == Today)
    ensures r.Some? && given.None? ==> r.value == now
  {
    if given.Some? then given else if f == Today then Some(now) else None
  }

  /** `add_task`: builds the task from the current view, stores it and
      reloads. */
  function AddTask(app: AppState, title: string, due: Option<Timestamp>, now: Timestamp): (r: AppState)
    requires Valid(app.db)
    ensures Valid(r.db)
    ensures var id := NextTaskId(app.db);
      Task(Some(id), title, None, Todo, DueOfNewTask(due, app.activeFilter, now),
           ProjectOfFilter(app.activeFilter), now) in r.tasks
    ensures r.db == CreateTask(app.db, NewTask(title, ProjectOfFilter(app.activeFilter), now)
                                  .(dueDate := DueOfNewTask(due, app.activeFilter, now))).0
    ensures r == Refresh(app.(db := r.db))
    ensures r.activeFilter == app.activeFilter && r.searchQuery == app.searchQuery
  {
    var t := NewTask(title, ProjectOfFilter(app.activeFilter), now).(dueDate := DueOfNewTask(due, app.activeFilter, now));
    var (db, id) := CreateTask(app.db, t);
    CreateThenGet(app.db, t);
    Refresh(app.(db := db))
  }

  /** The status a toggle moves to. */
  function Toggle(s: TaskStatus): (r: TaskStatus)
    ensures r != s
  {
    match s
    case Todo => Done
    case Done => Todo
  }

  /** Toggling twice is no change. */
  lemma ToggleInvolution(s: TaskStatus)
    ensures Toggle(Toggle(s)) == s
  {
  }

  /** `toggle_task`: stores the opposite of the status the caller saw, then
      reloads. */
  function ToggleTask(app: AppState, id: int, current: TaskStatus): (r: AppState)
    requires Valid(app.db)
    ensures Valid(r.db)
    ensures r.db == UpdateTaskStatus(app.db, id, Toggle(current))
    ensures r == Refresh(app.(db := r.db))
    ensures r.activeFilter == app.activeFilter && r.searchQuery == app.searchQuery
  {
    Refresh(app.(db := UpdateTaskStatus(app.db, id, Toggle(current))))
  }

  /** Toggling a task twice, each time from the status it shows, restores
      the stored task. */
  lemma ToggleTwice(app: AppState, i: nat)
    requires Valid(app.db) && i < |app.db.tasks|
    ensures var id := app.db.tasks[i].id;
      var s := StatusFromString(app.db.tasks[i].status);
      var r := ToggleTask(ToggleTask(app, id, s), id, Toggle(s));
      ToTask(r.db.tasks[i]) == ToTask(app.db.tasks[i])
  {
    var id := app.db.tasks[i].id;
    var s := StatusFromString(app.db.tasks[i].status);
    StatusRoundTrip(s);
    StatusRoundTrip(Toggle(s));
  }

  /** `delete_project`: moves its tasks to the inbox, removes it, and falls
      back to the inbox view if that project was selected. */
  function DeleteProject(app: AppState, pid: int): (r: AppState)
    requires Valid(app.db)
    ensures Valid(r.db)
    ensures r.db == GuiDb.DeleteProject(app.db, pid)
    ensures r.activeFilter == if app.activeFilter == ProjectView(pid) then Inbox else app.activeFilter
    ensures forall t :: t in r.tasks ==> t.projectId != Some(pid)
    ensures r == Refresh(app.(db := r.db, activeFilter := r.activeFilter))
  {
    var db := GuiDb.DeleteProject(app.db, pid);
    DeleteProjectMovesToInbox(app.db, pid);
    var f := if app.activeFilter == ProjectView(pid) then Inbox else app.activeFilter;
    Refresh(app.(db := db, activeFilter := f))
  }

  /** Whether a task belongs in the selected view.  `dayOf` gives the local
      calendar day of an instant and `today` is the current one. */
  predicate InView(f: Filter, t: Task, dayOf: Timestamp -> int, today: int) {
    match f
    case Inbox => t.projectId.None?
    case Today => t.dueDate.Some? && dayOf(t.dueDate.value) == today
    case Upcoming => t.dueDate.Some? && dayOf(t.dueDate.value) > today
    case ProjectView(pid) => t.projectId == Some(pid)
  }

  /** Whether a task's title matches the search: an empty query matches
      every title; otherwise the lower-cased title contains the lower-cased
      query. */
  predicate MatchesSearch(query: string, t: Task) {
    var q := ToLower(query);
    q == [] || Contains(ToLower(t.title), q)
  }

  /** `filtered_tasks`: the cached tasks that match the search and the
      view, in their cached order. */
  function FilteredTasks(app: AppState, dayOf: Timestamp -> int, today: int): (r: seq<Task>)
    ensures Sequences.IsSubsequence(r, app.tasks)
    ensures forall t :: t in r <==>
      t in app.tasks && MatchesSearch(app.searchQuery, t) && InView(app.activeFilter, t, dayOf, today)
  {
    Sequences.Filter(app.tasks, (t: Task) =>
      MatchesSearch(app.searchQuery, t) && InView(app.activeFilter, t, dayOf, today))
  }

  /** The inbox shows only tasks without a project; a project view only
      that project's tasks. */
  lemma FilteredByView(app: AppState, dayOf: Timestamp -> int, today: int)
    ensures app.activeFilter == Inbox ==>
      forall t :: t in FilteredTasks(app, dayOf, today) ==> t.projectId.None?
    ensures app.activeFilter.ProjectView? ==>
      forall t :: t in FilteredTasks(app, dayOf, today) ==> t.projectId == Some(app.activeFilter.id)
  {
  }

  /** An empty search hides nothing the view shows. */
  lemma EmptySearchHidesNothing(app: AppState, dayOf: Timestamp -> int, today: int)
    requires app.searchQuery == []
    ensures forall t :: t in app.tasks && InView(app.activeFilter, t, dayOf, today) ==>
      t in FilteredTasks(app, dayOf, today)
  {
  }

  /** The search ignores the case of ASCII letters in the query. */
  lemma SearchIgnoresQueryCase(app: AppState, dayOf: Timestamp -> int, today: int)
    ensures FilteredTasks(app.(searchQuery := ToLower(app.searchQuery)), dayOf, today)
      == FilteredTasks(app, dayOf, today)
  {
    ToLowerIdempotent(app.searchQuery);
    var a := app.(searchQuery := ToLower(app.searchQuery));
    assert forall t :: MatchesSearch(a.searchQuery, t) == MatchesSearch(app.searchQuery, t);
    FilterCongruent(app.tasks,
      (t: Task) => MatchesSearch(a.searchQuery, t) && InView(a.activeFilter, t, dayOf, today),
      (t: Task) => MatchesSearch(app.searchQuery, t) && InView(app.activeFilter, t, dayOf, today));
  }

  lemma {:induction false} FilterCongruent(s: seq<Task>, p: Task -> bool, q: Task -> bool)
    requires forall t :: p(t) == q(t)
    ensures Sequences.Filter(s, p) == Sequences.Filter(s, q)
    decreases |s|
  {
    if s != [] {
      FilterCongruent(s[1..], p, q);
    }
  }
}
