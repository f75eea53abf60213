/** The GUI front-end's records (`src/domain.rs`): a two-state task status
    with its text form, tasks and projects.  Instants are abstract numbers;
    the clock is a parameter. */
module GuiDomain {
  import opened Common

  type Timestamp = int

  datatype TaskStatus = Todo | Done

  /** `TaskStatus::default`. */
  function DefaultStatus(): (s: TaskStatus)
    ensures s == StatusFromString("")
  {
    Todo
  }

  /** `TaskStatus::to_string`, the text stored in the database. */
  function StatusToString(s: TaskStatus): (r: string)
    ensures r == "Done" <==> s == Done
  {
    match s
    case Todo => "Todo"
    case Done => "Done"
  }

  /** `TaskStatus::from`: exactly "Done" is Done; any other text, including
      "done" and "Todo", is Todo. */
  function StatusFromString(s: string): (r: TaskStatus)
    ensures r == Done <==> s == "Done"
  {
    if s == "Done" then Done else Todo
  }

  /** Reading back what was stored gives the stored status. */
  lemma StatusRoundTrip(s: TaskStatus)
    ensures StatusFromString(StatusToString(s)) == s
  {
  }

  /** The text form tells the two statuses apart. */
  lemma StatusToStringInjective(a: TaskStatus, b: TaskStatus)
    requires StatusToString(a) == StatusToString(b)
    ensures a == b
  {
  }

  /** The match is case-sensitive. */
  lemma StatusFromStringCaseSensitive()
    ensures StatusFromString("done") == Todo
    ensures StatusFromString("DONE") == Todo
    ensures StatusFromString("Todo") == Todo
  {
  }

  datatype Task = Task(
    id: Option<int>,
    title: string,
    description: Option<string>,
    status: TaskStatus,
    dueDate: Option<Timestamp>,
    projectId: Option<int>,
    createdAt: Timestamp)

  datatype Project = Project(id: Option<int>, name: string, createdAt: Timestamp)

  /** `Task::new`: an unsaved task, to do, without description or due date,
      created at `now`. */
  function NewTask(title: string, projectId: Option<int>, now: Timestamp): (t: Task)
    ensures t.id.None? && t.description.None? && t.dueDate.None?
    ensures t.status == DefaultStatus()
    ensures t.title == title && t.projectId == projectId && t.createdAt == now
  {
    Task(None, title, None, Todo, None, projectId, now)
  }

  /** `Project::new`: an unsaved project created at `now`. */
  function NewProject(name: string, now: Timestamp): (p: Project)
    ensures p.id.None? && p.name == name && p.createdAt == now
  {
    Project(None, name, now)
  }
}
