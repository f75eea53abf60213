/** The terminal front-end's task store (`src/storage/sqlite.rs`), modelled
    as tables held in memory: the `tasks` rows in insertion (rowid) order,
    the tag and dependency links of each task, and the history log.  The
    query assembly of `get_tasks` is modelled exactly; evaluating the WHERE
    clause against a row is the database's business and is a parameter. */
module SqliteStore {
  import opened Common
  import opened Strings
  import opened Sequences
  import opened Query

  /** A task's UUID. */
  type TaskId = nat

  /** An instant, compared chronologically. */
  type Timestamp = int

  datatype Status = Todo | Doing | Done | Archived

  /** The terminal front-end's task, with its tag names and the ids it
      depends on. */
  datatype Task = Task(
    id: TaskId,
    title: string,
    description: Option<string>,
    status: Status,
    priority: int,
    dueDate: Option<Timestamp>,
    createdAt: Timestamp,
    updatedAt: Timestamp,
    project: Option<string>,
    recurrenceRule: Option<string>,
    position: int,
    tags: set<string>,
    dependencies: set<TaskId>)

  /** One row of the `tasks` table: the task without its links. */
  datatype Row = Row(
    id: TaskId,
    title: string,
    description: Option<string>,
    status: Status,
    priority: int,
    dueDate: Option<Timestamp>,
    createdAt: Timestamp,
    updatedAt: Timestamp,
    project: Option<string>,
    recurrenceRule: Option<string>,
    position: int)

  /** One row of the `history` table; the snapshot is the task itself. */
  datatype HistoryEntry = HistoryEntry(id: nat, taskId: TaskId, snapshot: Task)

  /** `lastHistoryId` is the largest history id ever handed out, which
      AUTOINCREMENT never reuses. */
  datatype Store = Store(
    rows: seq<Row>,
    tagLinks: map<TaskId, set<string>>,
    depLinks: map<TaskId, set<TaskId>>,
    history: seq<HistoryEntry>,
    lastHistoryId: nat)

  function RowOf(t: Task): Row {
    Row(t.id, t.title, t.description, t.status, t.priority, t.dueDate,
        t.createdAt, t.updatedAt, t.project, t.recurrenceRule, t.position)
  }

  /** The table constraints: row ids are unique (the primary key), and
      history ids strictly increase and never exceed the last one issued. */
  ghost predicate Valid(st: Store) {
    && (forall i, j :: 0 <= i < j < |st.rows| ==> st.rows[i].id != st.rows[j].id)
    && (forall i, j :: 0 <= i < j < |st.history| ==> st.history[i].id < st.history[j].id)
    && (forall i :: 0 <= i < |st.history| ==> st.history[i].id <= st.lastHistoryId)
  }

  function EmptyStore(): (st: Store)
    ensures Valid(st)
  {
    Store([], map[], map[], [], 0)
  }

  /** The row with id `id`, if any. */
  function FindRow(rows: seq<Row>, id: TaskId): (r: Option<Row>)
    ensures r.Some? ==> r.value in rows && r.value.id == id
    ensures r.None? <==> forall i :: 0 <= i < |rows| ==> rows[i].id != id
  {
    if rows == [] then None
    else if rows[0].id == id then Some(rows[0])
    else
      var r := FindRow(rows[1..], id);
      assert forall i :: 1 <= i < |rows| ==> rows[i] == rows[1..][i - 1];
      r
  }

  /** The rows whose id is not `id`, in their order. */
  function RemoveRow(rows: seq<Row>, id: TaskId): (r: seq<Row>)
    ensures forall x :: x in r <==> x in rows && x.id != id
    ensures IsSubsequence(r, rows)
  {
    Sequences.Filter(rows, (x: Row) => x.id != id)
  }

  lemma {:induction false} FindRowRemoved(rows: seq<Row>, id: TaskId, other: TaskId)
    requires forall i, j :: 0 <= i < j < |rows| ==> rows[i].id != rows[j].id
    requires other != id
    ensures FindRow(RemoveRow(rows, id), other) == FindRow(rows, other)
    decreases |rows|
  {
    if rows != [] {
      var tail := RemoveRow(rows[1..], id);
      FindRowRemoved(rows[1..], id, other);
      if rows[0].id != id {
        assert RemoveRow(rows, id) == [rows[0]] + tail;
        assert ([rows[0]] + tail)[1..] == tail;
      } else {
        assert RemoveRow(rows, id) == tail;
        assert FindRow(rows, other) == FindRow(rows[1..], other);
      }
    }
  }

  lemma RemoveRowDistinct(rows: seq<Row>, id: TaskId)
    requires forall i, j :: 0 <= i < j < |rows| ==> rows[i].id != rows[j].id
    ensures forall i, j :: 0 <= i < j < |RemoveRow(rows, id)| ==>
      RemoveRow(rows, id)[i].id != RemoveRow(rows, id)[j].id
  {
    FilterKeepsPairs(rows, (x: Row) => x.id != id, (x: Row, y: Row) => x.id != y.id);
  }

  /* ---------------------------------------------------------------------- */
  /* save_task / delete_task                                                */

  /** `save_task`: INSERT OR REPLACE deletes the row with the task's id and
      inserts the new one after every other row; the task's tag and
      dependency links are then replaced by exactly its current sets.
      Foreign-key enforcement is assumed off, so the REPLACE cascades to no
      link of another task (see `DeleteTask`). */
  function SaveTask(st: Store, t: Task): (r: Store)
    requires Valid(st)
    ensures Valid(r)
    ensures FindRow(r.rows, t.id) == Some(RowOf(t))
    ensures forall id :: id != t.id ==> FindRow(r.rows, id) == FindRow(st.rows, id)
    ensures r.tagLinks == st.tagLinks[t.id := t.tags]
    ensures r.depLinks == st.depLinks[t.id := t.dependencies]
    ensures r.history == st.history && r.lastHistoryId == st.lastHistoryId
  {
    var kept := RemoveRow(st.rows, t.id);
    RemoveRowDistinct(st.rows, t.id);
    var rows := kept + [RowOf(t)];
    forall id | id != t.id ensures FindRow(rows, id) == FindRow(st.rows, id) {
      FindRowRemoved(st.rows, t.id, id);
      FindRowAppend(kept, RowOf(t), id);
    }
    FindRowAppend(kept, RowOf(t), t.id);
    Store(rows, st.tagLinks[t.id := t.tags], st.depLinks[t.id := t.dependencies],
          st.history, st.lastHistoryId)
  }

  /** Saving a task under an id not yet stored appends its row after all
      the others. */
  lemma SaveNewTask(st: Store, t: Task)
    requires Valid(st) && FindRow(st.rows, t.id).None?
    ensures SaveTask(st, t).rows == st.rows + [RowOf(t)]
  {
    Sequences.FilterAll(st.rows, (x: Row) => x.id != t.id);
  }

  lemma {:induction false} FindRowAppend(rows: seq<Row>, x: Row, id: TaskId)
    requires forall i :: 0 <= i < |rows| ==> rows[i].id != x.id
    ensures FindRow(rows + [x], id) == if id == x.id then Some(x) else FindRow(rows, id)
    decreases |rows|
  {
    if rows == [] {
      assert rows + [x] == [x];
    } else {
      assert (rows + [x])[1..] == rows[1..] + [x];
      FindRowAppend(rows[1..], x, id);
    }
  }

  /** `delete_task`: removes the row with that id and nothing else.  The
      links stay: foreign-key enforcement is assumed off.  The connection
      never enables it, but a SQLite built with foreign keys on by default
      would run the ON DELETE CASCADE of the link tables here. */
  function DeleteTask(st: Store, id: TaskId): (r: Store)
    requires Valid(st)
    ensures Valid(r)
    ensures FindRow(r.rows, id) == None
    ensures forall other :: other != id ==> FindRow(r.rows, other) == FindRow(st.rows, other)
    ensures r.tagLinks == st.tagLinks && r.depLinks == st.depLinks
    ensures r.history == st.history && r.lastHistoryId == st.lastHistoryId
  {
    RemoveRowDistinct(st.rows, id);
    forall other | other != id ensures FindRow(RemoveRow(st.rows, id), other) == FindRow(st.rows, other) {
      FindRowRemoved(st.rows, id, other);
    }
    st.(rows := RemoveRow(st.rows, id))
  }

  /* ---------------------------------------------------------------------- */
  /* get_tasks: query assembly                                              */

  /** The WHERE conditions and their bound values, in matching order. */
  datatype SqlQuery = SqlQuery(conditions: seq<string>, params: seq<string>)

  const SelectClause: string := "SELECT * FROM tasks"
  const OrderClause: string := " ORDER BY position ASC, created_at DESC"

  /** The statement text `get_tasks` prepares. */
  function SqlText(q: SqlQuery): string {
    SelectClause + WhereClause(q.conditions) + OrderClause
  }

  /** Empty without conditions; otherwise the conditions joined by AND. */
  function WhereClause(conditions: seq<string>): string {
    if conditions == [] then "" else " WHERE " + Join(conditions, " AND ")
  }

  /** The loop over the parsed filters, for a conversion `conv`: each
      filter's condition and value, in order; the first filter that fails
      aborts the whole query. */
  function Collect(fs: seq<Query.Filter>, conv: Query.Filter -> Result<(string, string)>): (r: Result<SqlQuery>)
    ensures r.Ok? <==> forall i :: 0 <= i < |fs| ==> conv(fs[i]).Ok?
    ensures r.Ok? ==> |r.value.conditions| == |fs| == |r.value.params|
    ensures r.Ok? ==> forall i :: 0 <= i < |fs| ==>
      (r.value.conditions[i], r.value.params[i]) == conv(fs[i]).value
    ensures r.Err? ==> exists i :: (0 <= i < |fs| && conv(fs[i]).Err?
      && r.error == conv(fs[i]).error
      && (forall j :: 0 <= j < i ==> conv(fs[j]).Ok?))
  {
    if fs == [] then Ok(SqlQuery([], []))
    else
      var head := conv(fs[0]);
      if head.Err? then Err(head.error)
      else
        var rest := Collect(fs[1..], conv);
        assert forall i :: 1 <= i < |fs| ==> fs[i] == fs[1..][i - 1];
        if rest.Err? then
          var k :| 0 <= k < |fs[1..]| && conv(fs[1..][k]).Err?
            && rest.error == conv(fs[1..][k]).error
            && (forall j :: 0 <= j < k ==> conv(fs[1..][j]).Ok?);
          assert rest.error == conv(fs[k + 1]).error;
          Err(rest.error)
        else
          var q := SqlQuery([head.value.0] + rest.value.conditions, [head.value.1] + rest.value.params);
          Ok(q)
  }

  /** The loop of `get_tasks` over the parsed filters: each one's condition
      and value, in order; the first filter that fails aborts the query. */
  function Conditions(fs: seq<Query.Filter>): (r: Result<SqlQuery>)
    ensures r.Ok? <==> forall i :: 0 <= i < |fs| ==> ToSqlCondition(fs[i]).Ok?
    ensures r.Ok? ==> |r.value.conditions| == |fs| == |r.value.params|
    ensures r.Ok? ==> forall i :: 0 <= i < |fs| ==>
      (r.value.conditions[i], r.value.params[i]) == ToSqlCondition(fs[i]).value
    ensures r.Err? ==> exists i :: (0 <= i < |fs| && ToSqlCondition(fs[i]).Err?
      && r.error == ToSqlCondition(fs[i]).error
      && (forall j :: 0 <= j < i ==> ToSqlCondition(fs[j]).Ok?))
  {
    Collect(fs, ToSqlCondition)
  }

  /** The `get_tasks` query for an optional filter string.  No WHERE clause
      is added for no filter, a blank one, or one that yields no filters. */
  function BuildQuery(filter: Option<string>): (r: Result<SqlQuery>)
    ensures filter.None? ==> r == Ok(SqlQuery([], []))
    ensures filter.Some? && IsBlank(filter.value) ==> r == Ok(SqlQuery([], []))
    ensures filter.Some? && Parse(filter.value).value == [] ==> r == Ok(SqlQuery([], []))
    ensures filter.Some? && !IsBlank(filter.value) ==> r == Conditions(Parse(filter.value).value)
  {
    match filter
    case None => Ok(SqlQuery([], []))
    case Some(s) =>
      TrimEmptyIffBlank(s);
      if Trim(s) == [] then Ok(SqlQuery([], []))
      else
        Conditions(Parse(s).value)
  }

  lemma NoPlaceholder(s: string)
    requires '?' !in s
    ensures Count(s, '?') == 0
  {
  }

  lemma ConditionPlaceholder(f: Query.Filter)
    requires ToSqlCondition(f).Ok?
    ensures Count(ToSqlCondition(f).value.0, '?') == 1
  {
    var col := ColumnOf(f.field).value;
    assert '?' !in col by {
      ColumnNoPlaceholder(f.field);
    }
    assert '?' !in ToSql(f.op);
    CountAppend(col + " " + ToSql(f.op), " ?", '?');
    CountAppend(col + " ", ToSql(f.op), '?');
    CountAppend(col, " ", '?');
  }

  lemma ColumnNoPlaceholder(field: string)
    requires ColumnOf(field).Ok?
    ensures '?' !in ColumnOf(field).value
  {
  }

  lemma SelectHasNoPlaceholder()
    ensures '?' !in SelectClause
  {
  }

  lemma OrderHasNoPlaceholder()
    ensures '?' !in OrderClause
  {
  }

  lemma WhereHasNoPlaceholder()
    ensures '?' !in " WHERE "
  {
  }

  lemma AndHasNoPlaceholder()
    ensures '?' !in " AND "
  {
  }

  lemma {:induction false} WherePlaceholders(conditions: seq<string>)
    requires forall i :: 0 <= i < |conditions| ==> Count(conditions[i], '?') == 1
    ensures Count(WhereClause(conditions), '?') == |conditions|
  {
    if conditions != [] {
      AndHasNoPlaceholder();
      CountJoin(conditions, " AND ", '?');
      WhereHasNoPlaceholder();
      CountAround(" WHERE ", Join(conditions, " AND "), "");
      assert " WHERE " + Join(conditions, " AND ") + "" == WhereClause(conditions);
    }
  }

  /** The statement text has one `?` per condition when each condition
      has one. */
  lemma {:induction false} SqlTextPlaceholders(q: SqlQuery)
    requires forall i :: 0 <= i < |q.conditions| ==> Count(q.conditions[i], '?') == 1
    ensures Count(SqlText(q), '?') == |q.conditions|
  {
    SelectHasNoPlaceholder();
    OrderHasNoPlaceholder();
    WherePlaceholders(q.conditions);
    CountAround(SelectClause, WhereClause(q.conditions), OrderClause);
  }

  lemma CountAround(a: string, b: string, c: string)
    requires '?' !in a && '?' !in c
    ensures Count(a + b + c, '?') == Count(b, '?')
  {
    NoPlaceholder(a);
    NoPlaceholder(c);
    CountAppend(a, b, '?');
    CountAppend(a + b, c, '?');
  }

  /** Every `?` of the statement has exactly one bound value: the statement
      holds as many placeholders as there are parameters. */
  lemma PlaceholdersMatchParams(filter: Option<string>)
    requires BuildQuery(filter).Ok?
    ensures Count(SqlText(BuildQuery(filter).value), '?') == |BuildQuery(filter).value.params|
  {
    var q := BuildQuery(filter).value;
    if q.conditions != [] {
      var fs := Parse(filter.value).value;
      assert Conditions(fs) == Ok(q);
      forall i | 0 <= i < |q.conditions| ensures Count(q.conditions[i], '?') == 1 {
        ConditionPlaceholder(fs[i]);
      }
    } else if filter.Some? && !IsBlank(filter.value) {
      assert |q.params| == |Parse(filter.value).value| == 0;
    }
    SqlTextPlaceholders(q);
  }

  /* ---------------------------------------------------------------------- */
  /* get_tasks: result                                                      */

  /** `ORDER BY position ASC, created_at DESC`. */
  function RowLe(a: Row, b: Row): bool {
    a.position < b.position || (a.position == b.position && a.createdAt >= b.createdAt)
  }

  lemma RowLeTotalPreorder()
    ensures TotalPreorder(RowLe)
  {
  }

  function LinksOf<K, V>(links: map<K, set<V>>, k: K): set<V> {
    if k in links then links[k] else {}
  }

  /** A row with its tag and dependency links read back. */
  function Hydrate(st: Store, row: Row): (t: Task)
    ensures RowOf(t) == row
    ensures t.tags == LinksOf(st.tagLinks, row.id)
    ensures t.dependencies == LinksOf(st.depLinks, row.id)
  {
    Task(row.id, row.title, row.description, row.status, row.priority, row.dueDate,
         row.createdAt, row.updatedAt, row.project, row.recurrenceRule, row.position,
         LinksOf(st.tagLinks, row.id), LinksOf(st.depLinks, row.id))
  }

  function HydrateAll(st: Store, rows: seq<Row>): (r: seq<Task>)
    ensures |r| == |rows|
    ensures forall i :: 0 <= i < |rows| ==> r[i] == Hydrate(st, rows[i])
  {
    if rows == [] then [] else [Hydrate(st, rows[0])] + HydrateAll(st, rows[1..])
  }

  /** `get_tasks`.  `eval(conditions, params, row)` is the database's verdict
      on whether `row` satisfies the WHERE clause; rows are then ordered by
      position ascending and creation time descending, rows that tie keeping
      their table order. */
  function GetTasks(st: Store, filter: Option<string>,
                    eval: (seq<string>, seq<string>, Row) -> bool): (r: Result<seq<Task>>)
    ensures r.Ok? <==> BuildQuery(filter).Ok?
    ensures r.Err? ==> r.error == BuildQuery(filter).error
  {
    var q :- BuildQuery(filter);
    var selected := if q.conditions == [] then st.rows
      else Sequences.Filter(st.rows, (row: Row) => eval(q.conditions, q.params, row));
    Ok(HydrateAll(st, Sort(selected, RowLe)))
  }

  /** The rows `get_tasks` selects, before ordering. */
  function Selected(st: Store, q: SqlQuery, eval: (seq<string>, seq<string>, Row) -> bool): seq<Row> {
    if q.conditions == [] then st.rows
    else Sequences.Filter(st.rows, (row: Row) => eval(q.conditions, q.params, row))
  }

  /** The result is the selected rows, each with its links, in order. */
  lemma GetTasksResult(st: Store, filter: Option<string>,
                       eval: (seq<string>, seq<string>, Row) -> bool)
    requires BuildQuery(filter).Ok?
    ensures var rows := Sort(Selected(st, BuildQuery(filter).value, eval), RowLe);
      && Sorted(rows, RowLe)
      && multiset(rows) == multiset(Selected(st, BuildQuery(filter).value, eval))
      && GetTasks(st, filter, eval) == Ok(HydrateAll(st, rows))
  {
    RowLeTotalPreorder();
    SortSorted(Selected(st, BuildQuery(filter).value, eval), RowLe);
  }

  /** Results come ordered by position, then newest first. */
  lemma GetTasksOrdered(st: Store, filter: Option<string>,
                        eval: (seq<string>, seq<string>, Row) -> bool, i: nat, j: nat)
    requires GetTasks(st, filter, eval).Ok?
    requires i < j < |GetTasks(st, filter, eval).value|
    ensures var ts := GetTasks(st, filter, eval).value;
      ts[i].position < ts[j].position
      || (ts[i].position == ts[j].position && ts[i].createdAt >= ts[j].createdAt)
  {
    GetTasksResult(st, filter, eval);
    var rows := Sort(Selected(st, BuildQuery(filter).value, eval), RowLe);
    assert RowLe(rows[i], rows[j]);
  }

  /** `get_tasks(None)`: every row, ordered, with its links. */
  function AllTasks(st: Store): (r: seq<Task>)
    ensures |r| == |st.rows|
    ensures forall row :: row in st.rows ==> Hydrate(st, row) in r
    ensures forall t :: t in r ==> RowOf(t) in st.rows
  {
    var rows := Sort(st.rows, RowLe);
    assert forall row :: row in st.rows <==> row in multiset(rows);
    HydrateAll(st, rows)
  }

  /** Two tasks with different ids, the second at a later position, saved
      into an empty store read back in the order they were saved. */
  lemma SaveTwoInOrder(t1: Task, t2: Task)
    requires t1.id != t2.id && t1.position < t2.position
    ensures AllTasks(SaveTask(SaveTask(EmptyStore(), t1), t2)) == [t1, t2]
  {
    var st1 := SaveTask(EmptyStore(), t1);
    SaveNewTask(EmptyStore(), t1);
    assert st1.rows == [RowOf(t1)];
    assert FindRow(st1.rows, t2.id).None?;
    var st2 := SaveTask(st1, t2);
    SaveNewTask(st1, t2);
    assert st2.rows == [RowOf(t1)] + [RowOf(t2)];
    assert Sort([RowOf(t1)], RowLe) == [RowOf(t1)];
    SortAppendGreatest([RowOf(t1)], RowOf(t2), RowLe);
    assert Hydrate(st2, RowOf(t1)) == t1;
    assert Hydrate(st2, RowOf(t2)) == t2;
  }

  lemma GetTasksUnfiltered(st: Store, eval: (seq<string>, seq<string>, Row) -> bool)
    ensures GetTasks(st, None, eval) == Ok(AllTasks(st))
  {
  }

  /** A saved task comes back, links included, from an unfiltered read. */
  lemma SaveThenGet(st: Store, t: Task, eval: (seq<string>, seq<string>, Row) -> bool)
    requires Valid(st)
    ensures GetTasks(SaveTask(st, t), None, eval).Ok?
    ensures t in GetTasks(SaveTask(st, t), None, eval).value
  {
    var st' := SaveTask(st, t);
    GetTasksResult(st', None, eval);
    var rows := Sort(st'.rows, RowLe);
    assert RowOf(t) in st'.rows;
    assert RowOf(t) in multiset(rows);
    var k :| 0 <= k < |rows| && rows[k] == RowOf(t);
    assert HydrateAll(st', rows)[k] == Hydrate(st', RowOf(t));
    assert Hydrate(st', RowOf(t)) == t;
  }

  /** Every task a read returns is a stored row, with its links. */
  lemma GetTasksStored(st: Store, filter: Option<string>,
                       eval: (seq<string>, seq<string>, Row) -> bool)
    requires GetTasks(st, filter, eval).Ok?
    ensures forall t :: t in GetTasks(st, filter, eval).value ==> RowOf(t) in st.rows
  {
    GetTasksResult(st, filter, eval);
    var sel := Selected(st, BuildQuery(filter).value, eval);
    var rows := Sort(sel, RowLe);
    forall t | t in GetTasks(st, filter, eval).value ensures RowOf(t) in st.rows {
      var k :| 0 <= k < |rows| && HydrateAll(st, rows)[k] == t;
      assert rows[k] in multiset(sel);
    }
  }

  /** A deleted task is gone from every read. */
  lemma DeleteThenGet(st: Store, id: TaskId, filter: Option<string>,
                      eval: (seq<string>, seq<string>, Row) -> bool)
    requires Valid(st)
    requires GetTasks(DeleteTask(st, id), filter, eval).Ok?
    ensures forall t :: t in GetTasks(DeleteTask(st, id), filter, eval).value ==> t.id != id
  {
    var st' := DeleteTask(st, id);
    GetTasksStored(st', filter, eval);
    forall t | t in GetTasks(st', filter, eval).value ensures t.id != id {
      var k :| 0 <= k < |st'.rows| && st'.rows[k] == RowOf(t);
    }
  }

  /* ---------------------------------------------------------------------- */
  /* History                                                                */

  /** `push_history`: appends the snapshot under a fresh id, larger than any
      issued before. */
  function PushHistory(st: Store, t: Task): (r: Store)
    requires Valid(st)
    ensures Valid(r)
    ensures r.history == st.history + [HistoryEntry(st.lastHistoryId + 1, t.id, t)]
    ensures r.rows == st.rows && r.tagLinks == st.tagLinks && r.depLinks == st.depLinks
  {
    var e := HistoryEntry(st.lastHistoryId + 1, t.id, t);
    st.(history := st.history + [e], lastHistoryId := st.lastHistoryId + 1)
  }

  /** `get_latest_history`: the entry with the largest id, or none. */
  function LatestHistory(st: Store): (r: Option<(nat, Task)>)
    requires Valid(st)
    ensures r.None? <==> st.history == []
    ensures r.Some? ==> exists i :: (0 <= i < |st.history|
      && st.history[i].id == r.value.0 && st.history[i].snapshot == r.value.1)
    ensures r.Some? ==> forall i :: 0 <= i < |st.history| ==> st.history[i].id <= r.value.0
  {
    if st.history == [] then None
    else
      var e := st.history[|st.history| - 1];
      Some((e.id, e.snapshot))
  }

  /** `delete_history_entry`: removes exactly the entries with that id. */
  function DeleteHistoryEntry(st: Store, id: nat): (r: Store)
    requires Valid(st)
    ensures Valid(r)
    ensures forall e :: e in r.history <==> e in st.history && e.id != id
    ensures r.rows == st.rows && r.tagLinks == st.tagLinks && r.depLinks == st.depLinks
    ensures r.lastHistoryId == st.lastHistoryId
  {
    var h := RemoveEntries(st.history, id);
    RemoveEntriesIncreasing(st.history, id);
    forall i | 0 <= i < |h| ensures h[i].id <= st.lastHistoryId {
      var k :| 0 <= k < |st.history| && st.history[k] == h[i];
    }
    st.(history := h)
  }

  /** The entries whose id is not `id`, in their order. */
  function RemoveEntries(h: seq<HistoryEntry>, id: nat): (r: seq<HistoryEntry>)
    ensures forall e :: e in r <==> e in h && e.id != id
  {
    Sequences.Filter(h, (e: HistoryEntry) => e.id != id)
  }

  lemma RemoveEntriesIncreasing(h: seq<HistoryEntry>, id: nat)
    requires forall i, j :: 0 <= i < j < |h| ==> h[i].id < h[j].id
    ensures forall i, j :: 0 <= i < j < |RemoveEntries(h, id)| ==>
      RemoveEntries(h, id)[i].id < RemoveEntries(h, id)[j].id
  {
    FilterKeepsPairs(h, (e: HistoryEntry) => e.id != id, (x: HistoryEntry, y: HistoryEntry) => x.id < y.id);
  }

  /** The log is last-in, first-out: the latest entry after a push is the
      pushed snapshot, and deleting it restores the log. */
  lemma HistoryLifo(st: Store, t: Task)
    requires Valid(st)
    ensures LatestHistory(PushHistory(st, t)) == Some((st.lastHistoryId + 1, t))
    ensures DeleteHistoryEntry(PushHistory(st, t), st.lastHistoryId + 1).history == st.history
  {
    var st' := PushHistory(st, t);
    var id := st.lastHistoryId + 1;
    RemoveEntriesAllKept(st.history, id);
    var e := HistoryEntry(id, t.id, t);
    RemoveEntriesLastDropped(st.history, e, id);
  }

  lemma {:induction false} RemoveEntriesAllKept(h: seq<HistoryEntry>, id: nat)
    requires forall i :: 0 <= i < |h| ==> h[i].id != id
    ensures RemoveEntries(h, id) == h
    decreases |h|
  {
    if h != [] {
      RemoveEntriesAllKept(h[1..], id);
      assert [h[0]] + h[1..] == h;
    }
  }

  lemma {:induction false} RemoveEntriesLastDropped(h: seq<HistoryEntry>, x: HistoryEntry, id: nat)
    requires x.id == id
    ensures RemoveEntries(h + [x], id) == RemoveEntries(h, id)
    decreases |h|
  {
    if h == [] {
      assert [x][1..] == [];
      assert h + [x] == [x];
    } else {
      assert (h + [x])[0] == h[0];
      assert (h + [x])[1..] == h[1..] + [x];
      RemoveEntriesLastDropped(h[1..], x, id);
    }
  }
}
