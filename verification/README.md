# taskvim core, modelled in Dafny

taskvim is a task manager with two front-ends over overlapping task logic.

- The **terminal front-end** is modal, in the style of vim. Its model has six parts:
  - the filter query compiler (`field<op>value` tokens become SQL conditions with bound values);
  - key notation parsing and per-mode keymaps;
  - the action vocabulary;
  - the key-dispatch state machine, with its `g`/`z` prefixes and buffer editing;
  - the cursor and selection state;
  - the SQLite task store, including its undo history log.

  The configuration that a Lua script edits through `set.*` and `map(...)` is modelled too.
- The **GUI front-end** has three parts in the model:
  - a task/project domain with a status text round-trip;
  - a relational store of tasks and projects;
  - a view state with sidebar filter, search, status toggle and project deletion.

Everything is modelled as immutable datatypes and pure functions. Stores are sequences of rows plus maps of links. The dispatcher is a step function from a state and a key event to a new state. Handler calls whose bodies are outside the model are passed in as a function parameter.

Files, one module each: `common.dfy` (Option, Result, errors), `strings.dfy`, `sequences.dfy` (stable insertion sort, filter, subsequence), `actions.dfy`, `modes.dfy`, `keymaps.dfy`, `query.dfy`, `sqlite_store.dfy`, `lua_config.dfy`, `tui_state.dfy`, `tui.dfy`, `gui_domain.dfy`, `gui_db.dfy`, `gui_state.dfy`.

Some points where the model follows the code rather than its apparent intent:

- The default Normal table binds `"G"` and `"O"`. Key parsing lower-cases one-letter names, so these overwrite the bindings of `g` and `o`. Plain `g` therefore means MoveToBottom and plain `o` means EnterInsertAbove (`Keymaps.DefaultNormalOverrides`). As a result the `gg`, `gt` and `gT` prefixes of the dispatcher can never be reached in Normal mode with the default keymap (`Tui.DefaultKeymapG`); in Visual mode `gg` still works.
- `Mode` in `src/core/state.rs` has no `Stats` variant, but the keymap and the dispatcher use one. The model's `Mode` is the union of the two.
- `src/core/state.rs` calls `get_tasks()` with no argument, while `src/storage/sqlite.rs` takes an optional filter. The terminal state reads with no filter (`None`).

## Model

| member | source | states |
|---|---|---|
| Actions.ParseAction | src/core/actions.rs:35-63 | exactly the listed identifiers are accepted (case-sensitive); everything else is rejected |
| Actions.ParseName | src/core/actions.rs:4-30 | every one of the 25 actions is produced by some identifier |
| Actions.ParseInjectiveExceptAliases | src/core/actions.rs:36-61 | two different identifiers give the same action only if they are one of the three alias pairs |
| Actions.ParseNameOrAlias | src/core/actions.rs:36-61 | an accepted identifier is its action's primary name or the alias of that name |
| Actions.ParsePrimary | src/core/actions.rs:36-61 | an accepted identifier that is not a secondary alias is its action's primary name |
| Actions.AliasesAgree | src/core/actions.rs:44-50 | delete/delete_task, insert_below/add_below and insert_above/add_above each name one action |
| Actions.ParseIsCaseSensitive | src/core/actions.rs:35-63 | "Quit" and "DELETE" are rejected |
| Query.FromStrToSql | src/domain/query.rs:15-38 | `from_str` reads back every operator `to_sql` writes except Contains, whose `LIKE` is rejected |
| Query.FromStrSymbol | src/domain/query.rs:27-38 | `from_str` accepts exactly the symbol the parser searches for, one per operator |
| Query.DetectOperator | src/domain/query.rs:56-72 | the chosen operator occurs in the token, and no operator earlier in the precedence order occurs; none is chosen iff no operator occurs |
| Query.DetectOperatorUnique | src/domain/query.rs:56-72 | the precedence rule determines the operator uniquely |
| Query.DetectGteFirst | src/domain/query.rs:56-64 | `a>=b` is Gte even though `>` and `=` also occur in it |
| Query.ParseToken | src/domain/query.rs:55-86 | field + symbol + value rebuilds the token; the field contains no occurrence of the symbol (so the split is at the first occurrence); a token without an operator is skipped |
| Query.SplitToken | src/domain/query.rs:74-80 | the split at the first occurrence always yields two parts that rebuild the token |
| Query.FieldBeforeFirst | src/domain/query.rs:74-80 | the text before the first occurrence of the symbol does not contain it |
| Query.ParseTokenUnique | src/domain/query.rs:74-80 | any decomposition whose field has no occurrence of the symbol is the parse |
| Query.ParseTokenAt | src/domain/query.rs:74-80 | a field that lacks the symbol's first character is split off exactly |
| Query.TokenFilters | src/domain/query.rs:55-86 | a token contributes at most one filter |
| Query.ParseTokens | src/domain/query.rs:55-89 | parsing never yields more filters than tokens |
| Query.ParseTokensAppend | src/domain/query.rs:55-89 | parsing is token by token: filters of a concatenation are the filters of each part, in order |
| Query.ParseTokensFrom | src/domain/query.rs:55-89 | every filter comes from an input token that parses to it |
| Query.Parse | src/domain/query.rs:49-90 | parse never fails, yields at most one filter per whitespace token, and nothing for blank input |
| Query.ColumnOf | src/domain/query.rs:93-101 | exactly status, priority, project, due and created map to a column, namely status, priority, project, due_date and created_at; tag and all else are Validation errors |
| Query.ColumnOfInjective | src/domain/query.rs:93-98 | different field names map to different columns |
| Query.ToSqlCondition | src/domain/query.rs:92-110 | succeeds iff the field is known; the condition is the field's column, a space, the operator's SQL and ` ?`; the bound value is `%v%` for Contains and `v` otherwise |
| Query.ConditionWords | src/domain/query.rs:109 | the condition's words are exactly the column, the operator's SQL and `?` |
| Query.ConditionErrors | src/domain/query.rs:99-100 | the tag and unknown-field errors carry the source's messages |
| Query.ParseEqToken | src/domain/query.rs:62-80 | a token with one `=` and no `<`, `>` or `!` is an equality of the text around it |
| Query.ParseGteToken | src/domain/query.rs:56-80 | `field>=value` with no `>` in the field parses as Gte |
| Query.ParseTwoTokens | src/domain/query.rs:55-89 | a two-token query yields the first token's filters followed by the second's |
| Query.ParseExample | src/domain/tests.rs:6-19 | `status=todo priority>=3` parses to exactly `[status Eq todo, priority Gte 3]` |
| Query.ParseSplitsAtFirst | src/domain/query.rs:74-80 | `a=b=c` has field `a` and value `b=c` |
| Query.ParseSkipsBareWord | src/domain/query.rs:70-71 | a token with no operator characters contributes nothing |
| Query.ConditionExample | src/domain/tests.rs:22-31 | priority Gt "2" gives `("priority > ?", "2")`; Contains wraps the value in `%` |
| Keymaps.ParseKeyCode | src/core/keymap.rs:46-58 | named keys match case-insensitively; a one-character ASCII name is that character lower-cased (so " " is the space character); all else is rejected |
| Keymaps.ModifiersOf | src/core/keymap.rs:31-44 | a modifier is present iff some word names it (ctrl/c, alt/a, shift/s, any case); other words add nothing |
| Keymaps.ParseCombination | src/core/keymap.rs:20-61 | a parsed combination has only ctrl/alt/shift and a lower-case character or named key |
| Keymaps.FromParts | src/core/keymap.rs:28-60 | the last dash-separated part names the key and the others the modifiers |
| Keymaps.ParseIgnoresCase | src/core/keymap.rs:20-58 | parsing a notation gives the same as parsing its lower-cased form, so "G" and "g" agree |
| Keymaps.UnknownModifierIgnored | src/core/keymap.rs:34-38 | an unrecognised modifier word in front changes nothing |
| Keymaps.ParseAgrees | src/core/keymap.rs:28-60 | notations with the same last part and the same prefix modifiers parse the same |
| Keymaps.ModifiersOfLower | src/core/keymap.rs:34 | modifier words are recognised independently of case |
| Keymaps.ParseKeyCodeLower | src/core/keymap.rs:46 | key names are recognised independently of case |
| Keymaps.ModifiersOfWords | src/core/keymap.rs:34-38 | the canonical words of a modifier set name exactly that set |
| Keymaps.ParseNotation | src/core/keymap.rs:20-61 | every expressible combination's canonical notation parses back to it |
| Keymaps.ParseKeyName | src/core/keymap.rs:46-58 | every key's canonical name parses back to that key |
| Keymaps.ParseChar | src/core/keymap.rs:46-58 | a lower-case ASCII character other than dash or space parses to itself with no modifiers |
| Keymaps.ParseCtrl | src/core/keymap.rs:28-58 | `ctrl-c` parses to c with Control |
| Keymaps.DefaultNamedNotations | src/core/keymap.rs:21-26 | "-" is the minus key with no modifiers; "enter" and "esc" are the named keys |
| Keymaps.DefaultCharNotations | src/core/keymap.rs:81-102 | each one-letter default notation parses to that plain character |
| Keymaps.DefaultUpperNotations | src/core/keymap.rs:84-89 | "G" and "O" parse to plain 'g' and plain 'o' |
| Keymaps.DefaultCtrlNotations | src/core/keymap.rs:85-98 | ctrl-d, ctrl-u and ctrl-r parse to the character with Control |
| Keymaps.Lookup | src/core/keymap.rs:137-139 | found iff the mode has a table holding the exact combination; the result is that entry |
| Keymaps.Bind | src/config/lua.rs:89 | binds the combination in the mode (creating its table) and changes no other lookup |
| Keymaps.DefaultModes | src/core/keymap.rs:80-134 | only Normal, Visual and Stats get tables |
| Keymaps.InsertParsed | src/core/keymap.rs:104-108 | the insert loop completes iff every notation parses, and keeps every key already bound |
| Keymaps.InsertParsedAppend | src/core/keymap.rs:104-108 | inserting two lists of bindings is inserting the first, then the second |
| Keymaps.NormalBindingsParse | src/core/keymap.rs:80-108 | parsing and inserting the 20 listed (notation, action) pairs in order gives the Normal table |
| Keymaps.VisualBindingsParse | src/core/keymap.rs:110-122 | parsing and inserting the 4 listed pairs gives the Visual table |
| Keymaps.StatsBindingsParse | src/core/keymap.rs:124-134 | parsing and inserting the 2 listed pairs gives the Stats table |
| Keymaps.DefaultLookup | src/core/keymap.rs:137-139 | Insert, Command and Filter resolve nothing under the defaults |
| Keymaps.DefaultNormalOverrides | src/core/keymap.rs:84-107 | later inserts win: plain g is MoveToBottom and plain o is EnterInsertAbove |
| Keymaps.DefaultUpperUnbound | src/core/keymap.rs:84 | neither Shift+G nor plain 'G' is bound in Normal mode |
| Keymaps.DefaultNormalExact | src/core/keymap.rs:85-90 | lookup is exact: ctrl-d is PageDown, plain d is Delete, alt-d is unbound |
| Keymaps.DefaultNormalNamed | src/core/keymap.rs:94-101 | enter cycles status, `-` lowers priority, ctrl-r redoes, q quits |
| Keymaps.DefaultNormalUnbound | src/core/keymap.rs:81-102 | t, z and Esc are not bound in Normal mode |
| Keymaps.DefaultVisual | src/core/keymap.rs:110-122 | j, k, d and esc give MoveDown, MoveUp, Delete and Cancel; g is unbound |
| Keymaps.DefaultStats | src/core/keymap.rs:124-134 | q and esc give Cancel; j is unbound |
| Keymaps.GetActionIgnoresKind | src/core/keymap.rs:13-18 | only the code and the modifiers of an event matter |
| LuaConfig.DefaultConfig | src/config/lua.rs:17-26 | theme "default", priority 3, sidebar shown, keymap resolving like the built-in one |
| LuaConfig.SetTheme | src/config/lua.rs:53-58 | sets the theme and nothing else |
| LuaConfig.SetDefaultPriority | src/config/lua.rs:60-65 | sets the priority and nothing else |
| LuaConfig.SetSidebar | src/config/lua.rs:67-72 | sets the sidebar flag and nothing else |
| LuaConfig.SettersLastWins | src/config/lua.rs:53-72 | a second call to the same setter wins; setters of different fields commute |
| LuaConfig.ModeOf | src/config/lua.rs:79-84 | exactly the six mode names are recognised, each naming Normal, Visual or Stats |
| LuaConfig.Map | src/config/lua.rs:78-93 | an unknown mode, key or action leaves the config unchanged; otherwise exactly the (mode, combo) entry is overwritten |
| LuaConfig.MapIdempotent | src/config/lua.rs:88-89 | repeating a `map` call changes nothing |
| LuaConfig.MapLastWins | src/config/lua.rs:88-89 | of two valid calls on the same key and mode, the later one decides |
| LuaConfig.MapModeAliases | src/config/lua.rs:80-82 | short and long mode names have the same effect |
| LuaConfig.MapNeverBindsTextModes | src/config/lua.rs:79-84 | no `map` call changes lookups in Insert, Command or Filter |
| LuaConfig.MapBinds | src/config/lua.rs:86-91 | a fully valid call makes the key resolve to the action and leaves the mode's other keys alone |
| LuaConfig.MapExample | src/config/lua.rs:78-93 | `map("n","ctrl-d","quit")` makes ctrl-d quit and leaves plain d deleting |
| LuaConfig.MapIgnoresExample | src/config/lua.rs:83-91 | an unknown action or mode leaves the defaults as they were |
| TuiState.New | src/core/state.rs:24-34 | all stored tasks, cursor 0, Normal mode, empty buffer, running |
| TuiState.Reload | src/core/state.rs:36-42 | re-reads the tasks; the cursor moves to the last task only when it is past the end of a non-empty list |
| TuiState.ReloadIdempotent | src/core/state.rs:36-42 | a second reload with the same store changes nothing |
| TuiState.AddTask | src/core/state.rs:44-49 | the store is the old one with the task saved, and the list is re-read from it as `reload_tasks` does; the saved task appears in the list with the cursor in range |
| TuiState.AddTwoTasks | src/core/tests.rs:8-17 | two tasks with different ids added to an empty store give a list of two |
| SqliteStore.SaveTwoInOrder | src/storage/sqlite.rs:87-100 | two tasks with different ids, the second at a later position, saved into an empty store read back as exactly those two tasks, in saving order |
| TuiState.AddTwoTasksInOrder | src/core/tests.rs:14-19 | two tasks with different ids, the second at a later position, added to an empty store come back as exactly those two tasks in the order they were added |
| TuiState.DeleteSelected | src/core/state.rs:51-57 | an out-of-range cursor is a no-op; otherwise exactly the selected id is deleted, the list is re-read from the store as `reload_tasks` does, and no task with that id remains |
| TuiState.MoveUp | src/core/state.rs:59-63 | decrements by one exactly when the cursor is above 0 |
| TuiState.MoveDown | src/core/state.rs:65-69 | increments by one exactly when a task lies below the cursor |
| TuiState.MovesKeepCursorInRange | src/core/state.rs:59-69 | both moves keep the cursor on a task |
| TuiState.MovesInverse | src/core/state.rs:59-69 | away from the ends, up and down undo each other |
| TuiState.MoveDownTimesIndex | src/core/state.rs:65-69 | n moves down from the top reach row min(n, len-1) |
| Tui.Step | src/ui/tui.rs:36-127 | a resolved key runs only its action: the step fails with the action's error, or keeps the action's state with pending_g cleared unless the key is g |
| Tui.ResolvedKey | src/ui/tui.rs:38-44 | a resolved key runs its action with no fallback; pending_g is cleared unless the key is g; pending_z is as the action left it |
| Tui.ResolvedKeyFails | src/ui/tui.rs:38-39 | a failing action aborts the step with its error |
| Tui.DoubleG | src/ui/tui.rs:49-85 | in Normal or Visual mode the first unresolved g arms the prefix and the second jumps to the top, clearing it; neither step can fail, since `move_to_top` returns no `Result` |
| Tui.DefaultKeymapG | src/core/keymap.rs:84-107 | with the defaults, g resolves in Normal mode (so it never reaches the prefix logic) but not in Visual mode |
| Tui.ProjectKeys | src/ui/tui.rs:57-64 | t/T after g switch project and clear pending_g; without the prefix they clear both flags |
| Tui.ZPrefix | src/ui/tui.rs:65-71 | z arms pending_z; a then toggles collapse and clears it |
| Tui.OtherKeyClears | src/ui/tui.rs:72-75 | any other unresolved key clears both flags in Normal mode and pending_g in Visual mode |
| Tui.IgnoredModes | src/ui/tui.rs:125 | Stats and Filter ignore unresolved keys |
| Tui.TypeThenErase | src/ui/tui.rs:105-108 | typing a character and erasing it restores the state |
| Tui.EraseEmpty | src/ui/tui.rs:106-108 | backspace on an empty buffer changes nothing |
| Tui.InsertEnter | src/ui/tui.rs:93-104 | Enter on an empty buffer changes nothing; otherwise it dispatches on the insert action, then clears the buffer and returns to Normal |
| Tui.Escape | src/ui/tui.rs:89-92 | Esc returns to Normal and keeps the buffer; in Insert mode it also clears the edited task |
| Tui.CommandEnter | src/ui/tui.rs:113-118 | Enter executes the buffer, even when empty, then clears it and returns to Normal |
| Tui.InsertEvent | src/ui/tui.rs:95-100 | Edit commits the edit; every other insert action adds a task titled with the buffer |
| Tui.DropLast | src/ui/tui.rs:107 | removes the last character, or nothing from an empty buffer |
| Tui.RunAppend | src/ui/tui.rs:32-36 | running two key batches is running their concatenation |
| Tui.TypeText | src/ui/tui.rs:105 | with no Insert table, typing text in Insert mode appends exactly that text |
| Tui.RunStep | src/ui/tui.rs:32-36 | the loop is one step followed by the rest |
| Tui.HighlightInterval | src/ui/tui.rs:191-198 | in Visual mode with an anchor, row i is lit iff it lies between the anchor and the cursor |
| Tui.HighlightSingle | src/ui/tui.rs:196-201 | otherwise exactly the cursor row is lit |
| Tui.HighlightEnds | src/ui/tui.rs:190-201 | the cursor row, and the anchor row in Visual mode, are always lit |
| Tui.HighlightSymmetric | src/ui/tui.rs:193-195 | swapping the anchor and the cursor lights the same rows |
| Tui.HighlightContiguous | src/ui/tui.rs:190-201 | the lit rows form one interval |
| SqliteStore.SaveTask | src/storage/sqlite.rs:87-132 | upsert by id: that id now reads back as the task, other ids as before, links replaced by exactly the task's tags and dependencies, history untouched |
| SqliteStore.SaveNewTask | src/storage/sqlite.rs:87-100 | a task whose id is not yet stored is appended after every other row |
| SqliteStore.DeleteTask | src/storage/sqlite.rs:215-218 | that id is gone and every other id reads as before |
| SqliteStore.Conditions | src/storage/sqlite.rs:143-149 | succeeds iff every predicate converts; conditions and values match the predicates one to one, in order; a failure names the first failing predicate |
| SqliteStore.Collect | src/storage/sqlite.rs:143-149 | the same loop for any conversion: Ok iff every filter converts, one condition and value per filter in order, else the first failure |
| SqliteStore.BuildQuery | src/storage/sqlite.rs:138-151 | no WHERE clause for a missing, blank or operator-free filter; otherwise the converted predicates |
| SqliteStore.WherePlaceholders | src/storage/sqlite.rs:142-149 | the WHERE clause has one `?` per condition |
| SqliteStore.SqlTextPlaceholders | src/storage/sqlite.rs:135-154 | the statement has one `?` per condition |
| SqliteStore.PlaceholdersMatchParams | src/storage/sqlite.rs:135-156 | the statement has exactly as many placeholders as bound values |
| SqliteStore.RowLeTotalPreorder | src/storage/sqlite.rs:154 | position ascending, then created_at descending, is a total preorder |
| SqliteStore.GetTasks | src/storage/sqlite.rs:134-213 | succeeds iff the query builds; a conversion error aborts with that error |
| SqliteStore.GetTasksResult | src/storage/sqlite.rs:154-213 | the result is the selected rows, sorted and permuted, each with its links |
| SqliteStore.GetTasksOrdered | src/storage/sqlite.rs:154 | results come by position, then newest first |
| SqliteStore.AllTasks | src/storage/sqlite.rs:134-213 | an unfiltered read has one task per row, every row included |
| SqliteStore.GetTasksUnfiltered | src/storage/sqlite.rs:138-154 | with no filter every row is read |
| SqliteStore.GetTasksStored | src/storage/sqlite.rs:156-213 | every task read is a stored row |
| SqliteStore.SaveThenGet | src/storage/sqlite.rs:87-213 | a saved task reads back, links included |
| SqliteStore.DeleteThenGet | src/storage/sqlite.rs:215-218 | after deletion no read returns that id |
| SqliteStore.PushHistory | src/storage/sqlite.rs:220-227 | appends the snapshot under a fresh id larger than any before |
| SqliteStore.LatestHistory | src/storage/sqlite.rs:229-242 | the highest-id entry, or none when the log is empty |
| SqliteStore.DeleteHistoryEntry | src/storage/sqlite.rs:244-247 | removes exactly the entries with that id |
| SqliteStore.HistoryLifo | src/storage/sqlite.rs:220-247 | the latest entry after a push is the pushed snapshot; deleting it restores the log |
| GuiDomain.DefaultStatus | src/domain.rs:10-14 | the default status is the one text that is not "Done" converts to, so it is Todo |
| GuiDomain.StatusToString | src/domain.rs:26-33 | "Done" exactly for Done |
| GuiDomain.StatusFromString | src/domain.rs:17-24 | Done exactly for "Done" |
| GuiDomain.StatusRoundTrip | src/domain.rs:17-33 | converting a status to text and back returns it |
| GuiDomain.StatusToStringInjective | src/domain.rs:26-33 | different statuses have different texts |
| GuiDomain.StatusFromStringCaseSensitive | src/domain.rs:17-24 | "done", "DONE" and "Todo" all convert to Todo |
| GuiDomain.NewTask | src/domain.rs:46-57 | no id, description or due date; status Todo; the given title and project |
| GuiDomain.NewProject | src/domain.rs:67-74 | no id and the given name |
| GuiDb.CreateTask | src/db.rs:67-79 | appends one row under a fresh id larger than every existing one and returns it |
| GuiDb.CreateTaskIgnoresId | src/db.rs:67-79 | the task's own id has no effect |
| GuiDb.UpdateTaskStatus | src/db.rs:81-88 | only that row's status changes |
| GuiDb.UpdateTaskDueDate | src/db.rs:110-117 | only that row's due date changes |
| GuiDb.UpdateTask | src/db.rs:90-100 | a missing id is an error; otherwise that row takes the task's fields and keeps its created_at |
| GuiDb.DeleteTask | src/db.rs:102-108 | removes exactly the rows with that id, keeping the others in table order |
| GuiDb.GetAllTasks | src/db.rs:119-146 | every row, newest first |
| GuiDb.CreateThenGet | src/db.rs:67-146 | a created task reads back under its new id |
| GuiDb.UpdateStatusThenGet | src/db.rs:81-146 | after a status update the task reads back with the new status |
| GuiDb.UpdateDueDateThenGet | src/db.rs:110-117 | after a due-date update the task reads back with the new due date and every other field as before |
| GuiDb.CreateProject | src/db.rs:148-155 | appends one project under a fresh id |
| GuiDb.NextTaskId | src/db.rs:72-78 | the rowid SQLite gives an insert: 1 in an empty table, otherwise exactly one more than the largest id |
| GuiDb.NextProjectId | src/db.rs:150-154 | 1 in an empty table, otherwise exactly one more than the largest project id |
| GuiDb.UpdateProject | src/db.rs:157-164 | a missing id is an error; otherwise only that project is renamed |
| GuiDb.DeleteProject | src/db.rs:166-178 | every task of the project loses its project and none is deleted; the project is removed |
| GuiDb.DeleteProjectMovesToInbox | src/db.rs:166-178 | afterwards no task reads back in the project and the task count is unchanged |
| GuiDb.GetProjects | src/db.rs:180-198 | one project per row, in row order |
| GuiState.New | src/state.rs:26-35 | inbox view, empty search, no tasks or projects, dark mode off |
| GuiState.Refresh | src/state.rs:37-45 | reloads both lists and changes nothing else |
| GuiState.ProjectOfFilter | src/state.rs:48-51 | a new task joins project pid iff the view is project pid |
| GuiState.DueOfNewTask | src/state.rs:55-59 | the given due date, else now in the Today view, else none |
| GuiState.AddTask | src/state.rs:47-66 | the store is the old one with the built task created in it, the lists are refreshed from it and nothing else changes; the new task appears in the list with the view's project and due date |
| GuiState.Toggle | src/state.rs:69-72 | the new status always differs from the current one |
| GuiState.ToggleInvolution | src/state.rs:69-72 | toggling twice restores the status |
| GuiState.ToggleTask | src/state.rs:68-78 | stores the toggled status for that task, then refreshes both lists from the store and changes nothing else |
| GuiState.ToggleTwice | src/state.rs:68-78 | toggling a task twice from its shown status restores the stored task |
| GuiState.DeleteProject | src/state.rs:124-135 | the filter resets to Inbox iff it was that project, both lists are refreshed from the store and nothing else changes; no task is left in the project |
| GuiState.FilteredTasks | src/state.rs:137-168 | an order-preserving subsequence of the tasks: exactly those matching both the search and the view |
| GuiState.FilteredByView | src/state.rs:146-165 | the inbox shows only tasks with no project; a project view only that project's tasks |
| GuiState.EmptySearchHidesNothing | src/state.rs:138-143 | an empty search keeps every task the view shows |
| GuiState.SearchIgnoresQueryCase | src/state.rs:138-141 | lower-casing the query changes nothing |

## Left out

- Terminal setup, polling and drawing are left out, as are the status bar and the Stats view's completion rate. These are UI code and floating point.
- The handler calls whose bodies are not part of this model are uninterpreted `Tui.Event`s given to a handler parameter: `handle_action`, `move_to_top`, `add_task`, `add_task_below`, `add_task_above`, `commit_edit` and `execute_command`. `move_to_top` cannot fail in the source, so an error the handler returns for it is read as a jump that changed nothing (`Tui.Jump`).
- SQL execution is an abstract `eval(conditions, params, row)` verdict. The query text and its bound values are modelled exactly. Rows that tie under ORDER BY keep their table order; SQLite does not promise any order there.
- The terminal `Task` type and `Task::new` are not part of this model. The task is taken from the columns `save_task` writes, and `TuiState.AddTask` takes the built task as a parameter. The core test's "consecutive positions" claim therefore depends on code outside the model.
- The terminal `Status` is an enum; its text form in the database is not modelled.
- Tags and dependencies are sets. The unique-constraint failure that a duplicated tag would raise in `save_task` is not modelled.
- SqliteStore.DeleteTask: keeps the task's tag and dependency links. Foreign-key enforcement is assumed off: the connection never enables it, but a SQLite built with foreign keys on by default would run the ON DELETE CASCADE of `task_tags` and `dependencies` (src/storage/sqlite.rs:51 and 62-63) and drop those links.
- SqliteStore.SaveTask: under the same assumption, the REPLACE of an existing row deletes nothing else. With foreign keys on, that delete would also cascade: the task's own links are rewritten by `save_task` anyway, but other tasks' `dependencies` rows that point at it would be lost, which the model keeps.
- Storage errors (rusqlite, serde_json, RFC 3339 parsing, lock poisoning) are omitted from every store operation. Each operation therefore always completes.
- Timestamps are integers ordered like the RFC 3339 text the stores compare.
- The clock is a `now` parameter. GuiState.AddTask uses one `now` for both `created_at` and the Today due date, where the source reads the clock twice.
- GuiState.FilteredTasks: the local calendar day of an instant is a `dayOf` parameter and `today` is an argument. Time zones are not modelled.
- `to_lowercase` is ASCII-only. Unicode case folding is not modelled.
- The Lua interpreter, `load_user_config`, `src/config.rs` and path discovery are foreign calls and file I/O. Only the effect of each `set.*` and `map` call on the configuration is modelled.
- GUI operations not in the modelled core are left out: `delete_task`, `update_task_title`, `update_task_due_date`, `add_project` and `update_project_name` of `src/state.rs`. The store operations they call are modelled in `GuiDb`.
- `Arc<Mutex<..>>` locking is left out because the code is single-threaded.
- GuiDb.CreateTask: a new id is one more than the largest existing id. SQLite's fallback to a random unused rowid after the maximum 64-bit rowid is not modelled.
- Keymaps.ParseChar: stated only for lower-case ASCII characters other than dash and space. Other one-character names are covered by `Keymaps.ParseKeyCode`.
- Query.ParseTokenUnique: requires that the symbol does not start inside the field. That is what "split at the first occurrence" means.
- GTK widgets, CSS, icons and themes are left out because they are UI.
