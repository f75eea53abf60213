/** The closed set of user intents and the identifiers the configuration
    layer uses to name them (`src/core/actions.rs`). */
module Actions {
  import opened Common

  datatype Action =
    | Quit
    | MoveDown
    | MoveUp
    | MoveToTop
    | MoveToBottom
    | PageDown
    | PageUp
    | Delete
    | CycleStatus
    | IncreasePriority
    | DecreasePriority
    | EnterInsert
    | EnterInsertBelow
    | EnterInsertAbove
    | EnterVisual
    | EnterCommand
    | Cancel
    | Undo
    | Redo
    | ToggleCollapse
    | NextProject
    | PrevProject
    | Yank
    | Paste
    | EnterSearch

  /** `Action::from_str`: an exact, case-sensitive table; `None` is `Err(())`. */
  function ParseAction(s: string): (r: Option<Action>)
    ensures r.Some? <==> s in Identifiers
  {
    match s
    case "quit" => Some(Quit)
    case "move_down" => Some(MoveDown)
    case "move_up" => Some(MoveUp)
    case "move_top" => Some(MoveToTop)
    case "move_bottom" => Some(MoveToBottom)
    case "page_down" => Some(PageDown)
    case "page_up" => Some(PageUp)
    case "delete" => Some(Delete)
    case "delete_task" => Some(Delete)
    case "cycle_status" => Some(CycleStatus)
    case "increase_priority" => Some(IncreasePriority)
    case "decrease_priority" => Some(DecreasePriority)
    case "insert" => Some(EnterInsert)
    case "insert_below" => Some(EnterInsertBelow)
    case "add_below" => Some(EnterInsertBelow)
    case "insert_above" => Some(EnterInsertAbove)
    case "add_above" => Some(EnterInsertAbove)
    case "visual" => Some(EnterVisual)
    case "command" => Some(EnterCommand)
    case "cancel" => Some(Cancel)
    case "undo" => Some(Undo)
    case "redo" => Some(Redo)
    case "toggle_collapse" => Some(ToggleCollapse)
    case "next_project" => Some(NextProject)
    case "prev_project" => Some(PrevProject)
    case "yank" => Some(Yank)
    case "paste" => Some(Paste)
    case "search" => Some(EnterSearch)
    case _ => None
  }

  /** Every identifier the table accepts. */
  const Identifiers: set<string> := {
    "quit", "move_down", "move_up", "move_top", "move_bottom", "page_down",
    "page_up", "delete", "delete_task", "cycle_status", "increase_priority",
    "decrease_priority", "insert", "insert_below", "add_below", "insert_above",
    "add_above", "visual", "command", "cancel", "undo", "redo",
    "toggle_collapse", "next_project", "prev_project", "yank", "paste", "search"
  }

  /** The three pairs of identifiers that name the same action. */
  const Aliases: set<(string, string)> := {
    ("delete", "delete_task"),
    ("insert_below", "add_below"),
    ("insert_above", "add_above")
  }

  /** A primary identifier for each action. */
  function Name(a: Action): string {
    match a
    case Quit => "quit"
    case MoveDown => "move_down"
    case MoveUp => "move_up"
    case MoveToTop => "move_top"
    case MoveToBottom => "move_bottom"
    case PageDown => "page_down"
    case PageUp => "page_up"
    case Delete => "delete"
    case CycleStatus => "cycle_status"
    case IncreasePriority => "increase_priority"
    case DecreasePriority => "decrease_priority"
    case EnterInsert => "insert"
    case EnterInsertBelow => "insert_below"
    case EnterInsertAbove => "insert_above"
    case EnterVisual => "visual"
    case EnterCommand => "command"
    case Cancel => "cancel"
    case Undo => "undo"
    case Redo => "redo"
    case ToggleCollapse => "toggle_collapse"
    case NextProject => "next_project"
    case PrevProject => "prev_project"
    case Yank => "yank"
    case Paste => "paste"
    case EnterSearch => "search"
  }

  /** Every action is reachable from the table: its name parses back to it. */
  lemma ParseName(a: Action)
    ensures ParseAction(Name(a)) == Some(a)
  {
  }

  /** Two different identifiers reach the same action only when they are one
      of the three alias pairs. */
  lemma ParseInjectiveExceptAliases(s: string, t: string)
    requires s != t
    requires ParseAction(s).Some? && ParseAction(s) == ParseAction(t)
    ensures (s, t) in Aliases || (t, s) in Aliases
  {
    ParseNameOrAlias(s);
    ParseNameOrAlias(t);
  }

  /** An accepted identifier is its action's name or the second half of an
      alias pair whose first half is that name. */
  lemma ParseNameOrAlias(s: string)
    requires ParseAction(s).Some?
    ensures s == Name(ParseAction(s).value) || (Name(ParseAction(s).value), s) in Aliases
  {
    if s !in {"delete_task", "add_below", "add_above"} {
      ParsePrimary(s);
    }
  }

  lemma ParsePrimary(s: string)
    requires ParseAction(s).Some? && s !in {"delete_task", "add_below", "add_above"}
    ensures s == Name(ParseAction(s).value)
  {
    if s in {"quit", "move_down", "move_up", "move_top", "move_bottom", "page_down", "page_up", "delete"} {
      ParsePrimaryIn1(s);
    } else if s in {"cycle_status", "increase_priority", "decrease_priority", "insert", "insert_below", "insert_above", "visual", "command"} {
      ParsePrimaryIn2(s);
    } else {
      ParsePrimaryIn3(s);
    }
  }

  lemma ParsePrimaryIn1(s: string)
    requires s in {"quit", "move_down", "move_up", "move_top", "move_bottom", "page_down", "page_up", "delete"}
    ensures ParseAction(s).Some? && s == Name(ParseAction(s).value)
  {
  }

  lemma ParsePrimaryIn2(s: string)
    requires s in {"cycle_status", "increase_priority", "decrease_priority", "insert", "insert_below", "insert_above", "visual", "command"}
    ensures ParseAction(s).Some? && s == Name(ParseAction(s).value)
  {
  }

  lemma ParsePrimaryIn3(s: string)
    requires s in {"cancel", "undo", "redo", "toggle_collapse", "next_project", "prev_project", "yank", "paste", "search"}
    ensures ParseAction(s).Some? && s == Name(ParseAction(s).value)
  {
  }

  lemma AliasesAgree()
    ensures forall p :: p in Aliases ==> ParseAction(p.0).Some? && ParseAction(p.0) == ParseAction(p.1)
  {
  }

  /** The table is case-sensitive: capitalised names are rejected. */
  lemma ParseIsCaseSensitive()
    ensures ParseAction("Quit") == None
    ensures ParseAction("DELETE") == None
  {
  }
}
