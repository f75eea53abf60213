/** Key dispatch of the terminal front-end (`Tui::run` in `src/ui/tui.rs`)
    as a pure step function, and the row-highlight rule of its task table.

    Each key first goes to the keymap for the current mode; only a key the
    keymap does not resolve reaches the mode's own handling, which keeps the
    two-key prefixes `g…` and `z…` in the `pendingG`/`pendingZ` flags and
    edits the text buffer in Insert and Command mode.  The operations whose
    bodies live elsewhere (running an action, jumping to the top, adding or
    editing a task, executing a command) are `Event`s handed to a handler
    parameter, which may change anything or fail; only the jump to the top
    cannot abort the loop. */
module Tui {
  import opened Common
  import opened Modes
  import opened Actions
  import opened Keymaps

  /** What Enter does with the buffer in Insert mode. */
  datatype InsertAction = AddEnd | AddBelow | AddAbove | Edit

  /** The calls the dispatcher makes into code outside this model. */
  datatype Event =
    | HandleAction(action: Action)
    | JumpToTop                   // `move_to_top`, which cannot fail (see `Jump`)
    | AddTask(title: string)
    | AddTaskBelow(title: string)
    | AddTaskAbove(title: string)
    | CommitEdit
    | ExecuteCommand(command: string)

  /** The fields of the application state the dispatcher reads or writes;
      everything else it only passes to the handler, as `rest`. */
  datatype UiState<R> = UiState(
    mode: Mode,
    keymap: Keymap,
    pendingG: bool,
    pendingZ: bool,
    buffer: string,
    insertAction: InsertAction,
    editingTaskId: Option<nat>,
    selectedIndex: nat,
    selectionAnchor: Option<nat>,
    running: bool,
    rest: R)

  type Handler<!R> = (UiState<R>, Event) -> Result<UiState<R>>

  /** `String::pop`, dropping the result. */
  function DropLast(s: string): (r: string)
    ensures s == [] ==> r == []
    ensures s != [] ==> r + [s[|s| - 1]] == s
  {
    if s == [] then [] else s[..|s| - 1]
  }

  /** One key event.  A key the keymap resolves runs its action and nothing
      else; the step fails as the action does, and otherwise keeps the
      action's state except that `pendingG` survives only a `g`. */
  function Step<R>(st: UiState<R>, e: KeyEvent, h: Handler<R>): (r: Result<UiState<R>>)
    ensures GetAction(st.keymap, st.mode, e).Some? ==> r.Ok? == h(st, HandleAction(GetAction(st.keymap, st.mode, e).value)).Ok?
    ensures var a := GetAction(st.keymap, st.mode, e);
      a.Some? ==>
        var out := h(st, HandleAction(a.value));
        && (out.Err? ==> r == Err(out.error))
        && (out.Ok? ==> r.Ok? && r.value.pendingG == (out.value.pendingG && e.code == Char('g'))
                        && r.value == out.value.(pendingG := r.value.pendingG))
  {
    match GetAction(st.keymap, st.mode, e)
    case Some(a) =>
      var s1 :- h(st, HandleAction(a));
      Ok(if e.code != Char('g') then s1.(pendingG := false) else s1)
    case None => Fallback(st, e.code, h)
  }

  /** The handling of a key the keymap left unresolved. */
  function Fallback<R>(st: UiState<R>, code: KeyCode, h: Handler<R>): Result<UiState<R>> {
    match st.mode
    case Normal =>
      if code == Char('g') then PrefixG(st, h)
      else if code == Char('t') && st.pendingG then
        var s1 :- h(st, HandleAction(NextProject));
        Ok(s1.(pendingG := false))
      else if code == Char('T') && st.pendingG then
        var s1 :- h(st, HandleAction(PrevProject));
        Ok(s1.(pendingG := false))
      else if code == Char('z') then Ok(st.(pendingZ := true))
      else if code == Char('a') && st.pendingZ then
        var s1 :- h(st, HandleAction(ToggleCollapse));
        Ok(s1.(pendingZ := false))
      else Ok(st.(pendingG := false, pendingZ := false))
    case Visual =>
      if code == Char('g') then PrefixG(st, h)
      else Ok(st.(pendingG := false))
    case Insert => InsertKey(st, code, h)
    case Command => CommandKey(st, code, h)
    case _ => Ok(st)
  }

  /** An unresolved key in Insert mode edits the buffer or leaves the mode. */
  function InsertKey<R>(st: UiState<R>, code: KeyCode, h: Handler<R>): Result<UiState<R>> {
    match code
    case Esc => Ok(st.(mode := Normal, editingTaskId := None))
    case Enter =>
      if st.buffer == [] then Ok(st)
      else
        var s1 :- h(st, InsertEvent(st.insertAction, st.buffer));
        Ok(s1.(buffer := [], mode := Normal))
    case Char(c) => Ok(st.(buffer := st.buffer + [c]))
    case Backspace => Ok(st.(buffer := DropLast(st.buffer)))
    case _ => Ok(st)
  }

  /** An unresolved key in Command mode edits the buffer, runs it or leaves
      the mode. */
  function CommandKey<R>(st: UiState<R>, code: KeyCode, h: Handler<R>): Result<UiState<R>> {
    match code
    case Esc => Ok(st.(mode := Normal))
    case Enter =>
      var s1 :- h(st, ExecuteCommand(st.buffer));
      Ok(s1.(buffer := [], mode := Normal))
    case Char(c) => Ok(st.(buffer := st.buffer + [c]))
    case Backspace => Ok(st.(buffer := DropLast(st.buffer)))
    case _ => Ok(st)
  }

  /** `move_to_top` returns no `Result`, so the jump never aborts the loop:
      the handler's state is taken when it answers `Ok`, and an `Err` reads
      as a jump that changed nothing. */
  function Jump<R>(st: UiState<R>, h: Handler<R>): (r: UiState<R>)
    ensures h(st, JumpToTop).Ok? ==> r == h(st, JumpToTop).value
    ensures h(st, JumpToTop).Err? ==> r == st
  {
    match h(st, JumpToTop)
    case Ok(s1) => s1
    case Err(_) => st
  }

  /** An unresolved `g` in Normal or Visual mode: the second of two jumps to
      the top, the first only arms the prefix.  Neither can fail. */
  function PrefixG<R>(st: UiState<R>, h: Handler<R>): (r: Result<UiState<R>>)
    ensures r.Ok?
    ensures !st.pendingG ==> r.value == st.(pendingG := true)
    ensures st.pendingG ==> r.value == Jump(st, h).(pendingG := false)
  {
    if st.pendingG then Ok(Jump(st, h).(pendingG := false))
    else Ok(st.(pendingG := true))
  }

  /** The handler call Enter makes in Insert mode. */
  function InsertEvent(a: InsertAction, text: string): (e: Event)
    ensures a == Edit <==> e == CommitEdit
    ensures a != Edit ==> (e.AddTask? || e.AddTaskBelow? || e.AddTaskAbove?) && e.title == text
  {
    match a
    case AddEnd => AddTask(text)
    case AddBelow => AddTaskBelow(text)
    case AddAbove => AddTaskAbove(text)
    case Edit => CommitEdit
  }

  /** `while state.running`: the key events in order, stopping once the
      state stops running or a handler fails. */
  function Run<R>(st: UiState<R>, keys: seq<KeyEvent>, h: Handler<R>): Result<UiState<R>>
    decreases |keys|
  {
    if !st.running || keys == [] then Ok(st)
    else
      var s1 :- Step(st, keys[0], h);
      Run(s1, keys[1..], h)
  }

  /* ---------------------------------------------------------------------- */
  /* Properties of one step                                                 */

  /** A key the keymap resolves runs its action and nothing else: the
      fallback never sees it, `pendingG` is cleared unless the key is `g`,
      and `pendingZ` is as the action left it. */
  lemma ResolvedKey<R>(st: UiState<R>, e: KeyEvent, h: Handler<R>, a: Action, s1: UiState<R>)
    requires GetAction(st.keymap, st.mode, e) == Some(a)
    requires h(st, HandleAction(a)) == Ok(s1)
    ensures Step(st, e, h).Ok?
    ensures var r := Step(st, e, h).value;
      && r.pendingG == (s1.pendingG && e.code == Char('g'))
      && r == s1.(pendingG := r.pendingG)
  {
  }

  /** A key the keymap resolves whose action fails makes the step fail. */
  lemma ResolvedKeyFails<R>(st: UiState<R>, e: KeyEvent, h: Handler<R>, a: Action)
    requires GetAction(st.keymap, st.mode, e) == Some(a)
    requires h(st, HandleAction(a)).Err?
    ensures Step(st, e, h) == Err(h(st, HandleAction(a)).error)
  {
  }

  /** The plain key event for a character. */
  function Key(c: char): KeyEvent {
    KeyEvent(Char(c), {}, Press)
  }

  function NamedKey(code: KeyCode): KeyEvent {
    KeyEvent(code, {}, Press)
  }

  /** A key the keymap does not resolve in the current mode. */
  predicate Unresolved<R>(st: UiState<R>, e: KeyEvent) {
    GetAction(st.keymap, st.mode, e).None?
  }

  /** `g g` in Normal or Visual mode: the first unresolved `g` arms the
      prefix and calls nothing, the second jumps to the top and disarms. */
  lemma DoubleG<R>(st: UiState<R>, e: KeyEvent, h: Handler<R>)
    requires st.mode in {Normal, Visual} && e.code == Char('g') && Unresolved(st, e)
    requires !st.pendingG
    ensures Step(st, e, h) == Ok(st.(pendingG := true))
    ensures var armed := st.(pendingG := true);
      && Step(armed, e, h).Ok?
      && (h(armed, JumpToTop).Ok? ==>
            Step(armed, e, h) == Ok(h(armed, JumpToTop).value.(pendingG := false)))
      && (h(armed, JumpToTop).Err? ==> Step(armed, e, h) == Ok(st.(pendingG := false)))
  {
  }

  /** With the built-in keymap, plain `g` is bound in Normal mode (to
      MoveToBottom), so there it never reaches the `g g` handling; in Visual
      mode it is unbound and does. */
  lemma DefaultKeymapG<R>(st: UiState<R>)
    requires st.keymap == NewKeymap()
    ensures st.mode == Normal ==> GetAction(st.keymap, st.mode, Key('g')) == Some(MoveToBottom)
    ensures st.mode == Visual ==> Unresolved(st, Key('g'))
  {
    assert FromEvent(Key('g')) == Plain('g');
    DefaultLookup(Normal, Plain('g'));
    DefaultNormalOverrides();
    DefaultLookup(Visual, Plain('g'));
    DefaultVisual();
  }

  /** `g t` and `g T` in Normal mode switch project and disarm the prefix;
      without the prefix they clear both flags. */
  lemma ProjectKeys<R>(st: UiState<R>, e: KeyEvent, h: Handler<R>)
    requires st.mode == Normal && e.code in {Char('t'), Char('T')} && Unresolved(st, e)
    ensures st.pendingG ==>
      var a := if e.code == Char('t') then NextProject else PrevProject;
      && Step(st, e, h).Ok? == h(st, HandleAction(a)).Ok?
      && (h(st, HandleAction(a)).Ok? ==>
            Step(st, e, h) == Ok(h(st, HandleAction(a)).value.(pendingG := false)))
    ensures !st.pendingG ==> Step(st, e, h) == Ok(st.(pendingG := false, pendingZ := false))
  {
  }

  /** `z a` in Normal mode toggles collapse: `z` arms its flag alone, and
      `a` with the flag set calls the action and disarms it. */
  lemma ZPrefix<R>(st: UiState<R>, z: KeyEvent, a: KeyEvent, h: Handler<R>)
    requires st.mode == Normal && z.code == Char('z') && Unresolved(st, z)
    requires a.code == Char('a')
    ensures Step(st, z, h) == Ok(st.(pendingZ := true))
    ensures var armed := st.(pendingZ := true);
      Unresolved(armed, a) && h(armed, HandleAction(ToggleCollapse)).Ok? ==>
        Step(armed, a, h) == Ok(h(armed, HandleAction(ToggleCollapse)).value.(pendingZ := false))
  {
  }

  /** Any other unresolved key clears both prefixes in Normal mode and the
      `g` prefix in Visual mode, and changes nothing else. */
  lemma OtherKeyClears<R>(st: UiState<R>, e: KeyEvent, h: Handler<R>)
    requires st.mode in {Normal, Visual} && Unresolved(st, e)
    requires e.code !in {Char('g'), Char('z')}
    requires st.mode == Normal ==> !(e.code in {Char('t'), Char('T')} && st.pendingG)
    requires st.mode == Normal ==> !(e.code == Char('a') && st.pendingZ)
    ensures st.mode == Normal ==> Step(st, e, h) == Ok(st.(pendingG := false, pendingZ := false))
    ensures st.mode == Visual ==> Step(st, e, h) == Ok(st.(pendingG := false))
  {
  }

  /** Stats and Filter mode ignore every unresolved key. */
  lemma IgnoredModes<R>(st: UiState<R>, e: KeyEvent, h: Handler<R>)
    requires st.mode in {Stats, Filter} && Unresolved(st, e)
    ensures Step(st, e, h) == Ok(st)
  {
  }

  /** In Insert and Command mode an unresolved character is appended to the
      buffer, and Backspace removes it again. */
  lemma TypeThenErase<R>(st: UiState<R>, c: char, h: Handler<R>)
    requires st.mode in {Insert, Command}
    requires Unresolved(st, Key(c))
    requires Unresolved(st.(buffer := st.buffer + [c]), NamedKey(Backspace))
    ensures Step(st, Key(c), h) == Ok(st.(buffer := st.buffer + [c]))
    ensures Step(st.(buffer := st.buffer + [c]), NamedKey(Backspace), h) == Ok(st)
  {
    assert (st.buffer + [c])[..|st.buffer|] == st.buffer;
  }

  /** Backspace on an empty buffer does nothing. */
  lemma EraseEmpty<R>(st: UiState<R>, h: Handler<R>)
    requires st.mode in {Insert, Command} && st.buffer == []
    requires Unresolved(st, NamedKey(Backspace))
    ensures Step(st, NamedKey(Backspace), h) == Ok(st)
  {
  }

  /** Enter in Insert mode: on an empty buffer nothing happens; otherwise
      the buffer goes to the handler for the pending insert action, then is
      cleared and the mode returns to Normal. */
  lemma InsertEnter<R>(st: UiState<R>, h: Handler<R>)
    requires st.mode == Insert && Unresolved(st, NamedKey(Enter))
    ensures st.buffer == [] ==> Step(st, NamedKey(Enter), h) == Ok(st)
    ensures st.buffer != [] ==>
      var ev := InsertEvent(st.insertAction, st.buffer);
      && Step(st, NamedKey(Enter), h).Ok? == h(st, ev).Ok?
      && (h(st, ev).Ok? ==>
            Step(st, NamedKey(Enter), h) == Ok(h(st, ev).value.(buffer := [], mode := Normal)))
  {
  }

  /** Esc leaves Insert mode keeping the buffer and dropping the task being
      edited, and leaves Command mode keeping the buffer. */
  lemma Escape<R>(st: UiState<R>, h: Handler<R>)
    requires st.mode in {Insert, Command} && Unresolved(st, NamedKey(Esc))
    ensures st.mode == Insert ==> Step(st, NamedKey(Esc), h) == Ok(st.(mode := Normal, editingTaskId := None))
    ensures st.mode == Command ==> Step(st, NamedKey(Esc), h) == Ok(st.(mode := Normal))
  {
  }

  /** Enter in Command mode always executes the buffer, even an empty one,
      then clears it and returns to Normal. */
  lemma CommandEnter<R>(st: UiState<R>, h: Handler<R>)
    requires st.mode == Command && Unresolved(st, NamedKey(Enter))
    ensures Step(st, NamedKey(Enter), h).Ok? == h(st, ExecuteCommand(st.buffer)).Ok?
    ensures h(st, ExecuteCommand(st.buffer)).Ok? ==>
      Step(st, NamedKey(Enter), h) == Ok(h(st, ExecuteCommand(st.buffer)).value.(buffer := [], mode := Normal))
  {
  }

  /* ---------------------------------------------------------------------- */
  /* Properties of runs                                                     */

  /** Running two batches of keys is running their concatenation. */
  lemma {:induction false} RunAppend<R>(st: UiState<R>, a: seq<KeyEvent>, b: seq<KeyEvent>, h: Handler<R>)
    ensures Run(st, a + b, h) == (match Run(st, a, h) case Ok(s) => Run(s, b, h) case Err(e) => Err(e))
    decreases |a|
  {
    if a == [] {
      assert a + b == b;
      if !st.running {
        assert Run(st, b, h) == Ok(st);
      }
    } else if st.running {
      assert (a + b)[0] == a[0];
      assert (a + b)[1..] == a[1..] + b;
      match Step(st, a[0], h)
      case Ok(s1) => RunAppend(s1, a[1..], b, h);
      case Err(_) =>
    }
  }

  /** The characters of `s` as plain key events. */
  function Keys(s: string): (r: seq<KeyEvent>)
    ensures |r| == |s|
    ensures forall i :: 0 <= i < |s| ==> r[i] == Key(s[i])
  {
    if s == [] then [] else [Key(s[0])] + Keys(s[1..])
  }

  lemma KeysTail(s: string)
    requires s != []
    ensures Keys(s)[1..] == Keys(s[1..])
  {
  }

  /** Typing the first character of `s`, then the rest. */
  lemma TypeFirst<R>(st: UiState<R>, s: string, h: Handler<R>)
    requires st.mode == Insert && st.running && s != []
    requires Insert !in st.keymap.mappings
    ensures Run(st, Keys(s), h) == Run(st.(buffer := st.buffer + [s[0]]), Keys(s[1..]), h)
  {
    TypeChar(st, s[0], h);
    RunStep(st, Keys(s), h, st.(buffer := st.buffer + [s[0]]));
    KeysTail(s);
  }

  lemma TypeChar<R>(st: UiState<R>, c: char, h: Handler<R>)
    requires st.mode == Insert
    requires Insert !in st.keymap.mappings
    ensures Step(st, Key(c), h) == Ok(st.(buffer := st.buffer + [c]))
  {
    assert Unresolved(st, Key(c));
  }

  /** With no Insert table in the keymap, typing text in Insert mode appends
      exactly that text to the buffer and changes nothing else. */
  lemma {:induction false} TypeText<R>(st: UiState<R>, s: string, h: Handler<R>)
    requires st.mode == Insert && st.running
    requires Insert !in st.keymap.mappings
    ensures Run(st, Keys(s), h) == Ok(st.(buffer := st.buffer + s))
    decreases |s|
  {
    if s == [] {
      assert st.buffer + s == st.buffer;
    } else {
      var s1 := st.(buffer := st.buffer + [s[0]]);
      TypeFirst(st, s, h);
      TypeText(s1, s[1..], h);
      assert s1.buffer + s[1..] == st.buffer + s;
    }
  }

  lemma RunStep<R>(st: UiState<R>, keys: seq<KeyEvent>, h: Handler<R>, s1: UiState<R>)
    requires st.running && keys != []
    requires Step(st, keys[0], h) == Ok(s1)
    ensures Run(st, keys, h) == Run(s1, keys[1..], h)
  {
  }


  /* ---------------------------------------------------------------------- */
  /* Row highlighting                                                       */

  /** Whether row `i` of the task table is highlighted: in Visual mode with
      an anchor, every row between the anchor and the cursor; otherwise the
      cursor's row. */
  function IsHighlighted(mode: Mode, anchor: Option<nat>, selected: nat, i: nat): bool {
    if mode == Visual && anchor.Some? then
      var start := if anchor.value < selected then anchor.value else selected;
      var end := if anchor.value < selected then selected else anchor.value;
      start <= i <= end
    else i == selected
  }

  /** The highlighted rows are exactly the closed interval between the
      cursor and the anchor, whichever comes first. */
  lemma HighlightInterval(anchor: nat, selected: nat, i: nat)
    ensures IsHighlighted(Visual, Some(anchor), selected, i) <==>
      (anchor <= i <= selected || selected <= i <= anchor)
  {
  }

  /** The cursor's row is always highlighted, and so is the anchor's. */
  lemma HighlightEnds(mode: Mode, anchor: Option<nat>, selected: nat)
    ensures IsHighlighted(mode, anchor, selected, selected)
    ensures mode == Visual && anchor.Some? ==> IsHighlighted(mode, anchor, selected, anchor.value)
  {
  }

  /** Without a visual selection exactly one row is highlighted. */
  lemma HighlightSingle(mode: Mode, anchor: Option<nat>, selected: nat, i: nat)
    requires mode != Visual || anchor.None?
    ensures IsHighlighted(mode, anchor, selected, i) <==> i == selected
  {
  }

  /** Swapping the cursor and the anchor highlights the same rows. */
  lemma HighlightSymmetric(anchor: nat, selected: nat, i: nat)
    ensures IsHighlighted(Visual, Some(anchor), selected, i) == IsHighlighted(Visual, Some(selected), anchor, i)
  {
  }

  /** The highlighted rows are contiguous. */
  lemma HighlightContiguous(mode: Mode, anchor: Option<nat>, selected: nat, i: nat, j: nat, k: nat)
    requires i <= j <= k
    requires IsHighlighted(mode, anchor, selected, i) && IsHighlighted(mode, anchor, selected, k)
    ensures IsHighlighted(mode, anchor, selected, j)
  {
  }
}
