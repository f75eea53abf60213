/** Key combinations, their textual notation, and the per-mode keymap
    (`src/core/keymap.rs`). */
module Keymaps {
  import opened Common
  import opened Strings
  import opened Actions
  import opened Modes

  /** The key codes the model distinguishes; `Other` stands for every code the
      textual notation cannot name (function keys, Home, Delete, ...). */
  datatype KeyCode =
    | Backspace | Enter | Left | Right | Up | Down | Tab | Esc
    | Char(c: char)
    | Other(id: nat)

  datatype Modifier = Shift | Control | Alt | Super | Hyper | Meta

  /** Whether the terminal reported a press, an auto-repeat or a release. */
  datatype KeyEventKind = Press | Repeat | Release

  /** A raw key event as the terminal delivers it. */
  datatype KeyEvent = KeyEvent(code: KeyCode, modifiers: set<Modifier>, kind: KeyEventKind)

  /** A key code plus a modifier set; equality looks at both and nothing else. */
  datatype KeyCombination = KeyCombination(code: KeyCode, modifiers: set<Modifier>)

  /** `KeyCombination::from_event`: keeps the code and the modifiers. */
  function FromEvent(e: KeyEvent): KeyCombination {
    KeyCombination(e.code, e.modifiers)
  }

  /* ---------------------------------------------------------------------- */
  /* Textual notation: "ctrl-d", "-", "enter"                               */

  /** The names `KeyCombination::from_str` recognises for non-character keys. */
  const KeyNames: set<string> :=
    {"enter", "esc", "backspace", "tab", "up", "down", "left", "right", "space"}

  predicate IsAscii(c: char) {
    c < '\U{80}'
  }

  /** Parses the last dash-separated part: a key name, matched case-insensitively,
      or any other one-byte text, which names that character lower-cased. */
  function ParseKeyCode(name: string): (r: Option<KeyCode>)
    ensures r.None? <==> ToLower(name) !in KeyNames && !(|name| == 1 && IsAscii(name[0]))
    ensures r.Some? ==> !r.value.Other?
    ensures r.Some? && r.value.Char? ==> IsAscii(r.value.c) && !('A' <= r.value.c <= 'Z')
    ensures |name| == 1 && IsAscii(name[0]) ==> r == Some(Char(LowerChar(name[0])))
  {
    var l := ToLower(name);
    match l
    case "enter" => Some(Enter)
    case "esc" => Some(Esc)
    case "backspace" => Some(Backspace)
    case "tab" => Some(Tab)
    case "up" => Some(Up)
    case "down" => Some(Down)
    case "left" => Some(Left)
    case "right" => Some(Right)
    case "space" => Some(Char(' '))
    case _ => if |l| == 1 && IsAscii(l[0]) then Some(Char(l[0])) else None
  }

  /** The modifier a lower-cased word names, if any. */
  function ModifierWord(w: string): Option<Modifier> {
    match w
    case "ctrl" => Some(Control)
    case "c" => Some(Control)
    case "alt" => Some(Alt)
    case "a" => Some(Alt)
    case "shift" => Some(Shift)
    case "s" => Some(Shift)
    case _ => None
  }

  /** The modifiers named by `words`; words naming none are ignored. */
  function ModifiersOf(words: seq<string>): (r: set<Modifier>)
    ensures r <= {Control, Alt, Shift}
    ensures forall m :: m in r <==>
      exists i :: 0 <= i < |words| && ModifierWord(ToLower(words[i])) == Some(m)
  {
    if words == [] then {}
    else
      var rest := ModifiersOf(words[1..]);
      assert forall i :: 1 <= i < |words| ==> words[i] == words[1..][i - 1];
      match ModifierWord(ToLower(words[0]))
      case Some(m) => {m} + rest
      case None => rest
  }

  /** `KeyCombination::from_str`.  A lone "-" is the minus key; otherwise the
      text is split at every '-', all parts but the last name modifiers and
      the last part names the key. */
  function ParseCombination(s: string): (r: Option<KeyCombination>)
    ensures r.Some? ==> r.value.modifiers <= {Control, Alt, Shift}
    ensures r.Some? ==> !r.value.code.Other?
    ensures r.Some? && r.value.code.Char? ==> IsAscii(r.value.code.c) && !('A' <= r.value.code.c <= 'Z')
  {
    if s == "-" then Some(KeyCombination(Char('-'), {}))
    else FromParts(SplitOn(s, '-'))
  }

  /** The combination named by dash-separated parts: the last names the key,
      the others its modifiers. */
  function FromParts(parts: seq<string>): (r: Option<KeyCombination>)
    requires |parts| >= 1
    ensures r.Some? <==> ParseKeyCode(parts[|parts| - 1]).Some?
    ensures r.Some? ==> r.value == KeyCombination(ParseKeyCode(parts[|parts| - 1]).value, PrefixModifiers(parts))
  {
    var code :- ParseKeyCode(parts[|parts| - 1]);
    Some(KeyCombination(code, PrefixModifiers(parts)))
  }

  /** The modifiers named by every part but the last. */
  function PrefixModifiers(parts: seq<string>): (r: set<Modifier>)
    requires |parts| >= 1
    ensures r <= {Control, Alt, Shift}
  {
    if |parts| > 1 then ModifiersOf(parts[..|parts| - 1]) else {}
  }

  /* ---------------------------------------------------------------------- */
  /* Case-insensitivity                                                     */

  function LowerAll(parts: seq<string>): (r: seq<string>)
    ensures |r| == |parts|
    ensures forall i :: 0 <= i < |parts| ==> r[i] == ToLower(parts[i])
  {
    seq(|parts|, i requires 0 <= i < |parts| => ToLower(parts[i]))
  }

  lemma {:induction false} ToLowerJoin(parts: seq<string>, sep: char)
    requires LowerChar(sep) == sep
    ensures ToLower(Join(parts, [sep])) == Join(LowerAll(parts), [sep])
    decreases |parts|
  {
    if |parts| > 1 {
      ToLowerJoin(parts[1..], sep);
      ToLowerAppend(parts[0] + [sep], Join(parts[1..], [sep]));
      ToLowerAppend(parts[0], [sep]);
      assert LowerAll(parts)[1..] == LowerAll(parts[1..]);
    }
  }

  lemma LowerKeepsDash(p: string)
    requires '-' !in p
    ensures '-' !in ToLower(p)
  {
    forall k | 0 <= k < |p| ensures ToLower(p)[k] != '-' {
      assert ToLower(p)[k] == LowerChar(p[k]);
    }
  }

  lemma SplitLower(s: string)
    ensures SplitOn(ToLower(s), '-') == LowerAll(SplitOn(s, '-'))
  {
    var parts := SplitOn(s, '-');
    ToLowerJoin(parts, '-');
    var lowered := LowerAll(parts);
    forall i | 0 <= i < |lowered| ensures '-' !in lowered[i] {
      LowerKeepsDash(parts[i]);
    }
    SplitJoin(lowered, '-');
  }

  lemma LowerIsDash(s: string)
    ensures ToLower(s) == "-" <==> s == "-"
  {
    if ToLower(s) == "-" {
      assert LowerChar(s[0]) == '-';
    }
  }

  lemma {:induction false} ModifiersOfLower(words: seq<string>)
    ensures ModifiersOf(LowerAll(words)) == ModifiersOf(words)
    decreases |words|
  {
    if words != [] {
      ToLowerIdempotent(words[0]);
      assert LowerAll(words)[1..] == LowerAll(words[1..]);
      ModifiersOfLower(words[1..]);
    }
  }

  lemma ParseKeyCodeLower(name: string)
    ensures ParseKeyCode(ToLower(name)) == ParseKeyCode(name)
  {
    ToLowerIdempotent(name);
  }

  /** The notation is case-insensitive throughout: modifier words, key names
      and single characters alike, so "G" names the same key as "g". */
  lemma ParseIgnoresCase(s: string)
    ensures ParseCombination(ToLower(s)) == ParseCombination(s)
  {
    var l := ToLower(s);
    LowerIsDash(s);
    if s != "-" {
      var parts := SplitOn(s, '-');
      var n := |parts|;
      SplitLower(s);
      assert SplitOn(l, '-') == LowerAll(parts);
      ParseKeyCodeLower(parts[n - 1]);
      if n > 1 {
        assert LowerAll(parts)[..n - 1] == LowerAll(parts[..n - 1]);
        ModifiersOfLower(parts[..n - 1]);
      }
    }
  }

  /** A leading part that names no modifier is dropped without complaint:
      "hyper-x" parses like "x" and "foo-ctrl-d" like "ctrl-d". */
  lemma UnknownModifierIgnored(w: string, s: string)
    requires '-' !in w && ModifierWord(ToLower(w)) == None
    requires s != [] && s != "-"
    ensures ParseCombination(w + "-" + s) == ParseCombination(s)
  {
    var t := w + "-" + s;
    SplitPiece(w, '-', s);
    var rest := SplitOn(s, '-');
    var parts := SplitOn(t, '-');
    assert parts == [w] + rest;
    assert t != "-" by {
      assert |t| >= 2;
    }
    UnknownWordDropped(w, rest);
    ParseAgrees(t, s);
  }

  /** Two texts other than "-" with the same key part and the same modifier
      parts parse alike. */
  lemma ParseAgrees(s: string, t: string)
    requires s != "-" && t != "-"
    requires var p, q := SplitOn(s, '-'), SplitOn(t, '-');
      p[|p| - 1] == q[|q| - 1] && PrefixModifiers(p) == PrefixModifiers(q)
    ensures ParseCombination(s) == ParseCombination(t)
  {
    assert FromParts(SplitOn(s, '-')) == FromParts(SplitOn(t, '-'));
  }

  lemma UnknownWordDropped(w: string, rest: seq<string>)
    requires ModifierWord(ToLower(w)) == None
    requires |rest| >= 1
    ensures PrefixModifiers([w] + rest) == PrefixModifiers(rest)
    ensures ([w] + rest)[|rest|] == rest[|rest| - 1]
  {
    var parts := [w] + rest;
    assert ModifiersOf([w]) == {} by {
      assert [w][1..] == [];
    }
    if |rest| > 1 {
      assert parts[..|parts| - 1] == [w] + rest[..|rest| - 1];
      ModifiersOfAppend([w], rest[..|rest| - 1]);
    } else {
      assert parts[..|parts| - 1] == [w];
    }
  }

  /* ---------------------------------------------------------------------- */
  /* Printing a combination back to notation                                */

  /** Combinations the notation can express: ctrl/alt/shift only, a named key
      or a one-byte character that is not an upper-case letter, and the minus
      key only on its own. */
  predicate Expressible(k: KeyCombination) {
    && k.modifiers <= {Control, Alt, Shift}
    && !k.code.Other?
    && (k.code.Char? ==> IsAscii(k.code.c) && !('A' <= k.code.c <= 'Z'))
    && (k.code == Char('-') ==> k.modifiers == {})
  }

  function KeyName(code: KeyCode): string {
    match code
    case Backspace => "backspace"
    case Enter => "enter"
    case Left => "left"
    case Right => "right"
    case Up => "up"
    case Down => "down"
    case Tab => "tab"
    case Esc => "esc"
    case Char(c) => if c == ' ' then "space" else [c]
    case Other(_) => ""
  }

  /** `[w]` when `present`, no words otherwise. */
  function WordIf(present: bool, w: string): seq<string> {
    if present then [w] else []
  }

  /** The modifier words of a combination, in the order ctrl, alt, shift. */
  function ModifierWords(m: set<Modifier>): seq<string> {
    WordIf(Control in m, "ctrl") + WordIf(Alt in m, "alt") + WordIf(Shift in m, "shift")
  }

  /** The canonical notation of a combination. */
  function Notation(k: KeyCombination): string {
    if k.code == Char('-') && k.modifiers == {} then "-"
    else Join(ModifierWords(k.modifiers) + [KeyName(k.code)], "-")
  }

  lemma ParseKeyName(code: KeyCode)
    requires !code.Other?
    requires code.Char? ==> IsAscii(code.c) && !('A' <= code.c <= 'Z')
    ensures ParseKeyCode(KeyName(code)) == Some(code)
  {
    var name := KeyName(code);
    assert NoUpper(name);
    ToLowerNoUpper(name);
  }

  lemma {:induction false} ModifiersOfAppend(a: seq<string>, b: seq<string>)
    ensures ModifiersOf(a + b) == ModifiersOf(a) + ModifiersOf(b)
    decreases |a|
  {
    if a == [] {
      assert a + b == b;
    } else {
      assert (a + b)[0] == a[0];
      assert (a + b)[1..] == a[1..] + b;
      ModifiersOfAppend(a[1..], b);
    }
  }

  lemma ModifiersOfWord(w: string, m: Modifier)
    requires NoUpper(w) && ModifierWord(w) == Some(m)
    ensures ModifiersOf([w]) == {m}
  {
    ToLowerNoUpper(w);
    assert [w][1..] == [];
  }

  /** The words of one modifier, and the modifier they name. */
  lemma ModifiersOfOptional(present: bool, w: string, m: Modifier)
    requires NoUpper(w) && ModifierWord(w) == Some(m)
    ensures ModifiersOf(WordIf(present, w)) == if present then {m} else {}
  {
    if present {
      ModifiersOfWord(w, m);
    }
  }

  lemma SplitModifiers(m: set<Modifier>)
    requires m <= {Control, Alt, Shift}
    ensures m == (if Control in m then {Control} else {})
      + (if Alt in m then {Alt} else {})
      + (if Shift in m then {Shift} else {})
  {
  }

  lemma ModifiersOfWords(m: set<Modifier>)
    requires m <= {Control, Alt, Shift}
    ensures ModifiersOf(ModifierWords(m)) == m
  {
    var c := WordIf(Control in m, "ctrl");
    var a := WordIf(Alt in m, "alt");
    var sh := WordIf(Shift in m, "shift");
    ModifiersOfAppend(c + a, sh);
    ModifiersOfAppend(c, a);
    ModifiersOfCtrl(Control in m);
    ModifiersOfAlt(Alt in m);
    ModifiersOfShift(Shift in m);
    SplitModifiers(m);
  }

  lemma ModifiersOfCtrl(present: bool)
    ensures ModifiersOf(WordIf(present, "ctrl")) == if present then {Control} else {}
  {
    ModifiersOfOptional(present, "ctrl", Control);
  }

  lemma ModifiersOfAlt(present: bool)
    ensures ModifiersOf(WordIf(present, "alt")) == if present then {Alt} else {}
  {
    ModifiersOfOptional(present, "alt", Alt);
  }

  lemma ModifiersOfShift(present: bool)
    ensures ModifiersOf(WordIf(present, "shift")) == if present then {Shift} else {}
  {
    ModifiersOfOptional(present, "shift", Shift);
  }

  lemma ModifierWordsPlain(m: set<Modifier>)
    ensures forall i :: 0 <= i < |ModifierWords(m)| ==> ModifierWords(m)[i] in ["ctrl", "alt", "shift"]
  {
    var w := ModifierWords(m);
    forall i | 0 <= i < |w| ensures w[i] in ["ctrl", "alt", "shift"] {
      var c := WordIf(Control in m, "ctrl");
      var a := WordIf(Alt in m, "alt");
      if i < |c| {
        assert w[i] == c[i];
      } else if i < |c| + |a| {
        assert w[i] == a[i - |c|];
      }
    }
  }

  /** The notation's dash-separated parts: the modifier words and the key name. */
  lemma SplitNotation(k: KeyCombination)
    requires Expressible(k)
    requires !(k.code == Char('-') && k.modifiers == {})
    ensures SplitOn(Notation(k), '-') == ModifierWords(k.modifiers) + [KeyName(k.code)]
  {
    var parts := ModifierWords(k.modifiers) + [KeyName(k.code)];
    ModifierWordsPlain(k.modifiers);
    forall i | 0 <= i < |parts| ensures '-' !in parts[i] {
      if i < |parts| - 1 {
        assert parts[i] in ["ctrl", "alt", "shift"];
      }
    }
    SplitJoin(parts, '-');
  }

  /** What `ParseCombination` makes of text other than "-" whose last part
      names a key. */
  lemma ParseParts(s: string, code: KeyCode, modifiers: set<Modifier>)
    requires s != "-"
    requires ParseKeyCode(SplitOn(s, '-')[|SplitOn(s, '-')| - 1]) == Some(code)
    requires modifiers == PrefixModifiers(SplitOn(s, '-'))
    ensures ParseCombination(s) == Some(KeyCombination(code, modifiers))
  {
  }

  lemma NotationNotDash(k: KeyCombination)
    requires Expressible(k)
    requires !(k.code == Char('-') && k.modifiers == {})
    ensures Notation(k) != "-"
  {
    var parts := ModifierWords(k.modifiers) + [KeyName(k.code)];
    SplitNotation(k);
    assert SplitOn("-", '-') == [[], []];
    assert parts[|parts| - 1] != [];
  }

  /** Printing an expressible combination and parsing the text gives it back. */
  lemma ParseNotation(k: KeyCombination)
    requires Expressible(k)
    ensures ParseCombination(Notation(k)) == Some(k)
  {
    if !(k.code == Char('-') && k.modifiers == {}) {
      var words := ModifierWords(k.modifiers);
      var parts := words + [KeyName(k.code)];
      SplitNotation(k);
      NotationNotDash(k);
      ParseKeyName(k.code);
      if |parts| > 1 {
        assert parts[..|parts| - 1] == words;
        ModifiersOfWords(k.modifiers);
      } else {
        SplitModifiers(k.modifiers);
      }
      ParseParts(Notation(k), k.code, k.modifiers);
    }
  }

  /* ---------------------------------------------------------------------- */
  /* The keymap                                                             */

  type Table = map<KeyCombination, Action>

  /** `Keymap`: one table per mode; a mode without a table resolves nothing. */
  datatype Keymap = Keymap(mappings: map<Mode, Table>)

  /** The table for `mode`, or an empty one (`entry(mode).or_default()`). */
  function TableOf(km: Keymap, mode: Mode): Table {
    if mode in km.mappings then km.mappings[mode] else map[]
  }

  /** `mappings.get(&mode)?.get(&combo)`. */
  function Lookup(km: Keymap, mode: Mode, combo: KeyCombination): (r: Option<Action>)
    ensures r.Some? <==> mode in km.mappings && combo in km.mappings[mode]
    ensures r.Some? ==> r.value == km.mappings[mode][combo]
  {
    if mode in km.mappings && combo in km.mappings[mode] then Some(km.mappings[mode][combo]) else None
  }

  /** `Keymap::get_action`: an exact lookup of the event's code and modifiers. */
  function GetAction(km: Keymap, mode: Mode, e: KeyEvent): Option<Action> {
    Lookup(km, mode, FromEvent(e))
  }

  /** `mappings.entry(mode).or_default().insert(combo, action)`: overwrites or
      adds exactly one entry, creating the mode's table when it is missing. */
  function Bind(km: Keymap, mode: Mode, combo: KeyCombination, action: Action): (r: Keymap)
    ensures r.mappings.Keys == km.mappings.Keys + {mode}
    ensures Lookup(r, mode, combo) == Some(action)
    ensures forall m, k :: (m != mode || k != combo) ==> Lookup(r, m, k) == Lookup(km, m, k)
  {
    Keymap(km.mappings[mode := TableOf(km, mode)[combo := action]])
  }

  function Plain(c: char): KeyCombination {
    KeyCombination(Char(c), {})
  }

  function Ctrl(c: char): KeyCombination {
    KeyCombination(Char(c), {Control})
  }

  function Bare(code: KeyCode): KeyCombination {
    KeyCombination(code, {})
  }

  lemma ParsePlain(s: string, code: KeyCode)
    requires s != "-" && '-' !in s
    requires ParseKeyCode(s) == Some(code)
    ensures ParseCombination(s) == Some(KeyCombination(code, {}))
  {
    SplitSingle(s, '-');
  }

  lemma ParseChar(c: char)
    requires c != '-' && c != ' ' && IsAscii(c) && !('A' <= c <= 'Z')
    ensures ParseCombination([c]) == Some(Plain(c))
  {
    assert KeyName(Char(c)) == [c];
    ParseKeyName(Char(c));
    ParsePlain([c], Char(c));
  }

  lemma ParseCtrl(c: char)
    requires c != '-' && c != ' ' && IsAscii(c) && !('A' <= c <= 'Z')
    ensures ParseCombination("ctrl-" + [c]) == Some(Ctrl(c))
  {
    var k := Ctrl(c);
    assert ModifierWords(k.modifiers) == ["ctrl"];
    assert ModifierWords(k.modifiers) + [KeyName(k.code)] == ["ctrl", [c]];
    assert Join(["ctrl", [c]], "-") == "ctrl" + "-" + [c];
    assert Notation(k) == "ctrl-" + [c];
    ParseNotation(k);
  }

  /** The default notations that name a single lower-case character. */
  lemma DefaultCharNotations()
    ensures ParseCombination("j") == Some(Plain('j'))
    ensures ParseCombination("k") == Some(Plain('k'))
    ensures ParseCombination("i") == Some(Plain('i'))
    ensures ParseCombination("o") == Some(Plain('o'))
    ensures ParseCombination("d") == Some(Plain('d'))
    ensures ParseCombination("v") == Some(Plain('v'))
    ensures ParseCombination("r") == Some(Plain('r'))
    ensures ParseCombination(":") == Some(Plain(':'))
    ensures ParseCombination("+") == Some(Plain('+'))
    ensures ParseCombination("u") == Some(Plain('u'))
    ensures ParseCombination("p") == Some(Plain('p'))
    ensures ParseCombination("y") == Some(Plain('y'))
    ensures ParseCombination("q") == Some(Plain('q'))
  {
    ParseChar('j');
    ParseChar('k');
    ParseChar('i');
    ParseChar('o');
    ParseChar('d');
    ParseChar('v');
    ParseChar('r');
    ParseChar(':');
    ParseChar('+');
    ParseChar('u');
    ParseChar('p');
    ParseChar('y');
    ParseChar('q');
  }

  /** "G" and "O" are lower-cased: they name plain 'g' and plain 'o'. */
  lemma DefaultUpperNotations()
    ensures ParseCombination("G") == Some(Plain('g'))
    ensures ParseCombination("O") == Some(Plain('o'))
  {
    ParseIgnoresCase("G");
    ParseIgnoresCase("O");
    assert ToLower("G") == "g";
    assert ToLower("O") == "o";
    ParseChar('g');
    ParseChar('o');
  }

  lemma DefaultCtrlNotations()
    ensures ParseCombination("ctrl-d") == Some(Ctrl('d'))
    ensures ParseCombination("ctrl-u") == Some(Ctrl('u'))
    ensures ParseCombination("ctrl-r") == Some(Ctrl('r'))
  {
    ParseCtrl('d');
    assert "ctrl-" + ['d'] == "ctrl-d";
    ParseCtrl('u');
    assert "ctrl-" + ['u'] == "ctrl-u";
    ParseCtrl('r');
    assert "ctrl-" + ['r'] == "ctrl-r";
  }

  lemma DefaultNamedNotations()
    ensures ParseCombination("enter") == Some(Bare(Enter))
    ensures ParseCombination("esc") == Some(Bare(Esc))
    ensures ParseCombination("-") == Some(Plain('-'))
  {
    ParseEnter();
    ParseEsc();
  }

  lemma ParseEnter()
    ensures ParseCombination("enter") == Some(Bare(Enter))
  {
    ParseKeyName(Enter);
    ParsePlain("enter", Enter);
  }

  lemma ParseEsc()
    ensures ParseCombination("esc") == Some(Bare(Esc))
  {
    ParseKeyName(Esc);
    ParsePlain("esc", Esc);
  }

  /** `Keymap::add_defaults`: extends the Normal, Visual and Stats tables by
      inserting the default bindings in the order the source lists them, so a
      later binding of the same combination replaces an earlier one.  The
      tables below are the parsed forms of `NormalBindings`,
      `VisualBindings` and `StatsBindings`: `NormalBindingsParse`,
      `VisualBindingsParse` and `StatsBindingsParse` prove that folding
      those lists through `ParseCombination` gives them, so every notation
      parses and the source's `expect` never fires. */
  function AddDefaults(km: Keymap): Keymap {
    var km1 := Keymap(km.mappings[Normal := NormalDefaults(TableOf(km, Normal))]);
    var km2 := Keymap(km1.mappings[Visual := VisualDefaults(TableOf(km1, Visual))]);
    Keymap(km2.mappings[Stats := StatsDefaults(TableOf(km2, Stats))])
  }

  function NormalDefaults(t: Table): Table {
    t
    [Plain('j') := MoveDown]              // "j"
    [Plain('k') := MoveUp]                // "k"
    [Plain('g') := MoveToBottom]          // "G"
    [Ctrl('d') := PageDown]               // "ctrl-d"
    [Ctrl('u') := PageUp]                 // "ctrl-u"
    [Plain('i') := EnterInsert]           // "i"
    [Plain('o') := EnterInsertBelow]      // "o"
    [Plain('o') := EnterInsertAbove]      // "O"
    [Plain('d') := Delete]                // "d"
    [Plain('v') := EnterVisual]           // "v"
    [Plain('r') := EnterInsert]           // "r"
    [Plain(':') := EnterCommand]          // ":"
    [Bare(Enter) := CycleStatus]          // "enter"
    [Plain('+') := IncreasePriority]      // "+"
    [Plain('-') := DecreasePriority]      // "-"
    [Plain('u') := Undo]                  // "u"
    [Ctrl('r') := Redo]                   // "ctrl-r"
    [Plain('p') := Paste]                 // "p"
    [Plain('y') := Yank]                  // "y"
    [Plain('q') := Quit]                  // "q"
  }

  function VisualDefaults(t: Table): Table {
    t
    [Plain('j') := MoveDown]              // "j"
    [Plain('k') := MoveUp]                // "k"
    [Plain('d') := Delete]                // "d"
    [Bare(Esc) := Cancel]                 // "esc"
  }

  function StatsDefaults(t: Table): Table {
    t
    [Plain('q') := Cancel]                // "q"
    [Bare(Esc) := Cancel]                 // "esc"
  }

  /** The default bindings as `add_defaults` lists them: a notation and the
      action it runs, in insertion order. */
  const NormalBindings: seq<(string, Action)> := [
    ("j", MoveDown), ("k", MoveUp), ("G", MoveToBottom), ("ctrl-d", PageDown),
    ("ctrl-u", PageUp), ("i", EnterInsert), ("o", EnterInsertBelow),
    ("O", EnterInsertAbove), ("d", Delete), ("v", EnterVisual), ("r", EnterInsert),
    (":", EnterCommand), ("enter", CycleStatus), ("+", IncreasePriority),
    ("-", DecreasePriority), ("u", Undo), ("ctrl-r", Redo), ("p", Paste),
    ("y", Yank), ("q", Quit)]

  const VisualBindings: seq<(string, Action)> :=
    [("j", MoveDown), ("k", MoveUp), ("d", Delete), ("esc", Cancel)]

  const StatsBindings: seq<(string, Action)> := [("q", Cancel), ("esc", Cancel)]

  /** The loop of `add_defaults`: parses each notation and inserts its
      binding, later bindings replacing earlier ones; `None` where the
      source's `expect` would abort. */
  function InsertParsed(t: Table, binds: seq<(string, Action)>): (r: Option<Table>)
    ensures r.Some? <==> forall i :: 0 <= i < |binds| ==> ParseCombination(binds[i].0).Some?
    ensures r.Some? ==> t.Keys <= r.value.Keys
    decreases |binds|
  {
    if binds == [] then Some(t)
    else match ParseCombination(binds[0].0)
      case None => None
      case Some(k) =>
        var r := InsertParsed(t[k := binds[0].1], binds[1..]);
        assert forall i :: 1 <= i < |binds| ==> binds[i] == binds[1..][i - 1];
        r
  }

  lemma InsertFirst(t: Table, n: string, a: Action, k: KeyCombination, rest: seq<(string, Action)>)
    requires ParseCombination(n) == Some(k)
    ensures InsertParsed(t, [(n, a)] + rest) == InsertParsed(t[k := a], rest)
  {
    assert ([(n, a)] + rest)[1..] == rest;
  }

  /** Inserting two lists of bindings is inserting the first, then the
      second. */
  lemma {:induction false} InsertParsedAppend(t: Table, a: seq<(string, Action)>, b: seq<(string, Action)>)
    ensures InsertParsed(t, a + b) ==
      if InsertParsed(t, a).Some? then InsertParsed(InsertParsed(t, a).value, b) else None
    decreases |a|
  {
    if a == [] {
      assert a + b == b;
    } else {
      assert (a + b)[0] == a[0] && (a + b)[1..] == a[1..] + b;
      match ParseCombination(a[0].0)
      case None =>
      case Some(k) => InsertParsedAppend(t[k := a[0].1], a[1..], b);
    }
  }

  lemma NormalBindings1(t: Table)
    ensures InsertParsed(t, NormalBindings[..5]) ==
      Some(t[Plain('j') := MoveDown][Plain('k') := MoveUp][Plain('g') := MoveToBottom]
            [Ctrl('d') := PageDown][Ctrl('u') := PageUp])
  {
    var b := NormalBindings[..5];
    assert b == [("j", MoveDown), ("k", MoveUp), ("G", MoveToBottom), ("ctrl-d", PageDown), ("ctrl-u", PageUp)];
    assert b == [("j", MoveDown)] + b[1..];
    assert b[1..] == [("k", MoveUp)] + b[2..];
    assert b[2..] == [("G", MoveToBottom)] + b[3..];
    assert b[3..] == [("ctrl-d", PageDown)] + b[4..];
    assert b[4..] == [("ctrl-u", PageUp)] + b[5..];
    assert b[5..] == [];
    DefaultCharNotations();
    DefaultUpperNotations();
    DefaultCtrlNotations();
    InsertFirst(t, "j", MoveDown, Plain('j'), b[1..]);
    var t1 := t[Plain('j') := MoveDown];
    InsertFirst(t1, "k", MoveUp, Plain('k'), b[2..]);
    var t2 := t1[Plain('k') := MoveUp];
    InsertFirst(t2, "G", MoveToBottom, Plain('g'), b[3..]);
    var t3 := t2[Plain('g') := MoveToBottom];
    InsertFirst(t3, "ctrl-d", PageDown, Ctrl('d'), b[4..]);
    InsertFirst(t3[Ctrl('d') := PageDown], "ctrl-u", PageUp, Ctrl('u'), b[5..]);
  }

  lemma NormalBindings2(t: Table)
    ensures InsertParsed(t, NormalBindings[5..10]) ==
      Some(t[Plain('i') := EnterInsert][Plain('o') := EnterInsertBelow]
            [Plain('o') := EnterInsertAbove][Plain('d') := Delete][Plain('v') := EnterVisual])
  {
    var b := NormalBindings[5..10];
    assert b == [("i", EnterInsert), ("o", EnterInsertBelow), ("O", EnterInsertAbove), ("d", Delete), ("v", EnterVisual)];
    assert b == [("i", EnterInsert)] + b[1..];
    assert b[1..] == [("o", EnterInsertBelow)] + b[2..];
    assert b[2..] == [("O", EnterInsertAbove)] + b[3..];
    assert b[3..] == [("d", Delete)] + b[4..];
    assert b[4..] == [("v", EnterVisual)] + b[5..];
    assert b[5..] == [];
    DefaultCharNotations();
    DefaultUpperNotations();
    InsertFirst(t, "i", EnterInsert, Plain('i'), b[1..]);
    var t1 := t[Plain('i') := EnterInsert];
    InsertFirst(t1, "o", EnterInsertBelow, Plain('o'), b[2..]);
    var t2 := t1[Plain('o') := EnterInsertBelow];
    InsertFirst(t2, "O", EnterInsertAbove, Plain('o'), b[3..]);
    var t3 := t2[Plain('o') := EnterInsertAbove];
    InsertFirst(t3, "d", Delete, Plain('d'), b[4..]);
    InsertFirst(t3[Plain('d') := Delete], "v", EnterVisual, Plain('v'), b[5..]);
  }

  lemma NormalBindings3(t: Table)
    ensures InsertParsed(t, NormalBindings[10..15]) ==
      Some(t[Plain('r') := EnterInsert][Plain(':') := EnterCommand][Bare(Enter) := CycleStatus]
            [Plain('+') := IncreasePriority][Plain('-') := DecreasePriority])
  {
    var b := NormalBindings[10..15];
    assert b == [("r", EnterInsert), (":", EnterCommand), ("enter", CycleStatus), ("+", IncreasePriority), ("-", DecreasePriority)];
    assert b == [("r", EnterInsert)] + b[1..];
    assert b[1..] == [(":", EnterCommand)] + b[2..];
    assert b[2..] == [("enter", CycleStatus)] + b[3..];
    assert b[3..] == [("+", IncreasePriority)] + b[4..];
    assert b[4..] == [("-", DecreasePriority)] + b[5..];
    assert b[5..] == [];
    DefaultCharNotations();
    DefaultNamedNotations();
    InsertFirst(t, "r", EnterInsert, Plain('r'), b[1..]);
    var t1 := t[Plain('r') := EnterInsert];
    InsertFirst(t1, ":", EnterCommand, Plain(':'), b[2..]);
    var t2 := t1[Plain(':') := EnterCommand];
    InsertFirst(t2, "enter", CycleStatus, Bare(Enter), b[3..]);
    var t3 := t2[Bare(Enter) := CycleStatus];
    InsertFirst(t3, "+", IncreasePriority, Plain('+'), b[4..]);
    InsertFirst(t3[Plain('+') := IncreasePriority], "-", DecreasePriority, Plain('-'), b[5..]);
  }

  lemma NormalBindings4(t: Table)
    ensures InsertParsed(t, NormalBindings[15..]) ==
      Some(t[Plain('u') := Undo][Ctrl('r') := Redo][Plain('p') := Paste]
            [Plain('y') := Yank][Plain('q') := Quit])
  {
    var b := NormalBindings[15..];
    assert b == [("u", Undo), ("ctrl-r", Redo), ("p", Paste), ("y", Yank), ("q", Quit)];
    assert b == [("u", Undo)] + b[1..];
    assert b[1..] == [("ctrl-r", Redo)] + b[2..];
    assert b[2..] == [("p", Paste)] + b[3..];
    assert b[3..] == [("y", Yank)] + b[4..];
    assert b[4..] == [("q", Quit)] + b[5..];
    assert b[5..] == [];
    DefaultCharNotations();
    DefaultCtrlNotations();
    InsertFirst(t, "u", Undo, Plain('u'), b[1..]);
    var t1 := t[Plain('u') := Undo];
    InsertFirst(t1, "ctrl-r", Redo, Ctrl('r'), b[2..]);
    var t2 := t1[Ctrl('r') := Redo];
    InsertFirst(t2, "p", Paste, Plain('p'), b[3..]);
    var t3 := t2[Plain('p') := Paste];
    InsertFirst(t3, "y", Yank, Plain('y'), b[4..]);
    InsertFirst(t3[Plain('y') := Yank], "q", Quit, Plain('q'), b[5..]);
  }

  /** Folding the listed Normal bindings through the parser gives
      `NormalDefaults`: every notation parses, to the combination the table
      binds. */
  lemma NormalBindingsParse(t: Table)
    ensures InsertParsed(t, NormalBindings) == Some(NormalDefaults(t))
  {
    var b := NormalBindings;
    assert b == b[..5] + b[5..10] + b[10..15] + b[15..];
    InsertParsedAppend(t, b[..5] + b[5..10] + b[10..15], b[15..]);
    InsertParsedAppend(t, b[..5] + b[5..10], b[10..15]);
    InsertParsedAppend(t, b[..5], b[5..10]);
    NormalBindings1(t);
    var t1 := InsertParsed(t, b[..5]).value;
    NormalBindings2(t1);
    var t2 := InsertParsed(t1, b[5..10]).value;
    NormalBindings3(t2);
    var t3 := InsertParsed(t2, b[10..15]).value;
    NormalBindings4(t3);
  }

  lemma VisualBindingsParse(t: Table)
    ensures InsertParsed(t, VisualBindings) == Some(VisualDefaults(t))
  {
    DefaultCharNotations();
    DefaultNamedNotations();
    var b := VisualBindings;
    InsertFirst(t, "j", MoveDown, Plain('j'), b[1..]);
    var t1 := t[Plain('j') := MoveDown];
    InsertFirst(t1, "k", MoveUp, Plain('k'), b[2..]);
    var t2 := t1[Plain('k') := MoveUp];
    InsertFirst(t2, "d", Delete, Plain('d'), b[3..]);
    var t3 := t2[Plain('d') := Delete];
    InsertFirst(t3, "esc", Cancel, Bare(Esc), b[4..]);
  }

  lemma StatsBindingsParse(t: Table)
    ensures InsertParsed(t, StatsBindings) == Some(StatsDefaults(t))
  {
    DefaultCharNotations();
    DefaultNamedNotations();
    var b := StatsBindings;
    InsertFirst(t, "q", Cancel, Plain('q'), b[1..]);
    InsertFirst(t[Plain('q') := Cancel], "esc", Cancel, Bare(Esc), b[2..]);
  }

  /** `Keymap::new`: the defaults over an empty keymap. */
  function NewKeymap(): Keymap {
    AddDefaults(Keymap(map[]))
  }

  /** The table `Keymap::new` gives each mode. */
  function DefaultTable(mode: Mode): Table {
    match mode
    case Normal => NormalDefaults(map[])
    case Visual => VisualDefaults(map[])
    case Stats => StatsDefaults(map[])
    case _ => map[]
  }

  /** Only Normal, Visual and Stats receive a default table, and each holds
      exactly the defaults listed for its mode. */
  lemma DefaultModes()
    ensures NewKeymap().mappings.Keys == {Normal, Visual, Stats}
    ensures forall mode :: TableOf(NewKeymap(), mode) == DefaultTable(mode)
  {
  }

  /** A lookup in the default keymap is a lookup in the mode's default table. */
  lemma DefaultLookup(mode: Mode, k: KeyCombination)
    ensures Lookup(NewKeymap(), mode, k) ==
      (if k in DefaultTable(mode) then Some(DefaultTable(mode)[k]) else None)
  {
    DefaultModes();
  }

  /** Later defaults overwrite earlier ones: "G" lower-cases to 'g', so plain
      'g' moves to the bottom, and "O" replaces "o", so plain 'o' opens a line
      above. */
  lemma DefaultNormalOverrides()
    ensures DefaultTable(Normal)[Plain('g')] == MoveToBottom
    ensures DefaultTable(Normal)[Plain('o')] == EnterInsertAbove
  {
  }

  /** Upper-case 'G' as the terminal reports it, with or without shift, is
      not bound at all. */
  lemma DefaultUpperUnbound()
    ensures KeyCombination(Char('G'), {Shift}) !in DefaultTable(Normal)
    ensures Plain('G') !in DefaultTable(Normal)
  {
  }

  /** Lookup is exact on the modifiers: ctrl-d pages down, plain d deletes,
      alt-d does nothing. */
  lemma DefaultNormalExact()
    ensures DefaultTable(Normal)[Ctrl('d')] == PageDown
    ensures DefaultTable(Normal)[Plain('d')] == Delete
    ensures KeyCombination(Char('d'), {Alt}) !in DefaultTable(Normal)
  {
  }

  lemma DefaultNormalNamed()
    ensures DefaultTable(Normal)[Bare(Enter)] == CycleStatus
    ensures DefaultTable(Normal)[Plain('-')] == DecreasePriority
    ensures DefaultTable(Normal)[Ctrl('r')] == Redo
    ensures DefaultTable(Normal)[Plain('q')] == Quit
  {
  }

  lemma DefaultNormalUnbound()
    ensures Plain('t') !in DefaultTable(Normal)
    ensures Plain('z') !in DefaultTable(Normal)
    ensures Bare(Esc) !in DefaultTable(Normal)
  {
  }

  lemma DefaultVisual()
    ensures DefaultTable(Visual)[Plain('j')] == MoveDown
    ensures DefaultTable(Visual)[Plain('k')] == MoveUp
    ensures DefaultTable(Visual)[Plain('d')] == Delete
    ensures DefaultTable(Visual)[Bare(Esc)] == Cancel
    ensures Plain('g') !in DefaultTable(Visual)
  {
  }

  lemma DefaultStats()
    ensures DefaultTable(Stats)[Plain('q')] == Cancel
    ensures DefaultTable(Stats)[Bare(Esc)] == Cancel
    ensures Plain('j') !in DefaultTable(Stats)
  {
  }

  /** The press/repeat/release kind of an event plays no part in resolution. */
  lemma GetActionIgnoresKind(km: Keymap, mode: Mode, e: KeyEvent, kind: KeyEventKind)
    ensures GetAction(km, mode, e.(kind := kind)) == GetAction(km, mode, e)
  {
  }
}
