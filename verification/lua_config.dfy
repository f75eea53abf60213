/** The configuration the user's Lua script edits (`src/config/lua.rs`):
    the defaults, the three `set.*` setters and the `map(mode, key, action)`
    binding function, each as a pure update of the configuration record.
    Running the script is left to the interpreter; only the effect of each
    call it makes is modelled. */
module LuaConfig {
  import opened Common
  import opened Modes
  import opened Actions
  import opened Keymaps

  /** Lua numbers reach `set.default_priority` already converted to `i32`. */
  newtype I32 = x: int | -0x8000_0000 <= x < 0x8000_0000

  datatype Config = Config(theme: string, defaultPriority: I32, showSidebar: bool, keymap: Keymap)

  /** `Config::default`. */
  function DefaultConfig(): (c: Config)
    ensures c.theme == "default" && c.defaultPriority == 3 && c.showSidebar
    ensures forall mode, k :: Lookup(c.keymap, mode, k) == Lookup(NewKeymap(), mode, k)
  {
    Config("default", 3, true, NewKeymap())
  }

  /** `set.theme`. */
  function SetTheme(c: Config, theme: string): (r: Config)
    ensures r.theme == theme
    ensures r.defaultPriority == c.defaultPriority && r.showSidebar == c.showSidebar && r.keymap == c.keymap
  {
    c.(theme := theme)
  }

  /** `set.default_priority`. */
  function SetDefaultPriority(c: Config, priority: I32): (r: Config)
    ensures r.defaultPriority == priority
    ensures r.theme == c.theme && r.showSidebar == c.showSidebar && r.keymap == c.keymap
  {
    c.(defaultPriority := priority)
  }

  /** `set.sidebar`. */
  function SetSidebar(c: Config, show: bool): (r: Config)
    ensures r.showSidebar == show
    ensures r.theme == c.theme && r.defaultPriority == c.defaultPriority && r.keymap == c.keymap
  {
    c.(showSidebar := show)
  }

  /** Each setter overwrites its field: a second call wins, and setters of
      different fields commute. */
  lemma SettersLastWins(c: Config, t1: string, t2: string, p1: I32, p2: I32, b1: bool, b2: bool)
    ensures SetTheme(SetTheme(c, t1), t2) == SetTheme(c, t2)
    ensures SetDefaultPriority(SetDefaultPriority(c, p1), p2) == SetDefaultPriority(c, p2)
    ensures SetSidebar(SetSidebar(c, b1), b2) == SetSidebar(c, b2)
    ensures SetTheme(SetDefaultPriority(c, p1), t1) == SetDefaultPriority(SetTheme(c, t1), p1)
    ensures SetTheme(SetSidebar(c, b1), t1) == SetSidebar(SetTheme(c, t1), b1)
    ensures SetDefaultPriority(SetSidebar(c, b1), p1) == SetSidebar(SetDefaultPriority(c, p1), b1)
  {
  }

  /** The mode names `map` accepts. */
  const ModeNames: set<string> := {"n", "normal", "v", "visual", "s", "stats"}

  /** The mode a name selects; only modes with a default table are named. */
  function ModeOf(name: string): (r: Option<Mode>)
    ensures r.Some? <==> name in ModeNames
    ensures r.Some? ==> r.value in {Normal, Visual, Stats}
  {
    match name
    case "n" => Some(Normal)
    case "normal" => Some(Normal)
    case "v" => Some(Visual)
    case "visual" => Some(Visual)
    case "s" => Some(Stats)
    case "stats" => Some(Stats)
    case _ => None
  }

  /** Each mode has a one-letter and a full name. */
  lemma ModeNamesAgree()
    ensures ModeOf("n") == ModeOf("normal") == Some(Normal)
    ensures ModeOf("v") == ModeOf("visual") == Some(Visual)
    ensures ModeOf("s") == ModeOf("stats") == Some(Stats)
  {
  }

  /** `map(mode, key, action)`: a call with an unknown mode, a key that does
      not parse or an unknown action changes nothing; otherwise it binds the
      key in that mode's table and leaves everything else as it was. */
  function Map(c: Config, modeName: string, key: string, action: string): (r: Config)
    ensures ModeOf(modeName).None? || ParseCombination(key).None? || ParseAction(action).None? ==> r == c
    ensures r.theme == c.theme && r.defaultPriority == c.defaultPriority && r.showSidebar == c.showSidebar
    ensures ModeOf(modeName).Some? && ParseCombination(key).Some? && ParseAction(action).Some? ==>
      && Lookup(r.keymap, ModeOf(modeName).value, ParseCombination(key).value) == ParseAction(action)
      && (forall m, k :: (m != ModeOf(modeName).value || k != ParseCombination(key).value) ==>
            Lookup(r.keymap, m, k) == Lookup(c.keymap, m, k))
  {
    match ModeOf(modeName)
    case None => c
    case Some(mode) =>
      match ParseCombination(key)
      case None => c
      case Some(combo) =>
        match ParseAction(action)
        case None => c
        case Some(a) => c.(keymap := Bind(c.keymap, mode, combo, a))
  }

  /** Repeating a `map` call changes nothing more. */
  lemma MapIdempotent(c: Config, modeName: string, key: string, action: string)
    ensures Map(Map(c, modeName, key, action), modeName, key, action) == Map(c, modeName, key, action)
  {
    var r := Map(c, modeName, key, action);
    if ModeOf(modeName).Some? && ParseCombination(key).Some? && ParseAction(action).Some? {
      var mode := ModeOf(modeName).value;
      var combo := ParseCombination(key).value;
      assert TableOf(r.keymap, mode)[combo := ParseAction(action).value] == TableOf(r.keymap, mode);
      assert r.keymap.mappings[mode := TableOf(r.keymap, mode)] == r.keymap.mappings;
    }
  }

  /** Of two `map` calls for the same key in the same mode, the later one
      decides the binding. */
  lemma MapLastWins(c: Config, modeName: string, key: string, a1: string, a2: string)
    requires ParseAction(a2).Some?
    ensures Map(Map(c, modeName, key, a1), modeName, key, a2) == Map(c, modeName, key, a2)
  {
    if ModeOf(modeName).Some? && ParseCombination(key).Some? && ParseAction(a1).Some? {
      var mode := ModeOf(modeName).value;
      var combo := ParseCombination(key).value;
      var t := TableOf(c.keymap, mode);
      assert t[combo := ParseAction(a1).value][combo := ParseAction(a2).value] == t[combo := ParseAction(a2).value];
    }
  }

  /** The short and long mode names bind the same table. */
  lemma MapModeAliases(c: Config, key: string, action: string)
    ensures Map(c, "n", key, action) == Map(c, "normal", key, action)
    ensures Map(c, "v", key, action) == Map(c, "visual", key, action)
    ensures Map(c, "s", key, action) == Map(c, "stats", key, action)
  {
    ModeNamesAgree();
  }

  /** No `map` call reaches the Insert, Command or Filter tables. */
  lemma MapNeverBindsTextModes(c: Config, modeName: string, key: string, action: string, k: KeyCombination)
    ensures forall m :: m in {Insert, Command, Filter} ==>
      Lookup(Map(c, modeName, key, action).keymap, m, k) == Lookup(c.keymap, m, k)
  {
  }

  /** A `map` call whose three arguments are all recognised binds its key. */
  lemma MapBinds(c: Config, modeName: string, key: string, action: string,
                 mode: Mode, combo: KeyCombination, a: Action)
    requires ModeOf(modeName) == Some(mode)
    requires ParseCombination(key) == Some(combo)
    requires ParseAction(action) == Some(a)
    ensures Lookup(Map(c, modeName, key, action).keymap, mode, combo) == Some(a)
    ensures forall k :: k != combo ==>
      Lookup(Map(c, modeName, key, action).keymap, mode, k) == Lookup(c.keymap, mode, k)
  {
  }

  /** `map("n", "ctrl-d", "quit")` over the defaults makes ctrl-d quit in
      Normal mode and leaves plain d deleting. */
  lemma MapExample()
    ensures Lookup(Map(DefaultConfig(), "n", "ctrl-d", "quit").keymap, Normal, Ctrl('d')) == Some(Quit)
    ensures Lookup(Map(DefaultConfig(), "n", "ctrl-d", "quit").keymap, Normal, Plain('d')) == Some(Delete)
  {
    var c := DefaultConfig();
    DefaultCtrlNotations();
    assert ParseAction("quit") == Some(Quit);
    assert ModeOf("n") == Some(Normal);
    MapBinds(c, "n", "ctrl-d", "quit", Normal, Ctrl('d'), Quit);
    DefaultNormalExact();
    DefaultLookup(Normal, Plain('d'));
  }

  /** An unknown action or mode name leaves the defaults as they were. */
  lemma MapIgnoresExample()
    ensures Map(DefaultConfig(), "normal", "ctrl-d", "nonsense") == DefaultConfig()
    ensures Map(DefaultConfig(), "i", "ctrl-d", "quit") == DefaultConfig()
  {
    assert ParseAction("nonsense") == None;
    assert ModeOf("i") == None;
  }
}
