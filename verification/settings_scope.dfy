/**
  Settings scopes (src/config/scope.rs): which settings belong to this Device and which to the Host, and the
  filter that writes each to its own file.
 */
module SettingsScope {
  import opened Wrappers

  datatype Scope = Device | Host | Project

  datatype GeneralSetting = Language | UiFontFamily | UiFontSize | UiLineHeight | OnboardingCompleted
    | AutoCheckUpdates | RestoreLastSession | NewTabCommandPickerEnabled | NewTabCommands
  datatype WindowSetting = Effect | Opacity
  datatype ThemeSetting = Name | UiStyle | Terminal | IconTheme
  datatype NotificationsSetting = System
  datatype AgentSetting = Primary | SessionsEnabled | AdditionalSessionAgents
  datatype TerminalSetting = Shell | CustomShells | Environment | FontFamily | FontSize | LineHeight | Padding
    | Scrollback | ShowScrollbar | CursorShape | CursorBlinking | CursorBlinkIntervalMs | CursorBlinkTimeoutSecs
    | CursorUnfocusedHollow | CursorThickness | HideMouseWhenTyping | CopyOnSelect | SemanticEscapeChars
    | Osc52Policy | KittyKeyboard | HintAlphabet | Hints
  datatype EditorSetting = FontFamily | FontSize | LineHeight | TabSize | SoftWrap | LineNumbers | Autosave
    | AutosaveDelayMs | AutoDetectLanguage | DefaultLanguage | LspEnabled | LspCommand
  datatype VimSetting = Mode
  datatype ProjectPanelSetting = DefaultOpen | ShowHidden | Width | ProjectSidebarWidth | CollapsedAgentProjects

  /** The settings, section by section; the bars are one setting. */
  datatype Field =
    | General(general: GeneralSetting)
    | Window(window: WindowSetting)
    | Theme(theme: ThemeSetting)
    | Notifications(notifications: NotificationsSetting)
    | Agent(agent: AgentSetting)
    | Terminal(terminal: TerminalSetting)
    | Editor(editor: EditorSetting)
    | Vim(vim: VimSetting)
    | ProjectPanel(projectPanel: ProjectPanelSetting)
    | Bars

  function GeneralName(setting: GeneralSetting): string {
    match setting
    case Language => "language"
    case UiFontFamily => "ui_font_family"
    case UiFontSize => "ui_font_size"
    case UiLineHeight => "ui_line_height"
    case OnboardingCompleted => "onboarding_completed"
    case AutoCheckUpdates => "auto_check_updates"
    case RestoreLastSession => "restore_last_session"
    case NewTabCommandPickerEnabled => "new_tab_command_picker_enabled"
    case NewTabCommands => "new_tab_commands"
  }

  function WindowName(setting: WindowSetting): string {
    match setting
    case Effect => "effect"
    case Opacity => "opacity"
  }

  function ThemeName(setting: ThemeSetting): string {
    match setting
    case Name => "name"
    case UiStyle => "ui_style"
    case Terminal => "terminal"
    case IconTheme => "icon_theme"
  }

  function NotificationsName(setting: NotificationsSetting): string {
    match setting
    case System => "system"
  }

  function AgentName(setting: AgentSetting): string {
    match setting
    case Primary => "primary"
    case SessionsEnabled => "sessions_enabled"
    case AdditionalSessionAgents => "additional_session_agents"
  }

  function TerminalName(setting: TerminalSetting): string {
    match setting
    case Shell => "shell"
    case CustomShells => "custom_shells"
    case Environment => "environment"
    case FontFamily => "font_family"
    case FontSize => "font_size"
    case LineHeight => "line_height"
    case Padding => "padding"
    case Scrollback => "scrollback"
    case ShowScrollbar => "show_scrollbar"
    case CursorShape => "cursor_shape"
    case CursorBlinking => "cursor_blinking"
    case CursorBlinkIntervalMs => "cursor_blink_interval_ms"
    case CursorBlinkTimeoutSecs => "cursor_blink_timeout_secs"
    case CursorUnfocusedHollow => "cursor_unfocused_hollow"
    case CursorThickness => "cursor_thickness"
    case HideMouseWhenTyping => "hide_mouse_when_typing"
    case CopyOnSelect => "copy_on_select"
    case SemanticEscapeChars => "semantic_escape_chars"
    case Osc52Policy => "osc52_policy"
    case KittyKeyboard => "kitty_keyboard"
    case HintAlphabet => "hint_alphabet"
    case Hints => "hints"
  }

  function EditorName(setting: EditorSetting): string {
    match setting
    case FontFamily => "font_family"
    case FontSize => "font_size"
    case LineHeight => "line_height"
    case TabSize => "tab_size"
    case SoftWrap => "soft_wrap"
    case LineNumbers => "line_numbers"
    case Autosave => "autosave"
    case AutosaveDelayMs => "autosave_delay_ms"
    case AutoDetectLanguage => "auto_detect_language"
    case DefaultLanguage => "default_language"
    case LspEnabled => "lsp.enabled"
    case LspCommand => "lsp.command"
  }

  function VimName(setting: VimSetting): string {
    match setting
    case Mode => "mode"
  }

  function ProjectPanelName(setting: ProjectPanelSetting): string {
    match setting
    case DefaultOpen => "default_open"
    case ShowHidden => "show_hidden"
    case Width => "width"
    case ProjectSidebarWidth => "project_sidebar_width"
    case CollapsedAgentProjects => "collapsed_agent_projects"
  }

  /** The name of a setting (`SETTING_KEYS`). */
  function Key(field: Field): string {
    match field
    case General(setting) => "general." + GeneralName(setting)
    case Window(setting) => "window." + WindowName(setting)
    case Theme(setting) => "theme." + ThemeName(setting)
    case Notifications(setting) => "notifications." + NotificationsName(setting)
    case Agent(setting) => "agent." + AgentName(setting)
    case Terminal(setting) => "terminal." + TerminalName(setting)
    case Editor(setting) => "editor." + EditorName(setting)
    case Vim(setting) => "vim." + VimName(setting)
    case ProjectPanel(setting) => "project_panel." + ProjectPanelName(setting)
    case Bars => "bars"
  }

  const HOST_KEYS: seq<string> := [
    "general.new_tab_commands", "terminal.shell", "terminal.custom_shells", "terminal.environment",
    "terminal.scrollback", "terminal.kitty_keyboard", "editor.tab_size", "editor.auto_detect_language",
    "editor.default_language", "editor.lsp"
  ]

  function SettingScope(key: string): (scope: Scope)
    ensures scope != Project
  {
    if key in HOST_KEYS then Host
    else if || "agent." <= key || "terminal.environment." <= key
            || "default_layout." <= key || "editor.lsp." <= key then Host
    else Device
  }

  ghost predicate IsConcrete(path: string) {
    (exists field: Field :: path == Key(field)) || path == "editor.lsp"
  }

  /** A TOML value, as far as the filter looks into it. */
  datatype Value = Leaf(data: int) | Table(entries: map<string, Value>)

  function Join(prefix: string, key: string): string {
    if prefix == "" then key else prefix + "." + key
  }

  /** What becomes of one entry: a concrete setting is kept or dropped whole, and an emptied table is dropped. */
  ghost predicate Keeps(value: Value, path: string, scope: Scope)
    decreases value, 1
  {
    if IsConcrete(path) then SettingScope(path) == scope else Filter(value, path, scope) != Table(map[])
  }

  ghost function Filter(value: Value, prefix: string, scope: Scope): Value
    decreases value, 0
  {
    match value
    case Leaf(_) => value
    case Table(entries) =>
      Table(map key | key in entries && Keeps(entries[key], Join(prefix, key), scope) ::
        if IsConcrete(Join(prefix, key)) then entries[key] else Filter(entries[key], Join(prefix, key), scope))
  }

  lemma HostKeysStart(key: string)
    requires key in HOST_KEYS
    ensures |key| > 1 && key[0] in "gte" && key[1] in "ed"
  {
  }

  /** A key that starts like no Host key and like no Host section. */
  lemma StartsLikeNoHostKey(key: string)
    requires |key| > 1 && (key[0] !in "agted" || (key[0] == 't' && key[1] !in "ed"))
    ensures SettingScope(key) == Device
  {
    if key in HOST_KEYS { HostKeysStart(key); }
    assert "agent."[0] == 'a' && "terminal.environment."[0] == 't' && "default_layout."[0] == 'd'
        && "editor.lsp."[0] == 'e';
    assert "terminal.environment."[1] == 'e';
  }

  /** Whole sections belong to one scope, whatever settings they come to hold. */
  lemma SectionsHaveOneScope(key: string)
    ensures SettingScope("agent." + key) == Host && SettingScope("editor.lsp." + key) == Host
    ensures SettingScope("terminal.environment." + key) == Host && SettingScope("default_layout." + key) == Host
    ensures SettingScope("window." + key) == Device && SettingScope("theme." + key) == Device
    ensures SettingScope("vim." + key) == Device && SettingScope("notifications." + key) == Device
    ensures SettingScope("project_panel." + key) == Device
  {
    HostSections(key);
    hide SettingScope;
    StartsLikeNoHostKey("window." + key);
    StartsLikeNoHostKey("theme." + key);
    StartsLikeNoHostKey("vim." + key);
    StartsLikeNoHostKey("notifications." + key);
    StartsLikeNoHostKey("project_panel." + key);
  }

  lemma HostSections(key: string)
    ensures SettingScope("agent." + key) == Host && SettingScope("editor.lsp." + key) == Host
    ensures SettingScope("terminal.environment." + key) == Host && SettingScope("default_layout." + key) == Host
  {
    assert "terminal.environment." <= "terminal.environment." + key;
    assert "default_layout." <= "default_layout." + key;
    assert "agent." <= "agent." + key;
    assert "editor.lsp." <= "editor.lsp." + key;
  }

  // ---- What survives ----

  /** The leaf at the end of a path of keys. */
  function Lookup(value: Value, keys: seq<string>): Option<int>
    decreases |keys|
  {
    match value
    case Leaf(data) => if keys == [] then Some(data) else None
    case Table(entries) =>
      if keys != [] && keys[0] in entries then Lookup(entries[keys[0]], keys[1..]) else None
  }

  /** The scope of the first concrete setting on a path of keys. */
  ghost function Owner(prefix: string, keys: seq<string>): (owner: Option<Scope>)
    ensures owner != Some(Project)
    decreases |keys|
  {
    if keys == [] then None
    else
      var path := Join(prefix, keys[0]);
      if IsConcrete(path) then Some(SettingScope(path)) else Owner(path, keys[1..])
  }

  lemma KeyHasDot(field: Field)
    ensures field != Bars ==> '.' in Key(field)
    ensures Key(field) == "bars" <==> field == Bars
  {
    hide GeneralName, TerminalName, EditorName, AgentName, WindowName, ThemeName, NotificationsName, VimName;
    hide ProjectPanelName;
    match field {
      case General(setting) => assert Key(field)[7] == '.';
      case Window(setting) => assert Key(field)[6] == '.';
      case Theme(setting) => assert Key(field)[5] == '.';
      case Notifications(setting) => assert Key(field)[13] == '.';
      case Agent(setting) => assert Key(field)[5] == '.';
      case Terminal(setting) => assert Key(field)[8] == '.';
      case Editor(setting) => assert Key(field)[6] == '.';
      case Vim(setting) => assert Key(field)[3] == '.';
      case ProjectPanel(setting) => assert Key(field)[13] == '.';
      case Bars =>
    }
  }

  /** A section as a whole is no setting; the bars are. */
  lemma SectionsAreNoSettings(section: string)
    requires '.' !in section
    ensures IsConcrete(section) <==> section == "bars"
  {
    hide Key;
    assert "editor.lsp"[6] == '.';
    forall field: Field ensures Key(field) == section ==> section == "bars" { KeyHasDot(field); }
    if section == "bars" {
      KeyHasDot(Bars);
      assert Key(Bars) == section;
    }
  }

  /** What lies below a setting of a section, however deep, is that setting's. */
  lemma OwnedBySetting(section: string, name: string, below: seq<string>)
    requires section != "" && '.' !in section && section != "bars" && IsConcrete(section + "." + name)
    ensures Owner("", [section, name] + below) == Some(SettingScope(section + "." + name))
  {
    hide IsConcrete, SettingScope;
    SectionsAreNoSettings(section);
    var keys := [section, name] + below;
    assert keys[0] == section && keys[1..] == [name] + below && ([name] + below)[0] == name;
  }

  /** The table of the language server is one setting of the Host, with all that it holds. */
  lemma LanguageServerIsOneSetting(key: string, below: seq<string>)
    ensures Owner("", ["editor", "lsp", key] + below) == Some(Host)
  {
    hide Owner;
    assert "editor" + "." + "lsp" == "editor.lsp";
    assert IsConcrete("editor.lsp") && SettingScope("editor.lsp") == Host by { assert HOST_KEYS[9] == "editor.lsp"; }
    assert '.' !in "editor";
    OwnedBySetting("editor", "lsp", [key] + below);
    assert ["editor", "lsp"] + ([key] + below) == ["editor", "lsp", key] + below;
  }

  /** A leaf survives in its owner's scope, or everywhere when it has no owner; its path and value stay. */
  lemma {:induction false} LeafSurvivesInItsScope(value: Value, prefix: string, keys: seq<string>, scope: Scope)
    ensures var owner := Owner(prefix, keys);
            Lookup(Filter(value, prefix, scope), keys)
            == if owner == None || owner == Some(scope) then Lookup(value, keys) else None
    decreases |keys|
  {
    hide IsConcrete, SettingScope, Join;
    if value.Table? && keys != [] && keys[0] in value.entries {
      var path := Join(prefix, keys[0]);
      if !IsConcrete(path) {
        LeafSurvivesInItsScope(value.entries[keys[0]], path, keys[1..], scope);
      }
    }
  }

  /** Each leaf survives exactly one of the two filters if and only if it lies at or under a concrete setting. */
  lemma LeafSurvivesOnce(value: Value, keys: seq<string>)
    requires Lookup(value, keys).Some?
    ensures var device := Lookup(Filter(value, "", Device), keys);
            var host := Lookup(Filter(value, "", Host), keys);
            && (device == Lookup(value, keys) || host == Lookup(value, keys))
            && (device == None || host == None <==> Owner("", keys).Some?)
  {
    hide Owner, Filter;
    LeafSurvivesInItsScope(value, "", keys, Device);
    LeafSurvivesInItsScope(value, "", keys, Host);
    var owner := Owner("", keys);
    assert owner.Some? ==> owner.value == Device || owner.value == Host;
  }

  // ---- The two files together ----

  /** Every leaf lies at or under a concrete setting. */
  ghost predicate Covered(value: Value, prefix: string)
    decreases value
  {
    match value
    case Leaf(_) => false
    case Table(entries) =>
      forall key :: key in entries ==>
        IsConcrete(Join(prefix, key)) || Covered(entries[key], Join(prefix, key))
  }

  lemma {:induction false} CoveredLeavesHaveOwners(value: Value, prefix: string, keys: seq<string>)
    requires Covered(value, prefix) && Lookup(value, keys).Some?
    ensures Owner(prefix, keys).Some?
    decreases |keys|
  {
    hide IsConcrete, SettingScope, Join;
    var path := Join(prefix, keys[0]);
    if !IsConcrete(path) { CoveredLeavesHaveOwners(value.entries[keys[0]], path, keys[1..]); }
  }

  lemma {:induction false} StrayLeaf(value: Value, prefix: string) returns (keys: seq<string>)
    requires !Covered(value, prefix)
    ensures Lookup(value, keys).Some? && Owner(prefix, keys).None?
    decreases value
  {
    hide IsConcrete, SettingScope, Join;
    if value.Leaf? {
      keys := [];
    } else {
      var key :| key in value.entries
        && !(IsConcrete(Join(prefix, key)) || Covered(value.entries[key], Join(prefix, key)));
      var rest := StrayLeaf(value.entries[key], Join(prefix, key));
      keys := [key] + rest;
      assert keys[1..] == rest;
    }
  }

  ghost predicate EachLeafSurvivesOnce(value: Value) {
    forall keys :: Lookup(value, keys).Some? ==>
      (Lookup(Filter(value, "", Device), keys) == None <==> Lookup(Filter(value, "", Host), keys) != None)
  }

  /** The two filters are a partition of the leaves exactly when the tree is covered by concrete settings. */
  lemma FiltersPartitionLeaves(value: Value)
    ensures EachLeafSurvivesOnce(value) <==> Covered(value, "")
  {
    hide Filter, Owner, Covered, Lookup;
    if Covered(value, "") {
      forall keys | Lookup(value, keys).Some?
        ensures Lookup(Filter(value, "", Device), keys) == None <==> Lookup(Filter(value, "", Host), keys) != None
      {
        LeafSurvivesOnce(value, keys);
        CoveredLeavesHaveOwners(value, "", keys);
      }
    } else {
      var keys := StrayLeaf(value, "");
      LeafSurvivesOnce(value, keys);
    }
  }

  lemma {:induction false} FilterIsIdempotent(value: Value, prefix: string, scope: Scope)
    ensures Filter(Filter(value, prefix, scope), prefix, scope) == Filter(value, prefix, scope)
    decreases value
  {
    hide IsConcrete, SettingScope, Join;
    if value.Table? {
      forall key | key in value.entries && !IsConcrete(Join(prefix, key))
        ensures var path := Join(prefix, key);
                Filter(Filter(value.entries[key], path, scope), path, scope) == Filter(value.entries[key], path, scope)
      {
        FilterIsIdempotent(value.entries[key], Join(prefix, key), scope);
      }
      var once := Filter(value, prefix, scope);
      var twice := Filter(once, prefix, scope);
      forall key | key in once.entries ensures key in twice.entries && twice.entries[key] == once.entries[key] {
        var path := Join(prefix, key);
        assert Keeps(value.entries[key], path, scope);
        assert once.entries[key] ==
               if IsConcrete(path) then value.entries[key] else Filter(value.entries[key], path, scope);
        assert Keeps(once.entries[key], path, scope);
      }
      assert twice.entries == once.entries;
    }
  }

  /** Nothing of one scope's file belongs to the other scope. */
  lemma {:induction false} ScopesDoNotOverlap(value: Value, prefix: string, scope: Scope, other: Scope)
    requires Covered(value, prefix) && scope != other
    ensures Filter(Filter(value, prefix, scope), prefix, other) == Table(map[])
    decreases value
  {
    hide IsConcrete, SettingScope, Join;
    var once := Filter(value, prefix, scope);
    forall key | key in once.entries ensures !Keeps(once.entries[key], Join(prefix, key), other) {
      var path := Join(prefix, key);
      assert Keeps(value.entries[key], path, scope);
      if !IsConcrete(path) { ScopesDoNotOverlap(value.entries[key], path, scope, other); }
    }
    assert Filter(once, prefix, other).entries == map[];
  }

  /** Two trees laid over each other; where both have a leaf, the first wins. */
  function Merge(a: Value, b: Value): Value
    decreases a
  {
    if a.Leaf? || b.Leaf? then a
    else
      Table((map key | key in a.entries ::
               if key in b.entries then Merge(a.entries[key], b.entries[key]) else a.entries[key])
            + (map key | key in b.entries && key !in a.entries :: b.entries[key]))
  }

  lemma MergeWithNothing(value: Value)
    requires value.Table?
    ensures Merge(value, Table(map[])) == value && Merge(Table(map[]), value) == value
  {
    assert Merge(value, Table(map[])).entries == value.entries;
    assert Merge(Table(map[]), value).entries == value.entries;
  }

  /** No table outside the concrete settings is empty. */
  ghost predicate Solid(value: Value, prefix: string)
    decreases value
  {
    match value
    case Leaf(_) => true
    case Table(entries) =>
      forall key :: key in entries ==>
        || IsConcrete(Join(prefix, key))
        || (entries[key] != Table(map[]) && Solid(entries[key], Join(prefix, key)))
  }

  /** The entry that merging the two filtered tables gives for one key. */
  ghost function MergedEntry(value: Value, path: string): Option<Value> {
    var device := if IsConcrete(path) then value else Filter(value, path, Device);
    var host := if IsConcrete(path) then value else Filter(value, path, Host);
    if Keeps(value, path, Device) && Keeps(value, path, Host) then Some(Merge(device, host))
    else if Keeps(value, path, Device) then Some(device)
    else if Keeps(value, path, Host) then Some(host)
    else None
  }

  lemma MergedEntryIs(entries: map<string, Value>, prefix: string, key: string)
    requires key in entries
    ensures var merged := Merge(Filter(Table(entries), prefix, Device), Filter(Table(entries), prefix, Host));
            MergedEntry(entries[key], Join(prefix, key))
            == if key in merged.entries then Some(merged.entries[key]) else None
  {
    hide IsConcrete, SettingScope, Join;
  }

  lemma FilterOfTable(value: Value, prefix: string, scope: Scope)
    ensures value.Table? <==> Filter(value, prefix, scope).Table?
  {
  }

  lemma MergedUnit(value: Value, path: string)
    requires !IsConcrete(path)
    requires value != Table(map[])
    ensures MergedEntry(value, path) == Some(value)
        <==> Merge(Filter(value, path, Device), Filter(value, path, Host)) == value
  {
    hide IsConcrete, SettingScope, Filter, Merge;
    FilterOfTable(value, path, Device);
    FilterOfTable(value, path, Host);
    var device, host := Filter(value, path, Device), Filter(value, path, Host);
    if device.Table? {
      MergeWithNothing(device);
      MergeWithNothing(host);
    }
  }

  lemma NothingStaysNothing(path: string)
    requires !IsConcrete(path)
    ensures MergedEntry(Table(map[]), path) == None
  {
    hide IsConcrete, SettingScope;
    assert Filter(Table(map[]), path, Device) == Table(map[]);
    assert Filter(Table(map[]), path, Host) == Table(map[]);
  }

  lemma ConcreteIsKept(value: Value, path: string)
    requires IsConcrete(path)
    ensures MergedEntry(value, path) == Some(value)
  {
    hide IsConcrete, SettingScope;
  }

  ghost predicate Restored(value: Value, prefix: string) {
    Merge(Filter(value, prefix, Device), Filter(value, prefix, Host)) == value
  }

  lemma RestoredByEntries(entries: map<string, Value>, prefix: string)
    ensures Restored(Table(entries), prefix)
            <==> forall key :: key in entries ==> MergedEntry(entries[key], Join(prefix, key)) == Some(entries[key])
  {
    hide IsConcrete, SettingScope, Join, MergedEntry;
    var merged := Merge(Filter(Table(entries), prefix, Device), Filter(Table(entries), prefix, Host));
    forall key | key in entries
      ensures MergedEntry(entries[key], Join(prefix, key))
           == if key in merged.entries then Some(merged.entries[key]) else None
    {
      MergedEntryIs(entries, prefix, key);
    }
    assert forall key :: key in merged.entries ==> key in entries;
    if forall key :: key in entries ==> MergedEntry(entries[key], Join(prefix, key)) == Some(entries[key]) {
      assert merged.entries == entries;
    }
  }

  /** The Device file and the Host file together hold the whole tree exactly when no table in it is needlessly empty. */
  lemma {:induction false} FilesRestoreTheTree(value: Value, prefix: string)
    ensures Restored(value, prefix) <==> Solid(value, prefix)
    decreases value
  {
    hide IsConcrete, SettingScope, Join, MergedEntry, Restored;
    match value {
      case Leaf(_) => LeafIsRestored(value, prefix);
      case Table(entries) =>
        RestoredByEntries(entries, prefix);
        forall key | key in entries
          ensures MergedEntry(entries[key], Join(prefix, key)) == Some(entries[key])
              <==> (IsConcrete(Join(prefix, key))
                || (entries[key] != Table(map[]) && Solid(entries[key], Join(prefix, key))))
        {
          var path := Join(prefix, key);
          FilesRestoreTheTree(entries[key], path);
          if IsConcrete(path) {
            ConcreteIsKept(entries[key], path);
          } else if entries[key] == Table(map[]) {
            NothingStaysNothing(path);
          } else {
            MergedUnit(entries[key], path);
            UnfoldRestored(entries[key], path);
          }
        }
    }
  }

  lemma LeafIsRestored(value: Value, prefix: string)
    requires value.Leaf?
    ensures Restored(value, prefix)
  {
  }

  lemma UnfoldRestored(value: Value, prefix: string)
    ensures Restored(value, prefix) <==> Merge(Filter(value, prefix, Device), Filter(value, prefix, Host)) == value
  {
  }
}
