/**
  What a save compares and a merge copies (`host_settings_changed`, `device_settings_changed` and
  `merge_device_settings` in src/config/scope.rs): setting by setting, and some sections as a whole. Proved
  here: each names exactly the settings of its own scope, so that a save writes a file exactly when something
  changed that the filter of that scope keeps, and what was merged compares as unchanged.
 */
module SettingsFields {
  import opened SettingsScope

  /** The value of every setting. */
  type AppSettings = Field -> int

  ghost predicate Differs(candidate: AppSettings, confirmed: AppSettings, field: Field) {
    candidate(field) != confirmed(field)
  }

  ghost predicate HostSettingsChanged(candidate: AppSettings, confirmed: AppSettings) {
    || Differs(candidate, confirmed, General(NewTabCommands))
    || (exists setting: AgentSetting :: Differs(candidate, confirmed, Agent(setting)))
    || Differs(candidate, confirmed, Field.Terminal(Shell))
    || Differs(candidate, confirmed, Field.Terminal(CustomShells))
    || Differs(candidate, confirmed, Field.Terminal(Environment))
    || Differs(candidate, confirmed, Field.Terminal(Scrollback))
    || Differs(candidate, confirmed, Field.Terminal(KittyKeyboard))
    || Differs(candidate, confirmed, Editor(TabSize))
    || Differs(candidate, confirmed, Editor(AutoDetectLanguage))
    || Differs(candidate, confirmed, Editor(DefaultLanguage))
    || Differs(candidate, confirmed, Editor(LspEnabled))
    || Differs(candidate, confirmed, Editor(LspCommand))
  }

  ghost predicate GeneralDeviceChanged(candidate: AppSettings, confirmed: AppSettings) {
    || Differs(candidate, confirmed, General(Language))
    || Differs(candidate, confirmed, General(UiFontFamily))
    || Differs(candidate, confirmed, General(UiFontSize))
    || Differs(candidate, confirmed, General(UiLineHeight))
    || Differs(candidate, confirmed, General(OnboardingCompleted))
    || Differs(candidate, confirmed, General(AutoCheckUpdates))
    || Differs(candidate, confirmed, General(RestoreLastSession))
    || Differs(candidate, confirmed, General(NewTabCommandPickerEnabled))
  }

  ghost predicate TerminalDeviceChanged(candidate: AppSettings, confirmed: AppSettings) {
    || Differs(candidate, confirmed, Field.Terminal(TerminalSetting.FontFamily))
    || Differs(candidate, confirmed, Field.Terminal(TerminalSetting.FontSize))
    || Differs(candidate, confirmed, Field.Terminal(TerminalSetting.LineHeight))
    || Differs(candidate, confirmed, Field.Terminal(Padding))
    || Differs(candidate, confirmed, Field.Terminal(ShowScrollbar))
    || Differs(candidate, confirmed, Field.Terminal(CursorShape))
    || Differs(candidate, confirmed, Field.Terminal(CursorBlinking))
    || Differs(candidate, confirmed, Field.Terminal(CursorBlinkIntervalMs))
    || Differs(candidate, confirmed, Field.Terminal(CursorBlinkTimeoutSecs))
    || Differs(candidate, confirmed, Field.Terminal(CursorUnfocusedHollow))
    || Differs(candidate, confirmed, Field.Terminal(CursorThickness))
    || Differs(candidate, confirmed, Field.Terminal(HideMouseWhenTyping))
    || Differs(candidate, confirmed, Field.Terminal(CopyOnSelect))
    || Differs(candidate, confirmed, Field.Terminal(SemanticEscapeChars))
    || Differs(candidate, confirmed, Field.Terminal(Osc52Policy))
    || Differs(candidate, confirmed, Field.Terminal(HintAlphabet))
    || Differs(candidate, confirmed, Field.Terminal(Hints))
  }

  ghost predicate EditorDeviceChanged(candidate: AppSettings, confirmed: AppSettings) {
    || Differs(candidate, confirmed, Editor(EditorSetting.FontFamily))
    || Differs(candidate, confirmed, Editor(EditorSetting.FontSize))
    || Differs(candidate, confirmed, Editor(EditorSetting.LineHeight))
    || Differs(candidate, confirmed, Editor(SoftWrap))
    || Differs(candidate, confirmed, Editor(LineNumbers))
    || Differs(candidate, confirmed, Editor(Autosave))
    || Differs(candidate, confirmed, Editor(AutosaveDelayMs))
  }

  ghost predicate DeviceSettingsChanged(candidate: AppSettings, confirmed: AppSettings) {
    || GeneralDeviceChanged(candidate, confirmed)
    || (exists setting: WindowSetting :: Differs(candidate, confirmed, Window(setting)))
    || (exists setting: ThemeSetting :: Differs(candidate, confirmed, Theme(setting)))
    || (exists setting: NotificationsSetting :: Differs(candidate, confirmed, Notifications(setting)))
    || TerminalDeviceChanged(candidate, confirmed)
    || EditorDeviceChanged(candidate, confirmed)
    || (exists setting: VimSetting :: Differs(candidate, confirmed, Vim(setting)))
    || (exists setting: ProjectPanelSetting :: Differs(candidate, confirmed, ProjectPanel(setting)))
  }

  // ---- The scope of each setting ----

  /** The settings that `host_settings_changed` names. */
  predicate OfHost(field: Field) {
    match field
    case General(setting) => setting == NewTabCommands
    case Agent(_) => true
    case Terminal(setting) =>
      setting == Shell || setting == CustomShells || setting == Environment || setting == Scrollback
      || setting == KittyKeyboard
    case Editor(setting) =>
      setting == TabSize || setting == AutoDetectLanguage || setting == DefaultLanguage || setting == LspEnabled
      || setting == LspCommand
    case _ => false
  }

  /** A Host key of a section is named by what follows the section. */
  lemma InSection(section: string, name: string, key: string)
    requires section <= key
    ensures section + name == key <==> name == key[|section|..]
  {
    assert (section + name)[|section|..] == name;
  }

  const GENERAL_HOST_NAMES := ["new_tab_commands"]
  const TERMINAL_HOST_NAMES := ["shell", "custom_shells", "environment", "scrollback", "kitty_keyboard"]
  const EDITOR_HOST_NAMES := ["tab_size", "auto_detect_language", "default_language", "lsp"]

  lemma GeneralScope(name: string)
    ensures SettingScope("general." + name) == if name in GENERAL_HOST_NAMES then Host else Device
  {
    var key := "general." + name;
    InSection("general.", name, "general.new_tab_commands");
    assert "general.new_tab_commands"[8..] == "new_tab_commands";
    assert key[0] == 'g';
    if key in HOST_KEYS { GeneralHostKey(key); }
  }

  lemma GeneralHostKey(key: string)
    requires key in HOST_KEYS && key != "" && key[0] == 'g'
    ensures key == "general.new_tab_commands"
  {
  }

  lemma TerminalHostKey(key: string)
    requires key in HOST_KEYS && key != "" && key[0] == 't'
    ensures "terminal." <= key && key[9..] in TERMINAL_HOST_NAMES
  {
  }

  lemma TerminalHostNames(name: string)
    requires name in TERMINAL_HOST_NAMES
    ensures "terminal." + name in HOST_KEYS
  {
    assert "terminal." + "shell" == HOST_KEYS[1];
    assert "terminal." + "custom_shells" == HOST_KEYS[2];
    assert "terminal." + "environment" == HOST_KEYS[3];
    assert "terminal." + "scrollback" == HOST_KEYS[4];
    assert "terminal." + "kitty_keyboard" == HOST_KEYS[5];
  }

  lemma TerminalScope(name: string)
    ensures SettingScope("terminal." + name)
            == if name in TERMINAL_HOST_NAMES || "environment." <= name then Host else Device
  {
    var key := "terminal." + name;
    assert key[0] == 't' && key[9..] == name;
    hide HOST_KEYS, TERMINAL_HOST_NAMES;
    if key in HOST_KEYS { TerminalHostKey(key); }
    if name in TERMINAL_HOST_NAMES { TerminalHostNames(name); }
    assert "terminal.environment." <= key <==> "environment." <= name by { EnvironmentIn(name); }
  }

  lemma EnvironmentIn(name: string)
    ensures "terminal.environment." <= "terminal." + name <==> "environment." <= name
  {
    var key := "terminal." + name;
    assert key[9..] == name && "terminal.environment."[9..] == "environment.";
    if "terminal.environment." <= key {
      assert key[9..][..12] == key[..21][9..];
    }
    if "environment." <= name {
      assert "terminal." + "environment." == "terminal.environment.";
      assert key[..21] == "terminal." + name[..12];
    }
  }

  lemma EditorHostKey(key: string)
    requires key in HOST_KEYS && key != "" && key[0] == 'e'
    ensures "editor." <= key && key[7..] in EDITOR_HOST_NAMES
  {
  }

  lemma EditorHostNames(name: string)
    requires name in EDITOR_HOST_NAMES
    ensures "editor." + name in HOST_KEYS
  {
    assert "editor." + "tab_size" == HOST_KEYS[6];
    assert "editor." + "auto_detect_language" == HOST_KEYS[7];
    assert "editor." + "default_language" == HOST_KEYS[8];
    assert "editor." + "lsp" == HOST_KEYS[9];
  }

  lemma EditorScope(name: string)
    ensures SettingScope("editor." + name) == if name in EDITOR_HOST_NAMES || "lsp." <= name then Host else Device
  {
    var key := "editor." + name;
    assert key[0] == 'e' && key[7..] == name;
    hide HOST_KEYS, EDITOR_HOST_NAMES;
    if key in HOST_KEYS { EditorHostKey(key); }
    if name in EDITOR_HOST_NAMES { EditorHostNames(name); }
    assert "editor.lsp." <= key <==> "lsp." <= name by { LspIn(name); }
  }

  lemma LspIn(name: string)
    ensures "editor.lsp." <= "editor." + name <==> "lsp." <= name
  {
    var key := "editor." + name;
    assert key[7..] == name && "editor.lsp."[7..] == "lsp.";
    if "editor.lsp." <= key {
      assert key[7..][..4] == key[..11][7..];
    }
    if "lsp." <= name {
      assert "editor." + "lsp." == "editor.lsp.";
      assert key[..11] == "editor." + name[..4];
    }
  }

  // ---- The settings of the mixed sections ----

  lemma GeneralSettings(setting: GeneralSetting)
    ensures GeneralName(setting) in GENERAL_HOST_NAMES <==> OfHost(General(setting))
  {
  }

  /** A terminal setting is told from the Host's by its length and its first letter. */
  lemma TerminalSettings(setting: TerminalSetting)
    ensures TerminalName(setting) in TERMINAL_HOST_NAMES || "environment." <= TerminalName(setting)
            <==> OfHost(Field.Terminal(setting))
  {
    TerminalShape(TerminalName(setting));
  }

  lemma TerminalShape(name: string)
    ensures name in TERMINAL_HOST_NAMES ==>
              name != "" && (|name|, name[0]) in [(5, 's'), (13, 'c'), (11, 'e'), (10, 's'), (14, 'k')]
    ensures "environment." <= name ==> |name| > 11 && name[0] == 'e'
  {
  }

  lemma EditorSettings(setting: EditorSetting)
    ensures EditorName(setting) in EDITOR_HOST_NAMES || "lsp." <= EditorName(setting) <==> OfHost(Editor(setting))
  {
    EditorShape(EditorName(setting));
    assert "tab_size" == EDITOR_HOST_NAMES[0] && "auto_detect_language" == EDITOR_HOST_NAMES[1];
    assert "default_language" == EDITOR_HOST_NAMES[2];
  }

  lemma EditorShape(name: string)
    ensures name in EDITOR_HOST_NAMES ==>
              name != "" && (|name|, name[0]) in [(8, 't'), (20, 'a'), (16, 'd'), (3, 'l')]
    ensures "lsp." <= name <==> |name| >= 4 && name[0] == 'l' && name[1] == 's' && name[2] == 'p' && name[3] == '.'
  {
  }

  lemma ScopeOfField(field: Field)
    ensures SettingScope(Key(field)) == if OfHost(field) then Host else Device
  {
    hide SettingScope, GENERAL_HOST_NAMES, TERMINAL_HOST_NAMES, EDITOR_HOST_NAMES;
    hide GeneralName, TerminalName, EditorName, AgentName, WindowName, ThemeName, NotificationsName, VimName,
      ProjectPanelName;
    match field {
      case General(setting) => GeneralScope(GeneralName(setting)); GeneralSettings(setting);
      case Terminal(setting) => TerminalScope(TerminalName(setting)); TerminalSettings(setting);
      case Editor(setting) => EditorScope(EditorName(setting)); EditorSettings(setting);
      case Agent(setting) => SectionsHaveOneScope(AgentName(setting));
      case Window(setting) => SectionsHaveOneScope(WindowName(setting));
      case Theme(setting) => SectionsHaveOneScope(ThemeName(setting));
      case Notifications(setting) => SectionsHaveOneScope(NotificationsName(setting));
      case Vim(setting) => SectionsHaveOneScope(VimName(setting));
      case ProjectPanel(setting) => SectionsHaveOneScope(ProjectPanelName(setting));
      case Bars => StartsLikeNoHostKey("bars");
    }
  }

  // ---- What is compared ----

  lemma GeneralCompared(candidate: AppSettings, confirmed: AppSettings)
    ensures GeneralDeviceChanged(candidate, confirmed)
            <==> exists setting: GeneralSetting ::
                   !OfHost(General(setting)) && Differs(candidate, confirmed, General(setting))
  {
    hide Differs;
  }

  lemma TerminalCompared(candidate: AppSettings, confirmed: AppSettings)
    ensures TerminalDeviceChanged(candidate, confirmed)
            <==> exists setting: TerminalSetting ::
                   !OfHost(Field.Terminal(setting)) && Differs(candidate, confirmed, Field.Terminal(setting))
  {
    hide Differs;
  }

  lemma EditorCompared(candidate: AppSettings, confirmed: AppSettings)
    ensures EditorDeviceChanged(candidate, confirmed)
            <==> exists setting: EditorSetting ::
                   !OfHost(Editor(setting)) && Differs(candidate, confirmed, Editor(setting))
  {
    hide Differs;
  }

  lemma HostCompared(candidate: AppSettings, confirmed: AppSettings)
    ensures HostSettingsChanged(candidate, confirmed)
            <==> exists field :: OfHost(field) && Differs(candidate, confirmed, field)
  {
    hide Differs;
    if field :| OfHost(field) && Differs(candidate, confirmed, field) {
      if field.Agent? {
        assert Differs(candidate, confirmed, Agent(field.agent));
      }
    }
  }

  lemma DeviceCompared(candidate: AppSettings, confirmed: AppSettings)
    ensures DeviceSettingsChanged(candidate, confirmed)
            <==> exists field :: field != Bars && !OfHost(field) && Differs(candidate, confirmed, field)
  {
    hide Differs, GeneralDeviceChanged, TerminalDeviceChanged, EditorDeviceChanged;
    GeneralCompared(candidate, confirmed);
    TerminalCompared(candidate, confirmed);
    EditorCompared(candidate, confirmed);
    if field :| field != Bars && !OfHost(field) && Differs(candidate, confirmed, field) {
      match field {
        case General(setting) => assert Differs(candidate, confirmed, General(setting));
        case Window(setting) => assert Differs(candidate, confirmed, Window(setting));
        case Theme(setting) => assert Differs(candidate, confirmed, Theme(setting));
        case Notifications(setting) => assert Differs(candidate, confirmed, Notifications(setting));
        case Terminal(setting) => assert Differs(candidate, confirmed, Field.Terminal(setting));
        case Editor(setting) => assert Differs(candidate, confirmed, Editor(setting));
        case Vim(setting) => assert Differs(candidate, confirmed, Vim(setting));
        case ProjectPanel(setting) => assert Differs(candidate, confirmed, ProjectPanel(setting));
        case _ =>
      }
    }
  }

  /** A save sees a change of the Host's settings exactly when a setting of the Host's scope differs. */
  lemma HostComparesItsScope(candidate: AppSettings, confirmed: AppSettings)
    ensures HostSettingsChanged(candidate, confirmed)
            <==> exists field :: SettingScope(Key(field)) == Host && Differs(candidate, confirmed, field)
  {
    hide SettingScope, Key, Differs, OfHost, HostSettingsChanged;
    HostCompared(candidate, confirmed);
    forall field ensures SettingScope(Key(field)) == if OfHost(field) then Host else Device {
      ScopeOfField(field);
    }
  }

  /**
    And of the Device's exactly when one of the Device's scope does, the bars apart, which have a file of their
    own.
   */
  lemma DeviceComparesItsScope(candidate: AppSettings, confirmed: AppSettings)
    ensures DeviceSettingsChanged(candidate, confirmed)
            <==> exists field :: field != Bars && SettingScope(Key(field)) == Device
                   && Differs(candidate, confirmed, field)
  {
    hide SettingScope, Key, Differs, OfHost, DeviceSettingsChanged;
    DeviceCompared(candidate, confirmed);
    forall field ensures SettingScope(Key(field)) == if OfHost(field) then Host else Device {
      ScopeOfField(field);
    }
  }

  // ---- What is merged ----

  predicate CopiesGeneral(setting: GeneralSetting) {
    setting in {Language, UiFontFamily, UiFontSize, UiLineHeight, OnboardingCompleted, AutoCheckUpdates,
                RestoreLastSession, NewTabCommandPickerEnabled}
  }

  predicate CopiesTerminal(setting: TerminalSetting) {
    setting in {TerminalSetting.FontFamily, TerminalSetting.FontSize, TerminalSetting.LineHeight, Padding,
                ShowScrollbar, CursorShape, CursorBlinking, CursorBlinkIntervalMs, CursorBlinkTimeoutSecs,
                CursorUnfocusedHollow, CursorThickness, HideMouseWhenTyping, CopyOnSelect, SemanticEscapeChars,
                Osc52Policy, HintAlphabet, Hints}
  }

  predicate CopiesEditor(setting: EditorSetting) {
    setting in {EditorSetting.FontFamily, EditorSetting.FontSize, EditorSetting.LineHeight, SoftWrap, LineNumbers,
                Autosave, AutosaveDelayMs}
  }

  predicate Copies(field: Field) {
    match field
    case General(setting) => CopiesGeneral(setting)
    case Window(_) => true
    case Theme(_) => true
    case Notifications(_) => true
    case Terminal(setting) => CopiesTerminal(setting)
    case Editor(setting) => CopiesEditor(setting)
    case Vim(_) => true
    case ProjectPanel(_) => true
    case _ => false
  }

  /** The settings with every field that `merge_device_settings` assigns taken from the Device's. */
  function MergeDeviceSettings(settings: AppSettings, device: AppSettings): AppSettings {
    (field: Field) => if Copies(field) then device(field) else settings(field)
  }

  lemma CopiesWhatIsNotTheHosts(field: Field)
    ensures Copies(field) <==> field != Bars && !OfHost(field)
  {
  }

  /** The merge takes each setting of the Device's scope, the bars apart, and leaves every other. */
  lemma MergeTakesItsScope(settings: AppSettings, device: AppSettings, field: Field)
    ensures MergeDeviceSettings(settings, device)(field)
         == if field != Bars && SettingScope(Key(field)) == Device then device(field) else settings(field)
  {
    hide SettingScope, Key, OfHost, Copies;
    ScopeOfField(field);
    CopiesWhatIsNotTheHosts(field);
  }

  /**
    Compared with the Device's settings the merged ones have nothing of the Device's to save, and compared with
    the settings they were merged into nothing of the Host's.
   */
  lemma MergedComparesAsUnchanged(settings: AppSettings, device: AppSettings)
    ensures !DeviceSettingsChanged(MergeDeviceSettings(settings, device), device)
    ensures !HostSettingsChanged(MergeDeviceSettings(settings, device), settings)
  {
    hide SettingScope, Key, MergeDeviceSettings, DeviceSettingsChanged, HostSettingsChanged;
    var merged := MergeDeviceSettings(settings, device);
    DeviceComparesItsScope(merged, device);
    HostComparesItsScope(merged, settings);
    forall field
      ensures merged(field)
           == if field != Bars && SettingScope(Key(field)) == Device then device(field) else settings(field)
    {
      MergeTakesItsScope(settings, device, field);
    }
  }
}
