/**
 * The main window's decisions (`MovementConfigEditor` in `modules/gui.py`):
 * which checks gate building the mod and saving a preset, in which order,
 * and what each action leaves in the preferences file, the Presets folder
 * and the form. Dialog answers are inputs; widgets and message boxes are
 * not modelled, only the outcome they would report.
 */
module Editor {
  import opened Wrappers
  import opened Text
  import opened Dicts
  import opened Values
  import opened Prefs
  import opened Form
  import FormSpec = Form
  import opened GameDir
  import opened ConfigHandling
  import opened Interface
  import opened ModBuild

  /** What an action ends with: the message box it shows, or the silent return. */
  datatype Outcome =
    | InvalidValues(messages: seq<string>)
    | NoChanges
    | Cancelled
    | NothingToBuild
    | BuildFailed(error: BuildError)
    | Created(updated: bool, local: bool)
    | Saved(name: string)
    /** `get_current_config` gave None and `save_ini_file` raised on it. */
    | SaveCrashed
    /** The Presets folder is gone and opening the preset file raised. */
    | WriteFailed

  /**
   * What `ModCreator.create_mod` works with besides the config: the mod
   * settings, where to look for the packer, the listing of the mods folder,
   * the fresh temporary directory and what the packer does.
   */
  datatype Creator = Creator(settings: Dict<string, string>, exeDir: Path, basePath: Path, dataFolder: string,
                             listing: seq<Path>, temp: Path, pack: Pack)

  // ---------------------------------------------------------------------
  // The gates

  /**
   * The checks before saving a preset: invalid entries first, then no
   * changes. The force-defaults switch plays no part.
   */
  function SaveRefusal(messages: seq<string>, changed: bool): (r: Option<Outcome>)
    ensures messages != [] ==> r == Some(InvalidValues(messages))
    ensures messages == [] && !changed ==> r == Some(NoChanges)
    ensures r.None? <==> messages == [] && changed
  {
    if messages != [] then Some(InvalidValues(messages))
    else if !changed then Some(NoChanges)
    else None
  }

  /**
   * The checks before building, in order: invalid entries, no changes
   * unless defaults are forced, no target, forcing not confirmed, and an
   * empty or unreadable config.
   */
  function BuildRefusal(messages: seq<string>, changed: bool, force: bool, target: ModsTarget,
                        confirmed: bool, config: Option<Config>): (r: Option<Outcome>)
    ensures messages != [] ==> r == Some(InvalidValues(messages))
    ensures messages == [] && !changed && !force ==> r == Some(NoChanges)
    ensures r.None? <==> messages == [] && (changed || force) && !target.Declined? && (force ==> confirmed)
                         && config.Some? && config.value != []
  {
    if messages != [] then Some(InvalidValues(messages))
    else if !changed && !force then Some(NoChanges)
    else if target.Declined? then Some(Cancelled)
    else if force && !confirmed then Some(Cancelled)
    else if config.None? || config.value == [] then Some(NothingToBuild)
    else None
  }

  /** Past the first two checks, the build is refused for the later reasons only. */
  lemma BuildRefusalAfterChecks(messages: seq<string>, changed: bool, force: bool, confirmed: bool, config: Option<Config>)
    requires messages == [] && (changed || force)
    ensures forall target :: BuildRefusal(messages, changed, force, target, confirmed, config)
                          == BuildRefusal([], true, force, target, confirmed, config)
  {
  }

  /** Creating the `~mods` folder leaves a build directory outside the game's folders fresh. */
  lemma MakeModsFolderKeepsFresh(fs: FileSystem, gameDir: Path, temp: Path)
    requires Fresh(fs, temp) && IsGameDir(fs, gameDir) && GameFolder !in temp
    ensures Fresh(MakeModsFolder(fs, gameDir), temp)
  {
    var r := MakeModsFolder(fs, gameDir);
    var top := gameDir + [GameFolder];
    forall p | r.Exists(p) ensures !(temp <= p) {
      if !fs.Exists(p) {
        MakeModsFolderCreates(fs, gameDir, p);
        assert p[..|top|] == ModsPath(gameDir)[..|top|] == top;
        assert p[|gameDir|] == top[|gameDir|] == GameFolder;
        assert temp <= p && |temp| <= |top| ==> temp <= top && fs.Exists(top);
      }
    }
  }

  // ---------------------------------------------------------------------
  // The config after validation

  /** A field whose schema default is a number. */
  predicate NumericDefault(defaults: Config, key: FieldKey) {
    Lookup2(defaults, key.0, key.1).Some? && Lookup2(defaults, key.0, key.1).value.IsNumeric()
  }

  /** The dot rule does its own stripping. */
  lemma ParseNumberStrip(text: string)
    ensures ParseNumber(Strip(text)) == ParseNumber(text)
  {
    StripStrip(text);
    if '.' in text {
      StripKeeps(text, '.');
    }
    if '.' in Strip(text) {
      StripWithin(text, '.');
    }
  }

  /** An entry that cannot be read as a number is reported, when its default is a number. */
  lemma UnreadableReported(defaults: Config, maxValues: MaxValues, form: Form, key: FieldKey)
    requires NumericMaxes(maxValues)
    requires Has(form.entries, key) && NumericDefault(defaults, key)
    requires ParseNumber(EntryOf(form, key)).None?
    ensures InvalidMessages(defaults, maxValues, form.entries) != []
  {
    var i :| 0 <= i < |form.entries| && form.entries[i] == (key, Get(form.entries, key).value);
    var text := form.entries[i].1;
    ParseNumberStrip(text);
    var v := EntryValidity(defaults, maxValues, key, text);
    assert !v.Valid?;
    InvalidEntryReported(defaults, maxValues, form.entries, i, Message(key, v));
  }

  /**
   * Once no entry is reported invalid, building the config from the form
   * cannot fail, provided every text field has a numeric default: a field
   * with a text default is the only way `get_current_config` can still
   * give None after the checks.
   */
  lemma ValidatedFormBuilds(defaults: Config, maxValues: MaxValues, form: Form, includeDefaults: bool)
    requires NumericMaxes(maxValues) && Covers(defaults, form)
    requires forall k :: Has(form.entries, k) ==> NumericDefault(defaults, k)
    requires InvalidMessages(defaults, maxValues, form.entries) == []
    ensures CurrentConfig(form, defaults, includeDefaults).Some?
  {
    CurrentSectionsFails(form, defaults, includeDefaults);
    if CurrentSections(form, defaults, includeDefaults).None? {
      var i :| 0 <= i < |defaults| && SectionFails(form, defaults[i], includeDefaults);
      var section, items := defaults[i].0, defaults[i].1;
      SectionValuesMeaning(form, section, items, includeDefaults, "");
      var j :| 0 <= j < |items| && Included(form, section, items[j].0, items[j].1, includeDefaults)
                                && Unreadable(form, section, items[j].0, items[j].1);
      assert defaults[i].1[j] == items[j];
      assert Has(form.entries, (section, items[j].0));
      UnreadableReported(defaults, maxValues, form, (section, items[j].0));
    }
  }

  // ---------------------------------------------------------------------
  // Presets and preferences

  /** `[f.replace('.ini', '') for f in os.listdir('Presets') if f.endswith('.ini')]` */
  function PresetNames(files: Dict<string, IniDoc>): seq<string>
    decreases |files|
  {
    if files == [] then []
    else
      var name := files[|files| - 1].0;
      PresetNames(files[..|files| - 1]) + if EndsWith(name, ".ini") then [ReplaceAll(name, ".ini", "")] else []
  }

  /** The listed names are exactly the `.ini` files with every `.ini` removed. */
  lemma {:induction false} PresetNamesMeaning(files: Dict<string, IniDoc>, name: string)
    ensures name in PresetNames(files)
        <==> exists i :: 0 <= i < |files| && EndsWith(files[i].0, ".ini") && ReplaceAll(files[i].0, ".ini", "") == name
    decreases |files|
  {
    if files != [] {
      var n := |files|;
      var prefix := files[..n - 1];
      PresetNamesMeaning(prefix, name);
      assert forall i :: 0 <= i < n - 1 ==> prefix[i] == files[i];
    }
  }

  /** The document of `Presets/<name>.ini`; a missing folder or file reads as empty. */
  function PresetDoc(presets: Option<Dict<string, IniDoc>>, name: string): IniDoc {
    match presets
    case None => []
    case Some(files) => Get(files, name + ".ini").GetOr([])
  }

  /** A preset file written and then loaded gives back its sections that have values. */
  lemma LoadSavedPresetFile(files: Dict<string, IniDoc>, name: string, config: Config)
    requires PlainConfig(config)
    ensures PresetOf(PresetDoc(Some(Put(files, name + ".ini", SavedDoc(config))), name)) == DropEmpty(config)
  {
    PutGet(files, name + ".ini", SavedDoc(config), name + ".ini");
    LoadSavedPreset(config);
  }

  /** The preferences after a preset save: the preset selected, the settings cleared. */
  function AfterPresetSave(file: PrefsFile, writable: bool, name: string): PrefsFile {
    SetKey(SetKey(file, writable, LastPresetKey, PText(name)), writable, LastSettingsKey, ClearedSettings)
  }

  /**
   * After a preset save the stored preset is its name, there are no last
   * settings, and every other preference (the language) is kept.
   */
  lemma AfterPresetSaveReads(file: PrefsFile, writable: bool, name: string, other: string)
    requires writable
    requires other != LastPresetKey && other != LastSettingsKey
    ensures LastPreset(AfterPresetSave(file, writable, name)) == name
    ensures LastSettings(AfterPresetSave(file, writable, name)) == NoSettings
    ensures Prefs.Lookup(AfterPresetSave(file, writable, name), other) == Prefs.Lookup(file, other)
  {
    var mid := SetKey(file, writable, LastPresetKey, PText(name));
    SetKeyOnlyOwnKey(file, writable, LastPresetKey, PText(name), LastSettingsKey);
    SetKeyOnlyOwnKey(file, writable, LastPresetKey, PText(name), other);
    SetKeyOnlyOwnKey(mid, writable, LastSettingsKey, ClearedSettings, LastPresetKey);
    SetKeyOnlyOwnKey(mid, writable, LastSettingsKey, ClearedSettings, other);
  }

  /** The settings a successful build stores: the full config with the two switches, when there is one. */
  function AfterBuild(file: PrefsFile, writable: bool, full: Option<Config>, sync: bool, force: bool): PrefsFile {
    if full.Some? && full.value != [] then
      SetKey(file, writable, LastSettingsKey, PSettings(Settings(Some(full.value), Some(sync), Some(force))))
    else file
  }

  /** `restore_last_settings` on the form: the stored config, then the stored sync flag. */
  function RestoredForm(defaults: Config, form: Form, s: Settings): Form {
    if !s.NonEmpty() then form
    else
      var loaded := if s.config.Some? then FormSpec.UpdateEntries(defaults, form, s.config.value) else form;
      if s.sync.Some? then loaded.(sync := s.sync.value) else loaded
  }

  /** `restore_last_settings` on the force-defaults switch. */
  function RestoredForce(force: bool, s: Settings): bool {
    if s.NonEmpty() && s.force.Some? then s.force.value else force
  }

  /**
   * Settings stored by a build come back on the next start: the form is
   * updated from the stored config and both switches are as they were.
   */
  lemma RestoreAfterBuild(file: PrefsFile, defaults: Config, form: Form, full: Config, sync: bool, force: bool, current: bool)
    requires full != []
    ensures RestoredForm(defaults, form, LastSettings(AfterBuild(file, true, Some(full), sync, force)))
         == FormSpec.UpdateEntries(defaults, form, full).(sync := sync)
    ensures RestoredForce(current, LastSettings(AfterBuild(file, true, Some(full), sync, force))) == force
  {
    SetKeyOnlyOwnKey(file, true, LastSettingsKey, PSettings(Settings(Some(full), Some(sync), Some(force))), LastSettingsKey);
  }

  /** Settings cleared by a preset save or by loading the defaults restore nothing. */
  lemma RestoreAfterClear(file: PrefsFile, defaults: Config, form: Form, force: bool)
    ensures RestoredForm(defaults, form, LastSettings(SetKey(file, true, LastSettingsKey, ClearedSettings))) == form
    ensures RestoredForce(force, LastSettings(SetKey(file, true, LastSettingsKey, ClearedSettings))) == force
  {
    SetKeyOnlyOwnKey(file, true, LastSettingsKey, ClearedSettings, LastSettingsKey);
  }

  /** Applying a config keeps the set of fields. */
  lemma {:induction false} ApplyConfigKeys(form: Form, config: Config)
    ensures Keys(ApplyConfig(form, config).entries) == Keys(form.entries)
    ensures Keys(ApplyConfig(form, config).checks) == Keys(form.checks)
    decreases |config|
  {
    if config != [] {
      var n := |config|;
      ApplyConfigKeys(form, config[..n - 1]);
      ApplySectionKeys(ApplyConfig(form, config[..n - 1]), config[n - 1].0, config[n - 1].1);
    }
  }

  /** `update_entries` keeps every field, so the form still covers the schema. */
  lemma UpdateKeepsCovers(defaults: Config, form: Form, config: Config)
    requires Covers(defaults, form)
    ensures Covers(defaults, FormSpec.UpdateEntries(defaults, form, config))
  {
    var reset := Form(ResetEntries(defaults, form.entries), ResetChecks(defaults, form.checks), form.sync);
    assert Keys(reset.entries) == Keys(form.entries);
    assert Keys(reset.checks) == Keys(form.checks);
    ApplyConfigKeys(reset, config);
    var after := FormSpec.UpdateEntries(defaults, form, config);
    forall k: FieldKey ensures Has(after.entries, k) == Has(form.entries, k) && Has(after.checks, k) == Has(form.checks, k) {
      HasKeys(after.entries, k);
      HasKeys(form.entries, k);
      HasKeys(after.checks, k);
      HasKeys(form.checks, k);
    }
  }

  // ---------------------------------------------------------------------
  // The window

  class MovementConfigEditor {
    const iface: ConfigInterface
    var forceDefaults: bool
    /** The preset chosen in the combo box, '' for none. */
    var presetVar: string
    /** The names offered in the combo box. */
    var presetChoices: seq<string>
    /** The Presets folder: file name to document, in listing order; None when it does not exist. */
    var presets: Option<Dict<string, IniDoc>>
    /** The game files and the working directory the mod is built in. */
    var world: World

    ghost predicate Valid()
      reads this, iface, iface.handler
    {
      iface.Valid() && Covers(iface.handler.defaultConfig, iface.State())
    }

    function Messages(): seq<string>
      reads this, iface, iface.handler
      requires iface.Valid()
    {
      InvalidMessages(iface.handler.defaultConfig, iface.handler.maxValues, iface.entries)
    }

    function HasChanges(): bool
      reads this, iface, iface.handler
    {
      Changed(iface.handler.defaultConfig, iface.State())
    }

    function CurrentConfig(includeDefaults: bool): Option<Config>
      reads this, iface, iface.handler
    {
      FormSpec.CurrentConfig(iface.State(), iface.handler.defaultConfig, includeDefaults)
    }

    /**
     * The window as `__init__` leaves it: no preset chosen and defaults not
     * forced; the mod flag read and, through `update_mod_buttons`, a set game
     * directory validated, so it may be corrected and recorded; then the
     * preset list read and the last settings restored. `walkRoots` are the
     * folders the directory search walks.
     */
    constructor(iface: ConfigInterface, presets: Option<Dict<string, IniDoc>>, world: World, walkRoots: seq<Path>)
      requires iface.Valid() && Covers(iface.handler.defaultConfig, iface.State())
      modifies iface
      ensures this.iface == iface && this.presets == presets && this.world == world && Valid()
      ensures presetChoices == if presets.Some? then PresetNames(presets.value) else []
      ensures var last := LastPreset(iface.handler.store.file);
        presetVar == if presets.Some? && last != "" && last in presetChoices then last else ""
      ensures iface.State() == RestoredForm(iface.handler.defaultConfig, old(iface.State()), LastSettings(iface.handler.store.file))
      ensures forceDefaults == RestoredForce(false, LastSettings(iface.handler.store.file))
      ensures var found := GameDirSearch(world.fs, old(iface.gameDir), walkRoots);
        found.Some? ==> iface.gameDir == found.value && iface.savedDir == Some(found.value)
      ensures GameDirSearch(world.fs, old(iface.gameDir), walkRoots).None? ==>
        iface.gameDir == old(iface.gameDir) && iface.savedDir == old(iface.savedDir)
      ensures iface.modExists == ModInstalled(world.fs, iface.gameDir)
    {
      this.iface := iface;
      this.presets := presets;
      this.world := world;
      forceDefaults := false;
      presetVar := "";
      presetChoices := [];
      new;
      iface.CheckModExists(world.fs);
      if iface.gameDir != [] {
        var valid := iface.ValidateGameDirectory(world.fs, iface.gameDir, walkRoots);
      }
      LoadPresets();
      RestoreLastSettings();
    }

    /**
     * Typing `text` into the game directory entry: the `game_dir` trace runs
     * `update_mod_buttons`, which rereads the mod flag and validates a
     * non-empty directory, so a path inside a game folder is corrected and
     * recorded as it is typed.
     */
    method EditGameDir(text: Path, walkRoots: seq<Path>)
      requires Valid()
      modifies iface
      ensures Valid() && iface.State() == old(iface.State())
      ensures var found := GameDirSearch(world.fs, text, walkRoots);
        found.Some? ==> iface.gameDir == found.value && iface.savedDir == Some(found.value)
      ensures GameDirSearch(world.fs, text, walkRoots).None? ==> iface.gameDir == text && iface.savedDir == old(iface.savedDir)
      ensures iface.modExists == ModInstalled(world.fs, iface.gameDir)
    {
      iface.gameDir := text;
      iface.CheckModExists(world.fs);
      if text != [] {
        var valid := iface.ValidateGameDirectory(world.fs, text, walkRoots);
      }
    }

    /**
     * Choosing `name` in the combo box: the `preset_var` trace,
     * `on_preset_selection_changed`, remembers a non-empty choice.
     */
    method SelectPreset(name: string)
      modifies this, iface.handler.store
      ensures presetVar == name
      ensures name == "" ==> unchanged(iface.handler.store)
      ensures name != "" ==>
        iface.handler.store.file == SetKey(old(iface.handler.store.file), iface.handler.store.writable, LastPresetKey, PText(name))
      ensures presets == old(presets) && presetChoices == old(presetChoices)
      ensures forceDefaults == old(forceDefaults) && world == old(world)
    {
      presetVar := name;
      if name != "" {
        iface.handler.SetLastSelectedPreset(name);
      }
    }

    /** `load_presets`: list the folder and reselect the last preset when it is listed. */
    method LoadPresets()
      modifies this
      ensures presets.None? ==> presetChoices == old(presetChoices) && presetVar == old(presetVar)
      ensures presets.Some? ==> presetChoices == PresetNames(presets.value)
      ensures var last := LastPreset(iface.handler.store.file);
        presets.Some? ==> presetVar == if last != "" && last in presetChoices then last else old(presetVar)
      ensures presets == old(presets) && world == old(world) && forceDefaults == old(forceDefaults)
    {
      if presets.None? {
        return;
      }
      presetChoices := PresetNames(presets.value);
      var last := iface.handler.GetLastSelectedPreset();
      if last != "" && last in presetChoices {
        presetVar := last;
      }
    }

    /** `restore_last_settings` */
    method RestoreLastSettings()
      requires Valid()
      modifies this, iface
      ensures Valid()
      ensures iface.State() == RestoredForm(iface.handler.defaultConfig, old(iface.State()), LastSettings(iface.handler.store.file))
      ensures forceDefaults == RestoredForce(old(forceDefaults), LastSettings(iface.handler.store.file))
      ensures presets == old(presets) && presetVar == old(presetVar) && presetChoices == old(presetChoices) && world == old(world)
      ensures iface.gameDir == old(iface.gameDir) && iface.savedDir == old(iface.savedDir) && iface.modExists == old(iface.modExists)
    {
      var last := iface.handler.GetLastSettings();
      if last.NonEmpty() {
        if last.config.Some? {
          UpdateKeepsCovers(iface.handler.defaultConfig, iface.State(), last.config.value);
          iface.UpdateEntries(last.config.value);
        }
        if last.sync.Some? {
          iface.sync := last.sync.value;
        }
        if last.force.Some? {
          forceDefaults := last.force.value;
        }
      }
    }

    /** `load_default`: both switches off, every field from the schema, the last settings cleared. */
    method LoadDefault()
      requires Valid()
      modifies this, iface, iface.handler.store
      ensures Valid() && !forceDefaults
      ensures iface.State() == FormSpec.UpdateEntries(iface.handler.defaultConfig, old(iface.State()).(sync := false), iface.handler.defaultConfig)
      ensures iface.handler.store.file == SetKey(old(iface.handler.store.file), iface.handler.store.writable, LastSettingsKey, ClearedSettings)
      ensures presets == old(presets) && presetVar == old(presetVar) && presetChoices == old(presetChoices) && world == old(world)
      ensures iface.gameDir == old(iface.gameDir) && iface.savedDir == old(iface.savedDir) && iface.modExists == old(iface.modExists)
    {
      iface.sync := false;
      forceDefaults := false;
      UpdateKeepsCovers(iface.handler.defaultConfig, iface.State(), iface.handler.defaultConfig);
      iface.UpdateEntries(iface.handler.defaultConfig);
      iface.handler.SetLastSettings(NoSettings);
    }

    /** `load_xy_fix` and `load_v3fish`: a bundled preset into the form, the last settings cleared. */
    method LoadBundled(v3fish: bool)
      requires Valid()
      modifies iface, iface.handler.store
      ensures Valid()
      ensures var config := if v3fish then iface.handler.v3fishConfig else iface.handler.xyFixConfig;
        iface.State() == FormSpec.UpdateEntries(iface.handler.defaultConfig, old(iface.State()), config)
      ensures iface.handler.store.file == SetKey(old(iface.handler.store.file), iface.handler.store.writable, LastSettingsKey, ClearedSettings)
      ensures iface.gameDir == old(iface.gameDir) && iface.savedDir == old(iface.savedDir) && iface.modExists == old(iface.modExists)
    {
      var config := if v3fish then iface.handler.v3fishConfig else iface.handler.xyFixConfig;
      UpdateKeepsCovers(iface.handler.defaultConfig, iface.State(), config);
      iface.UpdateEntries(config);
      iface.handler.SetLastSettings(NoSettings);
    }

    /** `load_custom_preset`: the chosen preset file into the form, and remembered as the last preset. */
    method LoadCustomPreset()
      requires Valid()
      modifies iface, iface.handler.store
      ensures Valid()
      ensures presetVar == "" ==> iface.State() == old(iface.State()) && iface.handler.store.file == old(iface.handler.store.file)
      ensures presetVar != "" ==>
        iface.State() == FormSpec.UpdateEntries(iface.handler.defaultConfig, old(iface.State()), PresetOf(PresetDoc(presets, presetVar)))
        && iface.handler.store.file == SetKey(old(iface.handler.store.file), iface.handler.store.writable, LastPresetKey, PText(presetVar))
      ensures iface.gameDir == old(iface.gameDir) && iface.savedDir == old(iface.savedDir) && iface.modExists == old(iface.modExists)
    {
      var selected := presetVar;
      if selected == "" {
        return;
      }
      var config := iface.handler.LoadIniFile(PresetDoc(presets, selected));
      UpdateKeepsCovers(iface.handler.defaultConfig, iface.State(), config);
      iface.UpdateEntries(config);
      iface.handler.SetLastSelectedPreset(selected);
    }

    /** Writes the current config as `Presets/<name>.ini`, creating the folder when asked to. */
    method WritePreset(name: string, config: Config, makeFolder: bool) returns (written: bool)
      modifies this
      ensures written <==> makeFolder || old(presets).Some?
      ensures written ==> presets == Some(Put(old(presets).GetOr([]), name + ".ini", SavedDoc(config)))
      ensures !written ==> unchanged(this)
      ensures presetVar == old(presetVar) && presetChoices == old(presetChoices)
      ensures forceDefaults == old(forceDefaults) && world == old(world)
    {
      if presets.None? && !makeFolder {
        return false;
      }
      var doc := iface.handler.SaveIniFile(config);
      presets := Some(Put(presets.GetOr([]), name + ".ini", doc));
      return true;
    }

    /** The save checks, asked of the form; nothing changes. */
    method SaveCheck() returns (refusal: Option<Outcome>)
      requires Valid()
      ensures refusal == SaveRefusal(Messages(), HasChanges())
    {
      var invalid, messages := iface.HasInvalidEntries();
      if invalid {
        return Some(InvalidValues(messages));
      }
      var changed := iface.HasChanges();
      if !changed {
        return Some(NoChanges);
      }
      return None;
    }

    /** The preset files written, the list refreshed, the preset selected and remembered, the settings cleared. */
    method StoreNewPreset(name: string, config: Config)
      modifies this, iface.handler.store
      ensures presets == Some(Put(old(presets).GetOr([]), name + ".ini", SavedDoc(config)))
      ensures presetChoices == PresetNames(presets.value) && presetVar == name
      ensures iface.handler.store.file == AfterPresetSave(old(iface.handler.store.file), iface.handler.store.writable, name)
      ensures forceDefaults == old(forceDefaults) && world == old(world)
    {
      var written := WritePreset(name, config, true);
      LoadPresets();
      presetVar := name;
      iface.handler.SetLastSelectedPreset(name);
      iface.handler.SetLastSettings(NoSettings);
    }

    /**
     * `new_preset(name)`, `name` being the dialog's answer ('' when it was
     * cancelled): the save checks, then the file written, the list
     * refreshed, the preset selected and remembered, the last settings
     * cleared. The Presets folder is created before the file is written,
     * so it is there even when writing a config of None raises.
     */
    method NewPreset(name: string) returns (outcome: Outcome)
      requires Valid()
      modifies this, iface.handler.store
      ensures Valid()
      ensures outcome == match SaveRefusal(old(Messages()), old(HasChanges()))
        case Some(o) => o
        case None => if name == "" then Cancelled else if old(CurrentConfig(false)).None? then SaveCrashed else Saved(name)
      ensures !outcome.Saved? && !outcome.SaveCrashed? ==> unchanged(this) && unchanged(iface.handler.store)
      ensures outcome.SaveCrashed? ==>
        presets == Some(old(presets).GetOr([])) && unchanged(iface.handler.store)
        && presetChoices == old(presetChoices) && presetVar == old(presetVar)
        && forceDefaults == old(forceDefaults) && world == old(world)
      ensures outcome.Saved? ==>
        presets == Some(Put(old(presets).GetOr([]), name + ".ini", SavedDoc(old(CurrentConfig(false)).value)))
        && presetChoices == PresetNames(presets.value) && presetVar == name
        && iface.handler.store.file == AfterPresetSave(old(iface.handler.store.file), iface.handler.store.writable, name)
        && forceDefaults == old(forceDefaults) && world == old(world)
    {
      var refusal := SaveCheck();
      if refusal.Some? {
        return refusal.value;
      }
      if name == "" {
        return Cancelled;
      }
      var config := iface.GetCurrentConfig(false);
      if config.None? {
        presets := Some(presets.GetOr([]));
        return SaveCrashed;
      }
      StoreNewPreset(name, config.value);
      return Saved(name);
    }

    /** `save_preset` with a preset chosen: the save checks, the overwrite confirmation, the file rewritten. */
    method OverwritePreset(confirmed: bool) returns (outcome: Outcome)
      requires Valid() && presetVar != ""
      modifies this, iface.handler.store
      ensures Valid()
      ensures outcome == match SaveRefusal(old(Messages()), old(HasChanges()))
        case Some(o) => o
        case None =>
          if !confirmed then Cancelled
          else if old(CurrentConfig(false)).None? then SaveCrashed
          else if old(presets).None? then WriteFailed
          else Saved(presetVar)
      ensures !outcome.Saved? ==> unchanged(this) && unchanged(iface.handler.store)
      ensures outcome.Saved? ==>
        presets == Some(Put(old(presets).GetOr([]), presetVar + ".ini", SavedDoc(old(CurrentConfig(false)).value)))
        && presetVar == old(presetVar) && presetChoices == old(presetChoices)
        && iface.handler.store.file == AfterPresetSave(old(iface.handler.store.file), iface.handler.store.writable, presetVar)
        && forceDefaults == old(forceDefaults) && world == old(world)
    {
      var refusal := SaveCheck();
      if refusal.Some? {
        return refusal.value;
      }
      if !confirmed {
        return Cancelled;
      }
      var config := iface.GetCurrentConfig(false);
      if config.None? {
        return SaveCrashed;
      }
      var written := WritePreset(presetVar, config.value, false);
      if !written {
        return WriteFailed;
      }
      iface.handler.SetLastSelectedPreset(presetVar);
      iface.handler.SetLastSettings(NoSettings);
      return Saved(presetVar);
    }

    /**
     * `save_preset(name, confirmed)`: without a chosen preset it is
     * `new_preset(name)`, otherwise the chosen preset is overwritten.
     */
    method SavePreset(name: string, confirmed: bool) returns (outcome: Outcome)
      requires Valid()
      modifies this, iface.handler.store
      ensures Valid()
      ensures var selected := old(presetVar);
        outcome == match SaveRefusal(old(Messages()), old(HasChanges()))
        case Some(o) => o
        case None =>
          if selected == "" then (if name == "" then Cancelled else if old(CurrentConfig(false)).None? then SaveCrashed else Saved(name))
          else if !confirmed then Cancelled
          else if old(CurrentConfig(false)).None? then SaveCrashed
          else if old(presets).None? then WriteFailed
          else Saved(selected)
      ensures !outcome.Saved? && !(outcome.SaveCrashed? && old(presetVar) == "") ==> unchanged(this) && unchanged(iface.handler.store)
      ensures outcome.SaveCrashed? && old(presetVar) == "" ==>
        presets == Some(old(presets).GetOr([])) && unchanged(iface.handler.store)
        && presetChoices == old(presetChoices) && presetVar == old(presetVar)
        && forceDefaults == old(forceDefaults) && world == old(world)
      ensures outcome.Saved? ==>
        presets == Some(Put(old(presets).GetOr([]), outcome.name + ".ini", SavedDoc(old(CurrentConfig(false)).value)))
        && presetVar == outcome.name
        && presetChoices == (if old(presetVar) == "" then PresetNames(presets.value) else old(presetChoices))
        && iface.handler.store.file == AfterPresetSave(old(iface.handler.store.file), iface.handler.store.writable, outcome.name)
        && forceDefaults == old(forceDefaults) && world == old(world)
    {
      if presetVar == "" {
        outcome := NewPreset(name);
      } else {
        outcome := OverwritePreset(confirmed);
      }
    }

    /**
     * After a successful build: the full config (defaults included) is
     * stored with both switches, and the mod flag is read again.
     */
    method RecordBuild()
      requires Valid()
      modifies iface, iface.handler.store
      ensures Valid() && iface.State() == old(iface.State())
      ensures iface.gameDir == old(iface.gameDir) && iface.savedDir == old(iface.savedDir)
      ensures iface.modExists == ModInstalled(world.fs, iface.gameDir)
      ensures iface.handler.store.file == AfterBuild(old(iface.handler.store.file), iface.handler.store.writable,
                                                     old(CurrentConfig(true)), iface.sync, forceDefaults)
    {
      var full := iface.GetCurrentConfig(true);
      if full.Some? && full.value != [] {
        iface.handler.SetLastSettings(Settings(Some(full.value), Some(iface.sync), Some(forceDefaults)));
      }
      iface.CheckModExists(world.fs);
    }

    /**
     * The build itself, once the checks have passed: the mod is made from
     * `config` into the target folder; only a successful build stores the
     * last settings and refreshes the mod flag.
     */
    method RunBuild(config: Config, target: ModsTarget, creator: Creator) returns (outcome: Outcome, build: Build)
      requires Valid() && Fresh(world.fs, creator.temp) && !target.Declined?
      modifies this, iface, iface.handler.store
      ensures Valid() && iface.State() == old(iface.State())
      ensures forceDefaults == old(forceDefaults) && presetVar == old(presetVar)
      ensures presetChoices == old(presetChoices) && presets == old(presets)
      ensures iface.gameDir == old(iface.gameDir) && iface.savedDir == old(iface.savedDir)
      ensures world == build.world && world.cwd == old(world).cwd
      ensures build.warned == IncompatibleMods(old(world).fs, TargetPath(target, old(world).cwd), creator.listing)
      ensures FindRepak(old(world).fs, creator.exeDir, creator.basePath, creator.dataFolder).None? ==>
        outcome == BuildFailed(RepakNotFound(creator.exeDir + [creator.dataFolder, "repak"])) && world == old(world)
      ensures build.error.Some? ==>
        outcome == BuildFailed(build.error.value) && iface.modExists == old(iface.modExists) && unchanged(iface.handler.store)
      ensures build.error.None? ==>
        build.cfg == Some(CfgText(WithoutAiming(config)))
        && iface.modExists == ModInstalled(world.fs, iface.gameDir)
        && outcome == Created(iface.modExists && iface.gameDir != [], target.Local?)
        && iface.handler.store.file == AfterBuild(old(iface.handler.store.file), iface.handler.store.writable,
                                                  old(CurrentConfig(true)), iface.sync, forceDefaults)
    {
      build := ModBuild.CreateMod(world, config, creator.settings, TargetPath(target, world.cwd),
                                  creator.exeDir, creator.basePath, creator.dataFolder, creator.listing,
                                  creator.temp, creator.pack);
      world := build.world;
      if build.error.Some? {
        return BuildFailed(build.error.value), build;
      }
      RecordBuild();
      outcome := Created(iface.modExists && iface.gameDir != [], target.Local?);
    }

    /**
     * `create_mod`, with the answers of the build-locally question, of the
     * force-defaults confirmation and the folders the directory search
     * walks as inputs. After the first two checks the mods folder is
     * validated, which may correct and record the game directory and
     * create `~mods`, whatever the later checks decide; then the build.
     * The build directory `mkdtemp` makes is fresh and outside the game's
     * folders.
     */
    method CreateMod(buildLocally: bool, confirmed: bool, walkRoots: seq<Path>, creator: Creator)
      returns (outcome: Outcome, target: ModsTarget, build: Option<Build>)
      requires Valid() && Fresh(world.fs, creator.temp) && GameFolder !in creator.temp
      modifies this, iface, iface.handler.store
      ensures Valid() && iface.State() == old(iface.State())
      ensures forceDefaults == old(forceDefaults) && presetVar == old(presetVar)
      ensures presetChoices == old(presetChoices) && presets == old(presets)
      ensures target == if old(Messages()) == [] && (old(HasChanges()) || old(forceDefaults))
                        then ModsAnswer(old(world.fs), old(iface.gameDir), buildLocally, walkRoots) else Declined
      ensures target.InGame? ==> iface.gameDir == GameDirSearch(old(world.fs), old(iface.gameDir), walkRoots).value
                                 && iface.savedDir == Some(iface.gameDir)
      ensures !target.InGame? ==> iface.gameDir == old(iface.gameDir) && iface.savedDir == old(iface.savedDir)
      ensures var prepared := if target.InGame? then MakeModsFolder(old(world.fs), iface.gameDir) else old(world.fs);
        var refusal := BuildRefusal(old(Messages()), old(HasChanges()), old(forceDefaults), target, confirmed,
                                    old(CurrentConfig(forceDefaults)));
        refusal.Some? ==> outcome == refusal.value && build.None? && world == old(world).(fs := prepared)
                          && unchanged(iface.handler.store)
                          && iface.modExists == if target.InGame? then ModInstalled(old(world.fs), iface.gameDir)
                                                else old(iface.modExists)
      ensures var prepared := if target.InGame? then MakeModsFolder(old(world.fs), iface.gameDir) else old(world.fs);
        var refusal := BuildRefusal(old(Messages()), old(HasChanges()), old(forceDefaults), target, confirmed,
                                    old(CurrentConfig(forceDefaults)));
        refusal.None? ==> build.Some? && world == build.value.world && world.cwd == old(world.cwd)
                          && old(CurrentConfig(forceDefaults)).Some?
                          && build.value.warned == IncompatibleMods(prepared, TargetPath(target, old(world.cwd)), creator.listing)
                          && (build.value.error.Some? ==> outcome == BuildFailed(build.value.error.value))
                          && (build.value.error.None? ==>
                                build.value.cfg == Some(CfgText(WithoutAiming(old(CurrentConfig(forceDefaults)).value)))
                                && outcome == Created(iface.modExists && iface.gameDir != [], target.Local?))
    {
      var invalid, messages := iface.HasInvalidEntries();
      if invalid {
        return InvalidValues(messages), Declined, None;
      }
      var changed := iface.HasChanges();
      if !changed && !forceDefaults {
        return NoChanges, Declined, None;
      }
      BuildRefusalAfterChecks(Messages(), HasChanges(), forceDefaults, confirmed, CurrentConfig(forceDefaults));
      outcome, target, build := ValidateAndBuild(buildLocally, confirmed, walkRoots, creator);
    }

    /** `create_mod` from `validate_mods_directory` on, once the form has passed its checks. */
    method ValidateAndBuild(buildLocally: bool, confirmed: bool, walkRoots: seq<Path>, creator: Creator)
      returns (outcome: Outcome, target: ModsTarget, build: Option<Build>)
      requires Valid() && Fresh(world.fs, creator.temp) && GameFolder !in creator.temp
      modifies this, iface, iface.handler.store
      ensures Valid() && iface.State() == old(iface.State())
      ensures forceDefaults == old(forceDefaults) && presetVar == old(presetVar)
      ensures presetChoices == old(presetChoices) && presets == old(presets)
      ensures target == ModsAnswer(old(world.fs), old(iface.gameDir), buildLocally, walkRoots)
      ensures target.InGame? ==> iface.gameDir == GameDirSearch(old(world.fs), old(iface.gameDir), walkRoots).value
                                 && iface.savedDir == Some(iface.gameDir)
      ensures !target.InGame? ==> iface.gameDir == old(iface.gameDir) && iface.savedDir == old(iface.savedDir)
      ensures var prepared := if target.InGame? then MakeModsFolder(old(world.fs), iface.gameDir) else old(world.fs);
        var refusal := BuildRefusal([], true, old(forceDefaults), target, confirmed, old(CurrentConfig(forceDefaults)));
        refusal.Some? ==> outcome == refusal.value && build.None? && world == old(world).(fs := prepared)
                          && unchanged(iface.handler.store)
                          && iface.modExists == if target.InGame? then ModInstalled(old(world.fs), iface.gameDir)
                                                else old(iface.modExists)
      ensures var prepared := if target.InGame? then MakeModsFolder(old(world.fs), iface.gameDir) else old(world.fs);
        var refusal := BuildRefusal([], true, old(forceDefaults), target, confirmed, old(CurrentConfig(forceDefaults)));
        refusal.None? ==> build.Some? && world == build.value.world && world.cwd == old(world.cwd)
                          && old(CurrentConfig(forceDefaults)).Some?
                          && build.value.warned == IncompatibleMods(prepared, TargetPath(target, old(world.cwd)), creator.listing)
                          && (build.value.error.Some? ==> outcome == BuildFailed(build.value.error.value))
                          && (build.value.error.None? ==>
                                build.value.cfg == Some(CfgText(WithoutAiming(old(CurrentConfig(forceDefaults)).value)))
                                && outcome == Created(iface.modExists && iface.gameDir != [], target.Local?))
    {
      var fs;
      ghost var config := CurrentConfig(forceDefaults);
      target, fs := iface.ValidateModsDirectory(world.fs, buildLocally, walkRoots);
      world := world.(fs := fs);
      assert CurrentConfig(forceDefaults) == config;
      if target.InGame? {
        MakeModsFolderKeepsFresh(old(world.fs), iface.gameDir, creator.temp);
      }
      outcome, build := BuildInto(target, confirmed, creator);
    }

    /** The rest of `create_mod` once the mods folder has been answered: the confirmation, the config, the build. */
    method BuildInto(target: ModsTarget, confirmed: bool, creator: Creator) returns (outcome: Outcome, build: Option<Build>)
      requires Valid() && Fresh(world.fs, creator.temp)
      modifies this, iface, iface.handler.store
      ensures Valid() && iface.State() == old(iface.State())
      ensures forceDefaults == old(forceDefaults) && presetVar == old(presetVar)
      ensures presetChoices == old(presetChoices) && presets == old(presets)
      ensures iface.gameDir == old(iface.gameDir) && iface.savedDir == old(iface.savedDir)
      ensures var refusal := BuildRefusal([], true, old(forceDefaults), target, confirmed, old(CurrentConfig(forceDefaults)));
        refusal.Some? ==> outcome == refusal.value && build.None? && world == old(world)
                          && unchanged(iface.handler.store) && iface.modExists == old(iface.modExists)
      ensures var refusal := BuildRefusal([], true, old(forceDefaults), target, confirmed, old(CurrentConfig(forceDefaults)));
        refusal.None? ==> build.Some? && world == build.value.world && world.cwd == old(world.cwd)
                          && old(CurrentConfig(forceDefaults)).Some?
                          && build.value.warned == IncompatibleMods(old(world.fs), TargetPath(target, old(world.cwd)), creator.listing)
                          && (build.value.error.Some? ==> outcome == BuildFailed(build.value.error.value))
                          && (build.value.error.None? ==>
                                build.value.cfg == Some(CfgText(WithoutAiming(old(CurrentConfig(forceDefaults)).value)))
                                && outcome == Created(iface.modExists && iface.gameDir != [], target.Local?))
    {
      if target.Declined? {
        return Cancelled, None;
      }
      if forceDefaults && !confirmed {
        return Cancelled, None;
      }
      var current := iface.GetCurrentConfig(forceDefaults);
      if current.None? || current.value == [] {
        return NothingToBuild, None;
      }
      var b;
      outcome, b := RunBuild(current.value, target, creator);
      build := Some(b);
    }

    /**
     * `remove_mod(confirmed)`: after the confirmation, the pak files go and,
     * when something was removed, the last settings are cleared.
     */
    method RemoveMod(confirmed: bool, walkRoots: seq<Path>) returns (removed: bool)
      requires Valid()
      modifies this, iface, iface.handler.store
      ensures Valid() && iface.State() == old(iface.State())
      ensures !confirmed ==> !removed && unchanged(this) && unchanged(iface) && unchanged(iface.handler.store)
      ensures removed ==> iface.handler.store.file == SetKey(old(iface.handler.store.file), iface.handler.store.writable,
                                                             LastSettingsKey, ClearedSettings)
                          && !ModInstalled(world.fs, iface.gameDir) && !iface.modExists
      ensures !removed ==> unchanged(iface.handler.store)
      ensures confirmed && (old(iface.gameDir) == [] || GameDirSearch(old(world.fs), old(iface.gameDir), walkRoots).None?) ==>
        !removed && world == old(world)
        && iface.gameDir == old(iface.gameDir) && iface.savedDir == old(iface.savedDir) && iface.modExists == old(iface.modExists)
      ensures confirmed && old(iface.gameDir) != [] && GameDirSearch(old(world.fs), old(iface.gameDir), walkRoots).Some? ==>
        iface.gameDir == GameDirSearch(old(world.fs), old(iface.gameDir), walkRoots).value && iface.savedDir == Some(iface.gameDir)
        && world.fs == RemoveModFiles(old(world.fs), iface.gameDir).fs
        && (removed <==> RemoveModFiles(old(world.fs), iface.gameDir).removed && !RemoveModFiles(old(world.fs), iface.gameDir).failed)
        && iface.modExists == if removed then false else ModInstalled(old(world.fs), iface.gameDir)
      ensures world.cwd == old(world.cwd) && presetVar == old(presetVar) && forceDefaults == old(forceDefaults)
      ensures presets == old(presets) && presetChoices == old(presetChoices)
    {
      if !confirmed {
        return false;
      }
      var after;
      removed, after := iface.RemoveMod(world.fs, walkRoots);
      world := world.(fs := after);
      if removed {
        iface.handler.ClearLastSettingsOnly();
      }
    }

    /** `on_closing`: the chosen preset is remembered. */
    method OnClosing()
      modifies iface.handler.store
      ensures presetVar == "" ==> unchanged(iface.handler.store)
      ensures presetVar != "" ==>
        iface.handler.store.file == SetKey(old(iface.handler.store.file), iface.handler.store.writable, LastPresetKey, PText(presetVar))
    {
      if presetVar != "" {
        iface.handler.SetLastSelectedPreset(presetVar);
      }
    }
  }
}
