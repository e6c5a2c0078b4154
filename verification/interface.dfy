/**
 * `ConfigInterface` (`modules/config_interface.py`): the settings form as
 * state — entry texts, checkbox states, the sync flag — together with the
 * game directory, the recorded directory and the mod flag. Queries walk
 * the fields with early returns; the editing operations overwrite fields
 * in place. Widgets, colours and the tab row are views of this state and
 * are computed by the functions of module Form.
 */
module Interface {
  import opened Wrappers
  import opened Text
  import opened Dicts
  import opened Numbers
  import opened Values
  import opened Form
  import FormSpec = Form
  import opened GameDir
  import opened ConfigHandling

  /**
   * The answer of `validate_mods_directory`: refused, build in the
   * working directory, or build into the game's `~mods` folder.
   */
  datatype ModsTarget = Declined | Local | InGame(modsPath: Path)

  function TargetPath(target: ModsTarget, cwd: Path): Path
    requires !target.Declined?
  {
    if target.Local? then cwd else target.modsPath
  }

  /**
   * What `validate_mods_directory` answers for the directory in the form.
   * Without one, the working directory when the user agrees to build
   * locally. With one, the `~mods` folder of a game directory the search
   * finds from it (the directory itself, one above it, or a folder the
   * walk visited), and no answer when the search finds none.
   */
  function ModsAnswer(fs: FileSystem, gameDir: Path, buildLocally: bool, walkRoots: seq<Path>): (r: ModsTarget)
    ensures r.Local? <==> gameDir == [] && buildLocally
    ensures r.Declined? <==> if gameDir == [] then !buildLocally else GameDirSearch(fs, gameDir, walkRoots).None?
    ensures r.InGame? ==>
      (|r.modsPath| >= |ModsFolder|
       && var g := r.modsPath[..|r.modsPath| - |ModsFolder|];
          r.modsPath == ModsPath(g) && IsGameDir(fs, g) && (g <= gameDir || g in walkRoots))
  {
    if gameDir == [] then (if buildLocally then Local else Declined)
    else
      match GameDirSearch(fs, gameDir, walkRoots)
      case None => Declined
      case Some(g) =>
        assert ModsPath(g)[..|ModsPath(g)| - |ModsFolder|] == g;
        InGame(ModsPath(g))
  }

  /** Loading a schema file keeps every stored maximum a number. */
  lemma {:induction false} ApplySchemaNumericMaxes(s: Schema, doc: IniDoc)
    requires NumericMaxes(s.maxValues)
    ensures NumericMaxes(ApplySchema(s, doc).maxValues)
    decreases |doc|
  {
    if doc != [] {
      var n := |doc|;
      var prefix := doc[..n - 1];
      assert doc == prefix + [doc[n - 1]];
      ApplySchemaNumericMaxes(s, prefix);
      forall section, key | Lookup2(ApplySchema(s, doc).maxValues, section, key).Some?
        ensures Lookup2(ApplySchema(s, doc).maxValues, section, key).value.IsNumeric()
      {
        ApplySchemaStep(s, prefix, doc[n - 1], section);
        if doc[n - 1].0 == section {
          ReadSchemaSectionShape(doc[n - 1].1, key);
        } else {
          assert Lookup2(ApplySchema(s, doc).maxValues, section, key) == Lookup2(ApplySchema(s, prefix).maxValues, section, key);
        }
      }
    }
  }

  /** The loop of `has_invalid_entries`: what `report` says of each entry, in entry order. */
  method ReportEntries(entries: Entries, report: ((FieldKey, string)) -> Option<string>) returns (messages: seq<string>)
    ensures messages == Reports(entries, report)
  {
    messages := [];
    var i := 0;
    while i < |entries|
      invariant 0 <= i <= |entries|
      invariant messages == Reports(entries[..i], report)
    {
      var found := report(entries[i]);
      assert entries[..i + 1][..i] == entries[..i];
      ReportsSnoc(entries[..i + 1], report);
      if found.Some? {
        messages := messages + [found.value];
      }
      i := i + 1;
    }
    assert entries[..|entries|] == entries;
  }

  /** The first two loops of `update_entries`: each field in turn set to what `reset` gives for its key. */
  method ResetValues<V>(d: Dict<FieldKey, V>, reset: FieldKey -> V) returns (r: Dict<FieldKey, V>)
    ensures r == ResetAll(d, reset)
  {
    r := d;
    var i := 0;
    while i < |r|
      invariant 0 <= i <= |r| && |r| == |d|
      invariant forall j :: 0 <= j < i ==> r[j] == (d[j].0, reset(d[j].0))
      invariant forall j :: i <= j < |r| ==> r[j] == d[j]
    {
      r := r[i := (r[i].0, reset(r[i].0))];
      i := i + 1;
    }
  }

  class ConfigInterface {
    var entries: Entries
    var checks: Checks
    var sync: bool
    var gameDir: Path
    /** What `stalker_location.ini` records. */
    var savedDir: Option<Path>
    var modExists: bool
    const handler: ConfigHandler

    function State(): Form
      reads this
    {
      Form(entries, checks, sync)
    }

    /** Every field has a default and every maximum is a number. */
    ghost predicate Valid()
      reads this, handler
    {
      NumericMaxes(handler.maxValues) && FieldsHaveDefaults(handler.defaultConfig, State())
    }

    /**
     * The form as the window built it, and the directory recorded earlier,
     * taken when it still exists.
     */
    constructor(handler: ConfigHandler, fields: Form, fs: FileSystem, saved: Option<Path>)
      requires NumericMaxes(handler.maxValues) && FieldsHaveDefaults(handler.defaultConfig, fields)
      ensures this.handler == handler && State() == fields && Valid()
      ensures gameDir == if saved.Some? && saved.value != [] && fs.Exists(saved.value) then saved.value else []
      ensures savedDir == saved
      ensures modExists == ModInstalled(fs, gameDir)
    {
      this.handler := handler;
      entries, checks, sync := fields.entries, fields.checks, fields.sync;
      gameDir, savedDir, modExists := [], saved, false;
      new;
      if saved.Some? && saved.value != [] && fs.Exists(saved.value) {
        gameDir := saved.value;
        if fs.Exists(gameDir + [GameFolder]) {
          CheckModExists(fs);
        }
      }
    }

    // -------------------------------------------------------------------
    // Queries

    /** `has_invalid_entries`: one message per invalid entry, in entry order. */
    method HasInvalidEntries() returns (invalid: bool, messages: seq<string>)
      ensures messages == InvalidMessages(handler.defaultConfig, handler.maxValues, entries)
      ensures invalid <==> messages != []
    {
      messages := ReportEntries(entries, Reporter(handler.defaultConfig, handler.maxValues));
      invalid := messages != [];
    }

    /** `validate_entry(section, key)`: whether the entry passes (its colours are views). */
    method ValidateEntry(section: string, key: string) returns (ok: bool)
      requires Has(entries, (section, key))
      ensures ok <==> EntryValidity(handler.defaultConfig, handler.maxValues, (section, key), Get(entries, (section, key)).value).Valid?
    {
      var v := EntryValidity(handler.defaultConfig, handler.maxValues, (section, key), Get(entries, (section, key)).value);
      return v.Valid?;
    }

    /** The first loop of `has_changes`: some entry differs from its default. */
    method EntriesChanged() returns (changed: bool)
      ensures changed <==> exists i :: 0 <= i < |entries| && EntryDiffers(handler.defaultConfig, entries[i].0, entries[i].1)
    {
      var defaults, es := handler.defaultConfig, entries;
      var i := 0;
      while i < |es|
        invariant 0 <= i <= |es|
        invariant forall j :: 0 <= j < i ==> !EntryDiffers(defaults, es[j].0, es[j].1)
      {
        if EntryDiffers(defaults, es[i].0, es[i].1) {
          return true;
        }
        i := i + 1;
      }
      return false;
    }

    /** The second loop of `has_changes`: some checkbox differs from its default. */
    method ChecksChanged() returns (changed: bool)
      ensures changed <==> exists i :: 0 <= i < |checks| && CheckDiffers(handler.defaultConfig, checks[i].0, checks[i].1)
    {
      var defaults, cs := handler.defaultConfig, checks;
      var i := 0;
      while i < |cs|
        invariant 0 <= i <= |cs|
        invariant forall j :: 0 <= j < i ==> !CheckDiffers(defaults, cs[j].0, cs[j].1)
      {
        if CheckDiffers(defaults, cs[i].0, cs[i].1) {
          return true;
        }
        i := i + 1;
      }
      return false;
    }

    /** `has_changes` */
    method HasChanges() returns (changed: bool)
      ensures changed == Changed(handler.defaultConfig, State())
    {
      changed := EntriesChanged();
      if changed {
        return;
      }
      changed := ChecksChanged();
      if changed {
        return;
      }
      var syncDefault := Lookup2(handler.defaultConfig, Aiming, SyncKey);
      changed := syncDefault.Some? && !BoolEquals(sync, syncDefault.value);
    }

    /** The entries of one category differ from their defaults. */
    method CategoryEntriesChanged(section: string) returns (changed: bool)
      requires section != Aiming
      ensures changed <==> (exists i :: 0 <= i < |entries| && InCategory(section, entries[i].0)
                                        && EntryDiffers(handler.defaultConfig, entries[i].0, entries[i].1))
    {
      var defaults, es := handler.defaultConfig, entries;
      var i := 0;
      while i < |es|
        invariant 0 <= i <= |es|
        invariant forall j :: 0 <= j < i ==> !(InCategory(section, es[j].0) && EntryDiffers(defaults, es[j].0, es[j].1))
      {
        if es[i].0.0 == section && !(section == Movement && IsAimingKey(es[i].0.1)) {
          if EntryDiffers(defaults, es[i].0, es[i].1) {
            return true;
          }
        }
        i := i + 1;
      }
      return false;
    }

    /** The checkboxes of one section differ from their defaults. */
    method SectionChecksChanged(section: string) returns (changed: bool)
      ensures changed <==> (exists i :: 0 <= i < |checks| && checks[i].0.0 == section
                                        && CheckDiffers(handler.defaultConfig, checks[i].0, checks[i].1))
    {
      var defaults, cs := handler.defaultConfig, checks;
      var i := 0;
      while i < |cs|
        invariant 0 <= i <= |cs|
        invariant forall j :: 0 <= j < i ==> !(cs[j].0.0 == section && CheckDiffers(defaults, cs[j].0, cs[j].1))
      {
        if cs[i].0.0 == section && CheckDiffers(defaults, cs[i].0, cs[i].1) {
          return true;
        }
        i := i + 1;
      }
      return false;
    }

    /** `has_category_changes(section)` */
    method HasCategoryChanges(section: string) returns (changed: bool)
      ensures changed == CategoryChanged(handler.defaultConfig, State(), section)
    {
      var defaults := handler.defaultConfig;
      if section == Aiming {
        var syncDefault := Lookup2(defaults, Aiming, SyncKey);
        if syncDefault.Some? && !BoolEquals(sync, syncDefault.value) {
          return true;
        }
        changed := AimingRateChanged(TurnRate);
        if changed {
          return;
        }
        changed := AimingRateChanged(LookUpRate);
        return;
      }
      changed := CategoryEntriesChanged(section);
      if changed {
        return;
      }
      changed := SectionChecksChanged(section);
    }

    /** One aiming rate, when the form has it, differs from its default. */
    method AimingRateChanged(key: string) returns (changed: bool)
      ensures changed == AimingEntryDiffers(handler.defaultConfig, entries, key)
    {
      match Get(entries, (Movement, key)) {
        case None =>
          return false;
        case Some(text) =>
          var i :| 0 <= i < |entries| && entries[i] == ((Movement, key), text);
          assert Keys(entries)[i] == (Movement, key);
          return EntryDiffers(handler.defaultConfig, (Movement, key), text);
      }
    }

    /** `update_tab_colors`: the new text of each tab, given the current ones. */
    method UpdateTabColors(tabs: seq<string>) returns (labels: seq<string>)
      ensures |labels| == |tabs|
      ensures forall i :: 0 <= i < |tabs| ==>
                labels[i] == TabLabel(tabs[i], CategoryChanged(handler.defaultConfig, State(), CleanTab(tabs[i])))
    {
      labels := tabs;
      var i := 0;
      while i < |tabs|
        invariant 0 <= i <= |tabs| && |labels| == |tabs|
        invariant forall j :: 0 <= j < i ==>
                    labels[j] == TabLabel(tabs[j], CategoryChanged(handler.defaultConfig, State(), CleanTab(tabs[j])))
        invariant forall j :: i <= j < |tabs| ==> labels[j] == tabs[j]
      {
        var tab := tabs[i];
        var clean := ReplaceAll(ReplaceAll(tab, "● ", ""), "* ", "");
        var changed := HasCategoryChanges(clean);
        if changed {
          if !StartsWith(tab, Marker) {
            labels := labels[i := Marker + clean];
          }
        } else {
          if StartsWith(tab, Marker) {
            labels := labels[i := clean];
          }
        }
        i := i + 1;
      }
    }

    // -------------------------------------------------------------------
    // Editing

    /** `reset_to_default(section, key)` */
    method ResetToDefault(section: string, key: string)
      requires Valid() && Lookup2(handler.defaultConfig, section, key).Some?
      modifies this
      ensures State() == ResetField(handler.defaultConfig, old(State()), (section, key)) && Valid()
      ensures gameDir == old(gameDir) && savedDir == old(savedDir) && modExists == old(modExists)
    {
      var defaults := handler.defaultConfig;
      var d := Lookup2(defaults, section, key).value;
      if section == Movement && IsAimingKey(key) {
        sync := false;
      }
      if d.VBool? {
        if Has(checks, (section, key)) {
          PutKeepsDefaults(defaults, checks, (section, key), d.b);
          checks := Put(checks, (section, key), d.b);
        }
      } else {
        if Has(entries, (section, key)) {
          PutKeepsDefaults(defaults, entries, (section, key), Str(d));
          entries := Put(entries, (section, key), Str(d));
        }
      }
    }

    /** `sync_sensitivity_rates` */
    method SyncSensitivityRates()
      requires Valid()
      requires sync ==> Has(entries, (Movement, TurnRate)) && Has(entries, (Movement, LookUpRate))
      modifies this
      ensures State() == SyncRates(old(State())) && Valid()
      ensures gameDir == old(gameDir) && savedDir == old(savedDir) && modExists == old(modExists)
    {
      var form := State();
      SyncRatesKeepsDefaults(handler.defaultConfig, form);
      if sync {
        match ParseInt(EntryOf(form, (Movement, TurnRate))) {
          case None =>
          case Some(value) =>
            entries := Put(form.entries, (Movement, LookUpRate), RenderInt(value));
        }
      }
    }

    /** `validate_aiming_entry(key)`: only `int()` is tried here, not the dot rule. */
    method ValidateAimingEntry(key: string)
      requires Valid() && Has(entries, (Movement, key))
      requires sync ==> Has(entries, (Movement, TurnRate)) && Has(entries, (Movement, LookUpRate))
      modifies this
      ensures State() == AimingEdit(old(State()), key) && Valid()
      ensures gameDir == old(gameDir) && savedDir == old(savedDir) && modExists == old(modExists)
    {
      var form := State();
      AimingEditKeepsDefaults(handler.defaultConfig, form, key);
      match ParseInt(EntryOf(form, (Movement, key))) {
        case None =>
        case Some(value) =>
          if sync {
            entries := Put(Put(form.entries, (Movement, TurnRate), RenderInt(value)), (Movement, LookUpRate), RenderInt(value));
          }
      }
    }

    /** One loaded value onto the form. */
    method ApplyLoadedValue(section: string, key: string, value: Value)
      requires Valid()
      modifies this
      ensures State() == ApplyValue(old(State()), section, key, value) && Valid()
      ensures gameDir == old(gameDir) && savedDir == old(savedDir) && modExists == old(modExists)
    {
      var form := State();
      ApplyValueKeepsDefaults(handler.defaultConfig, form, section, key, value);
      if section == Aiming && key == SyncKey {
        sync := Truthy(value);
      } else if value.VBool? {
        if Has(form.checks, (section, key)) {
          checks := Put(form.checks, (section, key), value.b);
        }
      } else {
        if Has(form.entries, (section, key)) {
          entries := Put(form.entries, (section, key), Str(value));
        }
      }
    }

    /** One loaded section onto the form. */
    method ApplyLoadedSection(section: string, items: Section)
      requires Valid()
      modifies this
      ensures State() == ApplySection(old(State()), section, items) && Valid()
      ensures gameDir == old(gameDir) && savedDir == old(savedDir) && modExists == old(modExists)
    {
      var j := 0;
      while j < |items|
        invariant 0 <= j <= |items| && Valid()
        invariant State() == ApplySection(old(State()), section, items[..j])
        invariant gameDir == old(gameDir) && savedDir == old(savedDir) && modExists == old(modExists)
      {
        assert items[..j + 1][..j] == items[..j];
        ApplyLoadedValue(section, items[j].0, items[j].1);
        j := j + 1;
      }
      assert items[..|items|] == items;
    }

    /** The first half of `update_entries(config)`: every field back to its default. */
    method ResetFields()
      requires Valid()
      modifies this
      ensures State() == Form(ResetEntries(handler.defaultConfig, old(entries)), ResetChecks(handler.defaultConfig, old(checks)), old(sync))
      ensures Valid()
      ensures gameDir == old(gameDir) && savedDir == old(savedDir) && modExists == old(modExists)
    {
      var defaults := handler.defaultConfig;
      var es := ResetValues(entries, DefaultTexts(defaults));
      var cs := ResetValues(checks, DefaultFlags(defaults));
      ResetAllKeys(entries, DefaultTexts(defaults));
      ResetAllKeys(checks, DefaultFlags(defaults));
      entries, checks := es, cs;
    }

    /** `update_entries(config)`: every field to its default, then the config's values. */
    method UpdateEntries(config: Config)
      requires Valid()
      modifies this
      ensures State() == FormSpec.UpdateEntries(handler.defaultConfig, old(State()), config) && Valid()
      ensures gameDir == old(gameDir) && savedDir == old(savedDir) && modExists == old(modExists)
    {
      ResetFields();
      var reset := State();
      var i := 0;
      while i < |config|
        invariant 0 <= i <= |config| && Valid()
        invariant State() == ApplyConfig(reset, config[..i])
        invariant gameDir == old(gameDir) && savedDir == old(savedDir) && modExists == old(modExists)
      {
        assert config[..i + 1][..i] == config[..i];
        ApplyLoadedSection(config[i].0, config[i].1);
        i := i + 1;
      }
      assert config[..|config|] == config;
    }

    // -------------------------------------------------------------------
    // The config built from the form

    /** One section's values, stopping at the first entry that is no number. */
    method ReadSectionValues(section: string, items: Section, includeDefaults: bool) returns (r: Option<Section>)
      requires CoversSection(State(), section, items)
      ensures r == SectionValues(State(), section, items, includeDefaults)
    {
      var form := State();
      var field := FieldReader(form, section, includeDefaults);
      var acc: Section := [];
      var j := 0;
      while j < |items|
        invariant 0 <= j <= |items|
        invariant Collect(items[..j], field) == Some(acc)
      {
        var key, value := items[j].0, items[j].1;
        CollectNext(items, field, j, acc);
        if value.VBool? {
          var current := CheckOf(form, (section, key));
          if includeDefaults || current != value.b {
            acc := Put(acc, key, VBool(current));
          }
        } else {
          var current := EntryOf(form, (section, key));
          if includeDefaults || current != Str(value) {
            match ParseNumber(current) {
              case None =>
                CollectFailsAt(items, field, j);
                return None;
              case Some(v) =>
                acc := Put(acc, key, v);
            }
          }
        }
        j := j + 1;
      }
      assert items[..|items|] == items;
      return Some(acc);
    }

    /** `get_current_config(include_defaults)` */
    method GetCurrentConfig(includeDefaults: bool) returns (r: Option<Config>)
      requires Covers(handler.defaultConfig, State())
      ensures r == CurrentConfig(State(), handler.defaultConfig, includeDefaults)
    {
      var defaults := handler.defaultConfig;
      var config: Config := [];
      var i := 0;
      while i < |defaults|
        invariant 0 <= i <= |defaults|
        invariant CurrentSections(State(), defaults[..i], includeDefaults) == Some(config)
      {
        var next := CollectSection(defaults, i, config, includeDefaults);
        if next.None? {
          SectionFailsAfter(State(), defaults, includeDefaults, i);
          return None;
        }
        config := next.value;
        i := i + 1;
      }
      assert defaults[..|defaults|] == defaults;
      if sync {
        config := Put(config, Aiming, [(SyncKey, VBool(true))]);
      }
      return Some(config);
    }

    /** One pass of the section loop in `get_current_config`. */
    method CollectSection(defaults: Config, i: nat, config: Config, includeDefaults: bool) returns (next: Option<Config>)
      requires i < |defaults| && Covers(defaults, State())
      requires CurrentSections(State(), defaults[..i], includeDefaults) == Some(config)
      ensures next == CurrentSections(State(), defaults[..i + 1], includeDefaults)
    {
      var section := defaults[i].0;
      if section != Aiming {
        CoversAt(defaults, State(), i);
        var changed := ReadSectionValues(section, defaults[i].1, includeDefaults);
        CurrentSectionsNext(State(), defaults, includeDefaults, i, config, changed);
        if changed.None? {
          return None;
        }
        next := Some(if changed.value != [] then Put(config, section, changed.value) else config);
      } else {
        CurrentSectionsNext(State(), defaults, includeDefaults, i, config, None);
        next := Some(config);
      }
    }

    // -------------------------------------------------------------------
    // The game directory and the mod

    /** `_check_mod_exists` */
    method CheckModExists(fs: FileSystem)
      modifies this
      ensures modExists == ModInstalled(fs, gameDir)
      ensures State() == old(State()) && gameDir == old(gameDir) && savedDir == old(savedDir)
    {
      modExists := false;
      if gameDir != [] && fs.Exists(gameDir) && fs.Exists(gameDir + [GameFolder]) {
        modExists := fs.Exists(ModFile(gameDir, OldModFile)) || fs.Exists(ModFile(gameDir, NewModFile));
      }
    }

    /** `validate_game_directory(path)`: on success the corrected directory is taken and recorded. */
    method ValidateGameDirectory(fs: FileSystem, path: Path, walkRoots: seq<Path>) returns (ok: bool)
      modifies this
      ensures ok == GameDirSearch(fs, path, walkRoots).Some?
      ensures ok ==> gameDir == GameDirSearch(fs, path, walkRoots).value && savedDir == Some(gameDir)
                     && modExists == ModInstalled(fs, gameDir)
      ensures !ok ==> gameDir == old(gameDir) && savedDir == old(savedDir) && modExists == old(modExists)
      ensures State() == old(State())
    {
      if path == [] {
        return false;
      }
      var corrected := FindGameDirectory(fs, path, walkRoots);
      if corrected.Some? {
        gameDir := corrected.value;
        savedDir := Some(corrected.value);
        CheckModExists(fs);
        return true;
      }
      return false;
    }

    /**
     * `validate_mods_directory`, `buildLocally` being the answer to the
     * question it asks when no directory is set. A directory in the form is
     * validated first, which corrects it and records it; the `~mods` folder
     * below the corrected directory is then created when it is missing.
     */
    method ValidateModsDirectory(fs: FileSystem, buildLocally: bool, walkRoots: seq<Path>)
      returns (target: ModsTarget, after: FileSystem)
      modifies this
      ensures target == ModsAnswer(fs, old(gameDir), buildLocally, walkRoots)
      ensures target.InGame? ==>
        gameDir == GameDirSearch(fs, old(gameDir), walkRoots).value && target.modsPath == ModsPath(gameDir)
        && savedDir == Some(gameDir) && modExists == ModInstalled(fs, gameDir)
        && after == MakeModsFolder(fs, gameDir)
      ensures !target.InGame? ==>
        gameDir == old(gameDir) && savedDir == old(savedDir) && modExists == old(modExists) && after == fs
      ensures State() == old(State())
    {
      after := fs;
      if gameDir == [] {
        target := if buildLocally then Local else Declined;
        return;
      }
      var valid := ValidateGameDirectory(fs, gameDir, walkRoots);
      if !valid {
        return Declined, after;
      }
      var modsPath := ModsPath(gameDir);
      if !after.Exists(modsPath) {
        after := MakeDirs(after, gameDir + [GameFolder], modsPath);
      }
      target := InGame(modsPath);
    }

    /**
     * `remove_mod`: with a usable directory, delete the pak under both
     * names; a failed delete ends it with False.
     */
    method RemoveMod(fs: FileSystem, walkRoots: seq<Path>) returns (ok: bool, after: FileSystem)
      modifies this
      ensures old(gameDir) == [] || GameDirSearch(fs, old(gameDir), walkRoots).None?
          ==> !ok && after == fs && gameDir == old(gameDir) && savedDir == old(savedDir) && modExists == old(modExists)
      ensures old(gameDir) != [] && GameDirSearch(fs, old(gameDir), walkRoots).Some?
          ==> gameDir == GameDirSearch(fs, old(gameDir), walkRoots).value && savedDir == Some(gameDir)
              && after == RemoveModFiles(fs, gameDir).fs
              && (ok <==> RemoveModFiles(fs, gameDir).removed && !RemoveModFiles(fs, gameDir).failed)
              && modExists == (if ok then false else ModInstalled(fs, gameDir))
      ensures ok ==> !ModInstalled(after, gameDir) && !modExists
      ensures State() == old(State())
    {
      after := fs;
      if gameDir == [] {
        return false, after;
      }
      var valid := ValidateGameDirectory(fs, gameDir, walkRoots);
      if !valid {
        return false, after;
      }
      var oldPak := ModFile(gameDir, OldModFile);
      var newPak := ModFile(gameDir, NewModFile);
      RemoveModFilesMeaning(fs, gameDir);
      var removed := false;
      if after.Exists(oldPak) {
        if oldPak in after.dirs {
          return false, after;
        }
        after := after.(files := after.files - {oldPak});
        removed := true;
      }
      if after.Exists(newPak) {
        if newPak in after.dirs {
          return false, after;
        }
        after := after.(files := after.files - {newPak});
        removed := true;
      }
      if removed {
        modExists := false;
        return true, after;
      }
      return false, after;
    }
  }
}
