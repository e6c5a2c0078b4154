/**
 * The user preferences file `app_preferences.json`, shared by the settings
 * handler (last preset, last settings) and the language manager (language).
 * Every writer reads the whole file, changes its own keys and writes the
 * whole file back; a file that cannot be read counts as empty and a write
 * that fails is ignored.
 */
module Prefs {
  import opened Wrappers
  import opened Values

  /** The object stored under `last_settings`; `{}` has every field absent. */
  datatype Settings = Settings(config: Option<Config>, sync: Option<bool>, force: Option<bool>)
  {
    /** Python's truth value of the dict. */
    predicate NonEmpty() {
      config.Some? || sync.Some? || force.Some?
    }
  }

  /** `{}` */
  const NoSettings := Settings(None, None, None)

  /** A JSON value in the file: text, a settings object, or anything else. */
  datatype PrefValue = PText(text: string) | PSettings(settings: Settings) | POther

  /** The file on disk: absent, unparsable, or a JSON object. */
  datatype PrefsFile = Missing | Corrupt | Stored(prefs: map<string, PrefValue>)

  const LastPresetKey := "last_selected_preset"
  const LastSettingsKey := "last_settings"
  const LanguageKey := "language"

  /** `load_preferences`: the stored object, or `{}` when the file is missing or unreadable. */
  function Loaded(file: PrefsFile): map<string, PrefValue> {
    if file.Stored? then file.prefs else map[]
  }

  /** What a reader finds under `key`. */
  function Lookup(file: PrefsFile, key: string): (r: Option<PrefValue>)
    ensures r.Some? <==> key in Loaded(file)
    ensures file.Missing? || file.Corrupt? ==> r.None?
  {
    var prefs := Loaded(file);
    if key in prefs then Some(prefs[key]) else None
  }

  /** `save_preferences`: the object replaces the file when it can be written. */
  function Written(file: PrefsFile, writable: bool, prefs: map<string, PrefValue>): PrefsFile {
    if writable then Stored(prefs) else file
  }

  /** One setter: read the file, set `key` to `v`, write it back. */
  function SetKey(file: PrefsFile, writable: bool, key: string, v: PrefValue): PrefsFile {
    Written(file, writable, Loaded(file)[key := v])
  }

  /** A setter changes what readers find under its own key and nothing else. */
  lemma SetKeyOnlyOwnKey(file: PrefsFile, writable: bool, key: string, v: PrefValue, other: string)
    ensures writable ==> Lookup(SetKey(file, writable, key, v), key) == Some(v)
    ensures other != key ==> Lookup(SetKey(file, writable, key, v), other) == Lookup(file, other)
    ensures !writable ==> SetKey(file, writable, key, v) == file
  {
  }

  /** `get_last_selected_preset`: the stored name, or '' when there is none. */
  function LastPreset(file: PrefsFile): string {
    match Lookup(file, LastPresetKey)
    case Some(PText(name)) => name
    case _ => ""
  }

  /** `get_last_settings`: the stored settings, or `{}`. */
  function LastSettings(file: PrefsFile): Settings {
    match Lookup(file, LastSettingsKey)
    case Some(PSettings(s)) => s
    case _ => NoSettings
  }

  /** The file, and whether it can be written. */
  class PrefsStore {
    var file: PrefsFile
    var writable: bool

    constructor(file: PrefsFile, writable: bool)
      ensures this.file == file && this.writable == writable
    {
      this.file := file;
      this.writable := writable;
    }

    function Load(): map<string, PrefValue>
      reads this
    {
      Loaded(file)
    }

    method Save(prefs: map<string, PrefValue>)
      modifies this
      ensures file == Written(old(file), writable, prefs)
      ensures writable == old(writable)
    {
      if writable {
        file := Stored(prefs);
      }
    }

    /** Read, set one key, write back. */
    method Set(key: string, v: PrefValue)
      modifies this
      ensures file == SetKey(old(file), writable, key, v)
      ensures writable == old(writable)
    {
      var prefs := Load();
      prefs := prefs[key := v];
      Save(prefs);
    }
  }
}
