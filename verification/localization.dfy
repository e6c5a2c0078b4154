/**
 * The localization layer: per-language string tables, the getters that
 * look a key up and fill in its named fields, the `get_text` and `t`
 * conveniences, and the language manager that discovers the language
 * files, remembers the chosen language in the preferences file and loads
 * the matching tables.
 */
module Localization {
  import opened Wrappers
  import opened Dicts
  import opened Text
  import Prefs

  /** A Tk font tuple such as ("Arial", 9, "bold"). */
  datatype Font = Font(family: string, size: int, styles: seq<string>)

  /** ('Arial', 9) */
  const DefaultFont := Font("Arial", 9, [])

  /** The twelve string tables `get_text` can reach. */
  datatype Category =
    | Titles | Buttons | Labels | Languages | Presets | Sections
    | Successes | Warnings | Errors | Confirmations | Instructions | Status

  /**
   * One language module: its string tables, its optional FONTS table and
   * APP_INFO.
   */
  datatype Tables = Tables(
    titles: Dict<string, string>, buttons: Dict<string, string>, labels: Dict<string, string>,
    languages: Dict<string, string>, presets: Dict<string, string>, sections: Dict<string, string>,
    successes: Dict<string, string>, warnings: Dict<string, string>, errors: Dict<string, string>,
    confirmations: Dict<string, string>, instructions: Dict<string, string>, status: Dict<string, string>,
    fonts: Option<Dict<string, Font>>, appInfo: Dict<string, string>)
  {
    function Table(c: Category): Dict<string, string> {
      match c
      case Titles => titles
      case Buttons => buttons
      case Labels => labels
      case Languages => languages
      case Presets => presets
      case Sections => sections
      case Successes => successes
      case Warnings => warnings
      case Errors => errors
      case Confirmations => confirmations
      case Instructions => instructions
      case Status => status
    }
  }

  /**
   * Why a text could not be produced: a named field the arguments lack
   * (KeyError), a positional field (IndexError, no positional arguments are
   * ever passed), a stray or unclosed brace (ValueError), a field with a
   * conversion, format spec, attribute or index (not modelled), a missing
   * APP_INFO entry (KeyError), or keyword arguments passed to a getter
   * that takes none (TypeError).
   */
  datatype TextError =
    | MissingField(name: string)
    | Positional
    | Malformed
    | Unsupported
    | MissingInfo(key: string)
    | UnexpectedArgs

  // ---------------------------------------------------------------------
  // str.format with keyword arguments
  // ---------------------------------------------------------------------

  /** Characters that give a field a conversion, spec, attribute or index. */
  predicate Special(c: char) {
    c == '!' || c == ':' || c == '.' || c == '['
  }

  /** A field name that is looked up as one keyword. */
  predicate KeywordName(name: string) {
    name != [] && !AllDigits(name) && Braceless(name) && forall i :: 0 <= i < |name| ==> !Special(name[i])
  }

  predicate Braceless(s: string) {
    '{' !in s && '}' !in s
  }

  function Prepend(s: string, r: Result<string, TextError>): (q: Result<string, TextError>)
    ensures q.Err? <==> r.Err?
    ensures r.Err? ==> q == r
  {
    match r
    case Ok(t) => Ok(s + t)
    case Err(e) => Err(e)
  }

  /**
   * `text.format(**args)`: `{{` and `}}` stand for single braces and
   * `{name}` for the value stored under `name`; the text is read left to
   * right and the first problem is the one reported.
   */
  function Format(text: string, args: Dict<string, string>): (r: Result<string, TextError>)
    ensures r.Err? && r.error.MissingField? ==> !Has(args, r.error.name)
    ensures !('{' in text) && !('}' in text) ==> r.Ok?
    decreases |text|
  {
    if text == [] then Ok("")
    else if |text| > 1 && text[0] == '{' && text[1] == '{' then Prepend("{", Format(text[2..], args))
    else if |text| > 1 && text[0] == '}' && text[1] == '}' then Prepend("}", Format(text[2..], args))
    else if text[0] == '}' then Err(Malformed)
    else if text[0] == '{' then
      match IndexOf(text[1..], '}')
      case None => Err(Malformed)
      case Some(j) =>
        var name := text[1..j + 1];
        if name == [] || AllDigits(name) then Err(Positional)
        else if '{' in name then Err(Malformed)
        else if exists i :: 0 <= i < |name| && Special(name[i]) then Err(Unsupported)
        else
          match Get(args, name)
          case None => Err(MissingField(name))
          case Some(v) => Prepend(v, Format(text[j + 2..], args))
    else Prepend([text[0]], Format(text[1..], args))
  }

  /** Text without braces formats to itself. */
  lemma {:induction false} FormatBraceless(text: string, args: Dict<string, string>)
    requires Braceless(text)
    ensures Format(text, args) == Ok(text)
  {
    if text != [] {
      assert Braceless(text[1..]);
      FormatBraceless(text[1..], args);
      assert [text[0]] + text[1..] == text;
    }
  }

  /** A braceless prefix is copied and the rest formatted after it. */
  lemma {:induction false} FormatAfterBraceless(prefix: string, rest: string, args: Dict<string, string>)
    requires Braceless(prefix)
    ensures Format(prefix + rest, args) == Prepend(prefix, Format(rest, args))
  {
    if prefix == [] {
      assert prefix + rest == rest;
      match Format(rest, args)
      case Ok(t) => assert prefix + t == t;
      case Err(_) =>
    } else {
      var text := prefix + rest;
      assert text[0] == prefix[0];
      assert text[1..] == prefix[1..] + rest;
      assert Braceless(prefix[1..]);
      FormatAfterBraceless(prefix[1..], rest, args);
      match Format(rest, args)
      case Ok(t) => assert [prefix[0]] + (prefix[1..] + t) == prefix + t;
      case Err(_) =>
    }
  }

  /** A keyword field is replaced by its value, or fails when the value is missing. */
  lemma FormatField(name: string, rest: string, args: Dict<string, string>)
    requires KeywordName(name)
    ensures Format("{" + name + "}" + rest, args) ==
      match Get(args, name)
      case None => Err(MissingField(name))
      case Some(v) => Prepend(v, Format(rest, args))
  {
    var text := "{" + name + "}" + rest;
    assert text[0] == '{' && text[1] == name[0];
    assert text[1..] == name + "}" + rest;
    assert text[1..][..|name|] == name;
    assert text[1..][|name|] == '}';
    assert IndexOf(text[1..], '}') == Some(|name|);
    assert text[1..|name| + 1] == name;
    assert text[|name| + 2..] == rest;
  }

  /** A reported missing field really is absent from the arguments. */
  lemma {:induction false} FormatMissing(text: string, args: Dict<string, string>)
    ensures Format(text, args).Err? && Format(text, args).error.MissingField? ==>
      !Has(args, Format(text, args).error.name)
    decreases |text|
  {
    if text == [] {
    } else if |text| > 1 && text[0] == '{' && text[1] == '{' {
      FormatMissing(text[2..], args);
    } else if |text| > 1 && text[0] == '}' && text[1] == '}' {
      FormatMissing(text[2..], args);
    } else if text[0] == '}' {
    } else if text[0] == '{' {
      match IndexOf(text[1..], '}')
      case None =>
      case Some(j) =>
        FormatMissing(text[j + 2..], args);
    } else {
      FormatMissing(text[1..], args);
    }
  }

  /** Formatting reads the arguments only through lookups. */
  lemma {:induction false} FormatSameLookups(text: string, a: Dict<string, string>, b: Dict<string, string>)
    requires forall n :: Get(a, n) == Get(b, n)
    ensures Format(text, a) == Format(text, b)
    decreases |text|
  {
    if text == [] {
    } else if |text| > 1 && text[0] == '{' && text[1] == '{' {
      FormatSameLookups(text[2..], a, b);
    } else if |text| > 1 && text[0] == '}' && text[1] == '}' {
      FormatSameLookups(text[2..], a, b);
    } else if text[0] == '}' {
    } else if text[0] == '{' {
      match IndexOf(text[1..], '}')
      case None =>
      case Some(j) =>
        FormatSameLookups(text[j + 2..], a, b);
    } else {
      FormatSameLookups(text[1..], a, b);
    }
  }

  // ---------------------------------------------------------------------
  // Localization getters
  // ---------------------------------------------------------------------

  /**
   * `get_data_folder_name`: the configured DATA_FOLDER_NAME, or "data"
   * when importing it fails (None).
   */
  function DataFolderName(configured: Option<string>): (r: string)
    ensures configured.None? ==> r == "data"
    ensures configured.Some? ==> r == configured.value
  {
    configured.GetOr("data")
  }

  /** `table.get(key, key)`: a missing key stands for itself. */
  function Lookup(table: Dict<string, string>, key: string): (r: string)
    ensures !Has(table, key) ==> r == key
    ensures Has(table, key) ==> exists i :: 0 <= i < |table| && table[i] == (key, r)
  {
    Get(table, key).GetOr(key)
  }

  /** The keyword arguments after the getter sets `data_folder`. */
  function FormatArgs(kwargs: Dict<string, string>, configured: Option<string>): Dict<string, string> {
    Put(kwargs, "data_folder", DataFolderName(configured))
  }

  /**
   * The formatting getters (label, success, warning, error, confirmation,
   * instruction, status): look the key up and format it with the caller's
   * arguments plus `data_folder`. The arguments are never empty once
   * `data_folder` is set, so the text is always formatted.
   */
  function Formatted(table: Dict<string, string>, key: string, kwargs: Dict<string, string>,
                     configured: Option<string>): (r: Result<string, TextError>)
    ensures r.Err? && r.error.MissingField? ==> r.error.name != "data_folder" && !Has(kwargs, r.error.name)
  {
    var args := FormatArgs(kwargs, configured);
    assert forall x :: Has(kwargs, x) ==> Has(args, x) by {
      forall x | Has(kwargs, x) ensures Has(args, x) {
        PutGet(kwargs, "data_folder", DataFolderName(configured), x);
      }
    }
    PutGet(kwargs, "data_folder", DataFolderName(configured), "data_folder");
    Format(Lookup(table, key), args)
  }

  /**
   * `data_folder` is always available to a text, and a value the caller
   * passes under that name is overridden: the result is the same as if the
   * caller had passed the configured folder.
   */
  lemma FormattedDataFolder(table: Dict<string, string>, key: string, kwargs: Dict<string, string>,
                            configured: Option<string>, callers: string)
    ensures Formatted(table, key, kwargs, configured) != Err(MissingField("data_folder"))
    ensures Formatted(table, key, Put(kwargs, "data_folder", callers), configured)
         == Formatted(table, key, kwargs, configured)
  {
    var args := FormatArgs(kwargs, configured);
    PutGet(kwargs, "data_folder", DataFolderName(configured), "data_folder");
    assert Has(args, "data_folder");
    FormatMissing(Lookup(table, key), args);
    var other := FormatArgs(Put(kwargs, "data_folder", callers), configured);
    forall n ensures Get(other, n) == Get(args, n) {
      PutGet(Put(kwargs, "data_folder", callers), "data_folder", DataFolderName(configured), n);
      PutGet(kwargs, "data_folder", callers, n);
      PutGet(kwargs, "data_folder", DataFolderName(configured), n);
    }
    FormatSameLookups(Lookup(table, key), other, args);
  }

  /** An unknown key without braces comes back unchanged from a formatting getter. */
  lemma FormattedUnknownKey(table: Dict<string, string>, key: string, kwargs: Dict<string, string>,
                            configured: Option<string>)
    requires !Has(table, key) && Braceless(key)
    ensures Formatted(table, key, kwargs, configured) == Ok(key)
  {
    FormatBraceless(key, FormatArgs(kwargs, configured));
  }

  /** Categories whose getter formats its text. */
  predicate Formats(c: Category) {
    c in {Labels, Successes, Warnings, Errors, Confirmations, Instructions, Status}
  }

  /**
   * The getter of a category: `get_title(key)`, `get_label(key, **kwargs)`
   * and so on. The plain getters take no keyword arguments.
   */
  function Getter(tables: Tables, c: Category, key: string, kwargs: Dict<string, string>,
                  configured: Option<string>): (r: Result<string, TextError>)
    ensures !Formats(c) ==> (r.Ok? <==> kwargs == [])
    ensures !Formats(c) && kwargs == [] ==> r == Ok(Lookup(tables.Table(c), key))
  {
    if Formats(c) then Formatted(tables.Table(c), key, kwargs, configured)
    else if kwargs != [] then Err(UnexpectedArgs)
    else Ok(Lookup(tables.Table(c), key))
  }

  /** `get_font`: the named font, or ('Arial', 9) when the table or the entry is missing. */
  function FontOf(tables: Tables, key: string): (r: Font)
    ensures tables.fonts.None? ==> r == DefaultFont
    ensures tables.fonts.Some? && !Has(tables.fonts.value, key) ==> r == DefaultFont
    ensures tables.fonts.Some? && Has(tables.fonts.value, key) ==>
      exists i :: 0 <= i < |tables.fonts.value| && tables.fonts.value[i] == (key, r)
  {
    match tables.fonts
    case None => DefaultFont
    case Some(fonts) => Get(fonts, key).GetOr(DefaultFont)
  }

  const AppTitlePrefix := "SCAM - Stalker Character Adjustment Manager v"

  /** `get_app_title`: the same English title in every language, ending in the version. */
  function AppTitle(version: string): (r: string)
    ensures StartsWith(r, AppTitlePrefix) && EndsWith(r, version)
    ensures |r| == |AppTitlePrefix| + |version|
  {
    AppTitlePrefix + version
  }

  /** `APP_INFO[key]`, a KeyError when absent. */
  function Info(tables: Tables, key: string): (r: Result<string, TextError>)
    ensures r.Ok? <==> Has(tables.appInfo, key)
    ensures r.Err? ==> r.error == MissingInfo(key)
  {
    match Get(tables.appInfo, key)
    case None => Err(MissingInfo(key))
    case Some(v) => Ok(v)
  }

  /** `get_credits_text`: author, credits and the formatted version line, joined by " | ". */
  function CreditsText(tables: Tables, version: string): (r: Result<string, TextError>)
    ensures !Has(tables.appInfo, "author") ==> r == Err(MissingInfo("author"))
    ensures Has(tables.appInfo, "author") && !Has(tables.appInfo, "credits") ==> r == Err(MissingInfo("credits"))
  {
    match Info(tables, "author")
    case Err(e) => Err(e)
    case Ok(author) =>
      match Info(tables, "credits")
      case Err(e) => Err(e)
      case Ok(credits) =>
        match Info(tables, "version")
        case Err(e) => Err(e)
        case Ok(line) =>
          match Format(line, [("version", version)])
          case Err(e) => Err(e)
          case Ok(v) => Ok(author + " | " + credits + " | " + v)
  }

  /** The version line: plain text followed by the `{version}` field. */
  lemma VersionLine(lead: string, version: string)
    requires Braceless(lead)
    ensures Format(lead + "{version}", [("version", version)]) == Ok(lead + version)
  {
    var args := [("version", version)];
    var name := "version";
    assert KeywordName(name) by {
      assert !IsDigit(name[0]);
    }
    FieldAfterBraceless(lead, name, args);
    assert lead + ("{" + name + "}" + "") == lead + "{version}";
    assert Format("", args) == Ok("");
    assert version + "" == version;
  }

  /** A braceless lead followed by one keyword field. */
  lemma FieldAfterBraceless(lead: string, name: string, args: Dict<string, string>)
    requires Braceless(lead) && KeywordName(name)
    ensures Format(lead + ("{" + name + "}" + ""), args) ==
      match Get(args, name)
      case None => Err(MissingField(name))
      case Some(v) => Prepend(lead, Prepend(v, Format("", args)))
  {
    FormatAfterBraceless(lead, "{" + name + "}" + "", args);
    FormatField(name, "", args);
  }

  /**
   * A version line made of plain text and the `{version}` field, such as
   * the shipped "Version: {version}", puts the version at the end of the
   * credits.
   */
  lemma CreditsShowVersion(tables: Tables, version: string, author: string, credits: string, lead: string)
    requires Get(tables.appInfo, "author") == Some(author)
    requires Get(tables.appInfo, "credits") == Some(credits)
    requires Get(tables.appInfo, "version") == Some(lead + "{version}") && Braceless(lead)
    ensures CreditsText(tables, version) == Ok(author + " | " + credits + " | " + (lead + version))
  {
    VersionLine(lead, version);
  }

  // ---------------------------------------------------------------------
  // get_text and t
  // ---------------------------------------------------------------------

  /** The `method_map` of `get_text`. */
  function CategoryOf(name: string): (r: Option<Category>)
    ensures r.Some? ==> name in {"title", "button", "label", "language", "preset", "section",
                                 "success", "warning", "error", "confirmation", "instruction", "status"}
  {
    match name
    case "title" => Some(Titles)
    case "button" => Some(Buttons)
    case "label" => Some(Labels)
    case "language" => Some(Languages)
    case "preset" => Some(Presets)
    case "section" => Some(Sections)
    case "success" => Some(Successes)
    case "warning" => Some(Warnings)
    case "error" => Some(Errors)
    case "confirmation" => Some(Confirmations)
    case "instruction" => Some(Instructions)
    case "status" => Some(Status)
    case _ => None
  }

  /** `get_text(category, key, **kwargs)` over the current tables; an unknown category gives the key. */
  function GetText(tables: Tables, category: string, key: string, kwargs: Dict<string, string>,
                   configured: Option<string>): (r: Result<string, TextError>)
    ensures CategoryOf(category).None? ==> r == Ok(key)
    ensures CategoryOf(category).Some? ==> r == Getter(tables, CategoryOf(category).value, key, kwargs, configured)
  {
    match CategoryOf(category)
    case None => Ok(key)
    case Some(c) => Getter(tables, c, key, kwargs, configured)
  }

  /** `t(key, **kwargs)`: a button if there is one, else a label, else a title, else the key. */
  function T(tables: Tables, key: string, kwargs: Dict<string, string>, configured: Option<string>): (r: Result<string, TextError>)
    ensures r.Err? ==> !Has(tables.buttons, key) && Has(tables.labels, key)
    ensures !Has(tables.buttons, key) && !Has(tables.labels, key) && !Has(tables.titles, key) ==> r == Ok(key)
  {
    if Has(tables.buttons, key) then Ok(Lookup(tables.buttons, key))
    else if Has(tables.labels, key) then Formatted(tables.labels, key, kwargs, configured)
    else if Has(tables.titles, key) then Ok(Lookup(tables.titles, key))
    else Ok(key)
  }

  /**
   * `t` answers what `get_text` answers for the first of BUTTONS, LABELS
   * and TITLES that holds the key (buttons and titles without the keyword
   * arguments, which `t` does not pass on), and the key itself when none does.
   */
  lemma TAgreesWithGetText(tables: Tables, key: string, kwargs: Dict<string, string>, configured: Option<string>)
    ensures Has(tables.buttons, key) ==> T(tables, key, kwargs, configured) == GetText(tables, "button", key, [], configured)
    ensures !Has(tables.buttons, key) && Has(tables.labels, key) ==>
      T(tables, key, kwargs, configured) == GetText(tables, "label", key, kwargs, configured)
    ensures !Has(tables.buttons, key) && !Has(tables.labels, key) && Has(tables.titles, key) ==>
      T(tables, key, kwargs, configured) == GetText(tables, "title", key, [], configured)
    ensures !Has(tables.buttons, key) && !Has(tables.labels, key) && !Has(tables.titles, key) ==>
      T(tables, key, kwargs, configured) == Ok(key)
  {
    assert CategoryOf("button") == Some(Buttons);
    assert CategoryOf("label") == Some(Labels);
    assert CategoryOf("title") == Some(Titles);
  }

  // ---------------------------------------------------------------------
  // Language files and the language manager
  // ---------------------------------------------------------------------

  /** What importing `modules.localization.<code>` does. */
  datatype Import = NoModule | Broken | Loads(tables: Tables)

  function ImportOf(modules: map<string, Import>, code: string): Import {
    if code in modules then modules[code] else NoModule
  }

  /** A file in the localization folder that `discover_languages` tries as a language. */
  predicate Candidate(file: string) {
    EndsWith(file, ".py") && file !in ["__init__.py", "language_manager.py", "english.py"]
  }

  /** `filename[:-3]` */
  function Code(file: string): string
    requires Candidate(file)
  {
    file[..|file| - 3]
  }

  /** The display name: the module's own LANGUAGES entry for its code, else the capitalized code. */
  function DisplayName(code: string, tables: Tables): (r: string)
    ensures !Has(tables.languages, code) ==> r == Capitalize(code)
  {
    Get(tables.languages, code).GetOr(Capitalize(code))
  }

  /**
   * The discovery loop from `languages` over the remaining files: a file
   * whose module cannot be found is skipped, and a module that raises
   * anything else ends the loop with the languages found so far.
   */
  function Discovered(languages: Dict<string, string>, files: seq<string>, modules: map<string, Import>): Dict<string, string>
    decreases |files|
  {
    if files == [] then languages
    else if !Candidate(files[0]) then Discovered(languages, files[1..], modules)
    else
      var code := Code(files[0]);
      match ImportOf(modules, code)
      case NoModule => Discovered(languages, files[1..], modules)
      case Broken => languages
      case Loads(t) => Discovered(Put(languages, code, DisplayName(code, t)), files[1..], modules)
  }

  /** `discover_languages` over the folder listing (None when it cannot be listed). */
  function DiscoveredLanguages(listing: Option<seq<string>>, modules: map<string, Import>): Dict<string, string> {
    match listing
    case None => [("en", "English")]
    case Some(files) => Discovered([("en", "English")], files, modules)
  }

  /** Discovery never drops a language it already has. */
  lemma {:induction false} DiscoveredKeeps(languages: Dict<string, string>, files: seq<string>,
                                           modules: map<string, Import>, k: string)
    requires Has(languages, k)
    ensures Has(Discovered(languages, files, modules), k)
    decreases |files|
  {
    if files != [] && Candidate(files[0]) {
      var code := Code(files[0]);
      match ImportOf(modules, code)
      case NoModule => DiscoveredKeeps(languages, files[1..], modules, k);
      case Broken =>
      case Loads(t) =>
        PutGet(languages, code, DisplayName(code, t), k);
        DiscoveredKeeps(Put(languages, code, DisplayName(code, t)), files[1..], modules, k);
    } else if files != [] {
      DiscoveredKeeps(languages, files[1..], modules, k);
    }
  }

  /** Every language discovery adds comes from a listed candidate file whose module loads. */
  lemma {:induction false} DiscoveredFrom(languages: Dict<string, string>, files: seq<string>,
                                          modules: map<string, Import>, k: string)
    requires Has(Discovered(languages, files, modules), k)
    ensures Has(languages, k) ||
      exists i :: 0 <= i < |files| && Candidate(files[i]) && Code(files[i]) == k && ImportOf(modules, k).Loads?
    decreases |files|
  {
    if files != [] && Candidate(files[0]) {
      var code := Code(files[0]);
      match ImportOf(modules, code)
      case NoModule =>
        DiscoveredFrom(languages, files[1..], modules, k);
        if !Has(languages, k) {
          var i :| 0 <= i < |files[1..]| && Candidate(files[1..][i]) && Code(files[1..][i]) == k && ImportOf(modules, k).Loads?;
          assert files[i + 1] == files[1..][i];
        }
      case Broken =>
      case Loads(t) =>
        var next := Put(languages, code, DisplayName(code, t));
        DiscoveredFrom(next, files[1..], modules, k);
        PutGet(languages, code, DisplayName(code, t), k);
        if !Has(languages, k) && k != code {
          assert Has(next, k) ==> Has(languages, k);
          var i :| 0 <= i < |files[1..]| && Candidate(files[1..][i]) && Code(files[1..][i]) == k && ImportOf(modules, k).Loads?;
          assert files[i + 1] == files[1..][i];
        }
    } else if files != [] {
      DiscoveredFrom(languages, files[1..], modules, k);
      if !Has(languages, k) {
        var i :| 0 <= i < |files[1..]| && Candidate(files[1..][i]) && Code(files[1..][i]) == k && ImportOf(modules, k).Loads?;
        assert files[i + 1] == files[1..][i];
      }
    }
  }

  /** English is always offered, whatever the folder holds. */
  lemma DiscoveredHasEnglish(listing: Option<seq<string>>, modules: map<string, Import>)
    ensures Has(DiscoveredLanguages(listing, modules), "en")
  {
    assert [("en", "English")][0].0 == "en";
    if listing.Some? {
      DiscoveredKeeps([("en", "English")], listing.value, modules, "en");
    }
  }

  /** `discover_languages` as the program runs it: one pass over the listing. */
  method DiscoverLanguages(listing: Option<seq<string>>, modules: map<string, Import>) returns (languages: Dict<string, string>)
    ensures languages == DiscoveredLanguages(listing, modules)
    ensures Has(languages, "en")
  {
    DiscoveredHasEnglish(listing, modules);
    languages := [("en", "English")];
    if listing.None? {
      return;
    }
    var files := listing.value;
    var i := 0;
    while i < |files|
      invariant 0 <= i <= |files|
      invariant Discovered(languages, files[i..], modules) == DiscoveredLanguages(listing, modules)
    {
      assert files[i..][1..] == files[i + 1..];
      var file := files[i];
      if Candidate(file) {
        var code := Code(file);
        match ImportOf(modules, code)
        case NoModule =>
        case Broken =>
          return;
        case Loads(t) =>
          languages := Put(languages, code, DisplayName(code, t));
      }
      i := i + 1;
    }
  }

  /**
   * `load_saved_language`: the text stored under `language`, or 'en' when
   * the file is missing, unreadable or has none.
   */
  function SavedLanguage(file: Prefs.PrefsFile): (r: string)
    ensures Prefs.Lookup(file, Prefs.LanguageKey).None? ==> r == "en"
    ensures file.Missing? || file.Corrupt? ==> r == "en"
  {
    match Prefs.Lookup(file, Prefs.LanguageKey)
    case Some(v) => if v.PText? then v.text else "en"
    case None => "en"
  }

  /**
   * `save_language_preference`: read the file, set `language`, write it
   * back; an unreadable file raises before anything is written, and a
   * failed write is ignored.
   */
  function LanguageSaved(file: Prefs.PrefsFile, writable: bool, code: string): (r: Prefs.PrefsFile)
    ensures file.Corrupt? || !writable ==> r == file
    ensures !file.Corrupt? && writable ==> SavedLanguage(r) == code
  {
    if file.Corrupt? then file else Prefs.SetKey(file, writable, Prefs.LanguageKey, Prefs.PText(code))
  }

  /** Saving the language leaves every other preference as it was. */
  lemma LanguageSavedKeepsOthers(file: Prefs.PrefsFile, writable: bool, code: string, key: string)
    requires key != Prefs.LanguageKey
    ensures Prefs.Lookup(LanguageSaved(file, writable, code), key) == Prefs.Lookup(file, key)
  {
    Prefs.SetKeyOnlyOwnKey(file, writable, Prefs.LanguageKey, Prefs.PText(code), key);
  }

  /**
   * The tables `load_language` installs for a code: English for 'en' and
   * for a code without a module, the module's tables otherwise; None when
   * the import raises something other than ImportError.
   */
  function Loading(code: string, english: Tables, modules: map<string, Import>): (r: Option<Tables>)
    ensures r.None? <==> code != "en" && ImportOf(modules, code).Broken?
    ensures code == "en" || ImportOf(modules, code).NoModule? ==> r == Some(english)
  {
    if code == "en" then Some(english)
    else
      match ImportOf(modules, code)
      case NoModule => Some(english)
      case Broken => None
      case Loads(t) => Some(t)
  }

  /**
   * The language manager together with the module-wide current
   * localization it installs. The folder listing, the importable modules
   * and whether the preferences file can be written are fixed inputs.
   */
  class LanguageManager {
    var prefsFile: Prefs.PrefsFile
    const writable: bool
    var currentLanguage: string
    var available: Dict<string, string>
    /** `_current_localization`; None until a language has been loaded. */
    var current: Option<Tables>
    const english: Tables
    const modules: map<string, Import>
    /**
     * Whether `load_language` raised inside `__init__`. The exception then
     * leaves the constructor, and the window that creates the manager does
     * not catch it, so no window opens and the rest of this state is never
     * used.
     */
    const startRaised: bool

    /**
     * `__init__`: the saved language, the discovered languages, then
     * `load_language` of the saved one, which raises out of the
     * constructor when the language's module raises on import.
     */
    constructor(prefsFile: Prefs.PrefsFile, writable: bool, listing: Option<seq<string>>,
                english: Tables, modules: map<string, Import>)
      ensures this.prefsFile == prefsFile && this.writable == writable
      ensures this.english == english && this.modules == modules
      ensures currentLanguage == SavedLanguage(prefsFile)
      ensures available == DiscoveredLanguages(listing, modules)
      ensures startRaised <==> SavedLanguage(prefsFile) != "en" && ImportOf(modules, SavedLanguage(prefsFile)).Broken?
      ensures !startRaised ==> current == Loading(SavedLanguage(prefsFile), english, modules)
      ensures startRaised ==> current.None?
    {
      var languages := DiscoverLanguages(listing, modules);
      this.prefsFile := prefsFile;
      this.writable := writable;
      this.english := english;
      this.modules := modules;
      currentLanguage := SavedLanguage(prefsFile);
      available := languages;
      var loading := Loading(SavedLanguage(prefsFile), english, modules);
      current := loading;
      startRaised := loading.None?;
    }

    /** `get_current_localization`: the loaded tables, English when none are loaded. */
    function CurrentTables(): (r: Tables)
      reads this
      ensures current.None? ==> r == english
    {
      current.GetOr(english)
    }

    /**
     * `load_language`: records the code even when its module is missing
     * (the English tables are loaded then); a module that raises leaves
     * the loaded tables as they were.
     */
    method LoadLanguage(code: string) returns (raised: bool)
      modifies this
      ensures currentLanguage == code
      ensures raised <==> Loading(code, english, modules).None?
      ensures current == if raised then old(current) else Loading(code, english, modules)
      ensures prefsFile == old(prefsFile) && available == old(available)
    {
      currentLanguage := code;
      var loading := Loading(code, english, modules);
      raised := loading.None?;
      if !raised {
        current := loading;
      }
    }

    /**
     * `change_language`: only an available code is accepted; it is saved
     * to the preferences file and loaded. Any other code changes nothing.
     */
    method ChangeLanguage(code: string) returns (changed: bool, raised: bool)
      modifies this
      ensures changed <==> Has(old(available), code)
      ensures !changed ==> !raised && unchanged(this)
      ensures changed ==> prefsFile == LanguageSaved(old(prefsFile), writable, code)
      ensures changed ==> currentLanguage == code
      ensures changed ==> (raised <==> Loading(code, english, modules).None?)
      ensures changed ==> current == if raised then old(current) else Loading(code, english, modules)
      ensures available == old(available)
    {
      changed := Has(available, code);
      raised := false;
      if changed {
        prefsFile := LanguageSaved(prefsFile, writable, code);
        raised := LoadLanguage(code);
      }
    }
  }
}
