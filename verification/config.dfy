/**
 * The settings handler (`modules/config.py`): the schema of defaults,
 * maximums and descriptions read from `default_values*.ini`, preset files
 * read and written as INI, and the preference setters.
 *
 * An INI file is taken as configparser hands it over: its sections in
 * file order, each with its raw `key = value` pairs (keys keep their case,
 * values are already stripped by the parser).
 */
module ConfigHandling {
  import opened Wrappers
  import opened Text
  import opened Dicts
  import opened Values
  import opened Prefs

  type IniSection = Dict<string, string>
  type IniDoc = Dict<string, IniSection>

  /** A key starting with `;` is a commented-out line and is skipped. */
  predicate IsCommentKey(key: string) {
    StartsWith(key, ";")
  }

  predicate Trimmed(s: string) {
    s != [] ==> !IsSpace(s[0]) && !IsSpace(s[|s| - 1])
  }

  // ---------------------------------------------------------------------
  // Schema lines: `raw_value | max ; description`

  /** The three parts of a schema value, each stripped. */
  datatype DefaultLine = DefaultLine(raw: string, max: Option<string>, description: string)
  {
    /** Parts that a schema line can carry unchanged. */
    predicate Plain() {
      Trimmed(raw) && Trimmed(description)
      && ';' !in raw && '|' !in raw
      && (max.Some? ==> Trimmed(max.value) && ';' !in max.value)
    }
  }

  /** Split at the first `;`, then the part before it at the first `|`. */
  function SplitDefaultLine(value: string): DefaultLine {
    var parts := SplitFirst(value, ';');
    var valueParts := SplitFirst(Strip(parts.0), '|');
    DefaultLine(
      Strip(valueParts.0),
      if valueParts.1.Some? then Some(Strip(valueParts.1.value)) else None,
      if parts.1.Some? then Strip(parts.1.value) else "")
  }

  /** The schema line an author writes for the three parts. */
  function JoinDefaultLine(d: DefaultLine): string {
    ValuePart(d) + (if d.description != "" then ";" + d.description else "")
  }

  /** The part before the `;`. */
  function ValuePart(d: DefaultLine): string {
    d.raw + (if d.max.Some? then "|" + d.max.value else "")
  }

  /** The separators end up where they belong: none in the default, no `;` in the maximum. */
  lemma SplitDefaultLineSeparators(value: string)
    ensures ';' !in SplitDefaultLine(value).raw && '|' !in SplitDefaultLine(value).raw
    ensures SplitDefaultLine(value).max.Some? ==> ';' !in SplitDefaultLine(value).max.value
    ensures ';' !in value ==> SplitDefaultLine(value).description == ""
    ensures '|' !in value ==> SplitDefaultLine(value).max.None?
  {
    var parts := SplitFirst(value, ';');
    var head := Strip(parts.0);
    var valueParts := SplitFirst(head, '|');
    var d := SplitDefaultLine(value);
    if ';' in d.raw {
      StripWithin(valueParts.0, ';');
      StripWithin(parts.0, ';');
    }
    if '|' in d.raw {
      StripWithin(valueParts.0, '|');
    }
    if valueParts.1.Some? && ';' in d.max.value {
      StripWithin(valueParts.1.value, ';');
      assert ';' in head;
      StripWithin(parts.0, ';');
    }
    if '|' !in value && valueParts.1.Some? {
      assert '|' in head;
      StripWithin(parts.0, '|');
    }
  }

  /** The value part of a plain line has no `;`, no surrounding space, and splits back at its `|`. */
  lemma ValuePartPlain(d: DefaultLine)
    requires d.Plain()
    ensures ';' !in ValuePart(d) && Trimmed(ValuePart(d))
    ensures SplitFirst(ValuePart(d), '|') == (d.raw, if d.max.Some? then Some(d.max.value) else None)
  {
    var head := ValuePart(d);
    if d.max.Some? {
      var m := d.max.value;
      assert head == d.raw + ['|'] + m;
      SplitAt(d.raw, m, '|');
      if m != [] {
        assert head[|head| - 1] == m[|m| - 1];
      } else {
        assert head[|head| - 1] == '|';
      }
      assert head[0] == if d.raw != [] then d.raw[0] else '|';
    } else {
      assert head == d.raw;
    }
  }

  /** A plain line splits back at its `;`. */
  lemma JoinSplitsAtSemicolon(d: DefaultLine)
    requires d.Plain()
    ensures SplitFirst(JoinDefaultLine(d), ';') == (ValuePart(d), if d.description != "" then Some(d.description) else None)
  {
    ValuePartPlain(d);
    if d.description != "" {
      assert JoinDefaultLine(d) == ValuePart(d) + [';'] + d.description;
      SplitAt(ValuePart(d), d.description, ';');
    } else {
      assert JoinDefaultLine(d) == ValuePart(d);
    }
  }

  /** The text before the `;` of a written line, stripped, is its value part. */
  lemma JoinedValuePart(d: DefaultLine)
    requires d.Plain()
    ensures Strip(SplitFirst(JoinDefaultLine(d), ';').0) == ValuePart(d)
  {
    JoinSplitsAtSemicolon(d);
    ValuePartPlain(d);
    StripNoSpace(ValuePart(d));
  }

  /** The parts of a plain line are their own strip. */
  lemma PlainStripped(d: DefaultLine)
    requires d.Plain()
    ensures Strip(d.raw) == d.raw && Strip(d.description) == d.description
    ensures d.max.Some? ==> Strip(d.max.value) == d.max.value
  {
    StripNoSpace(d.raw);
    StripNoSpace(d.description);
    if d.max.Some? {
      StripNoSpace(d.max.value);
    }
  }

  /** Reading a line written from its parts gives the parts back. */
  lemma SplitJoinDefaultLine(d: DefaultLine)
    requires d.Plain()
    ensures SplitDefaultLine(JoinDefaultLine(d)) == d
  {
    JoinedValuePart(d);
    ValuePartPlain(d);
    JoinSplitsAtSemicolon(d);
    PlainStripped(d);
    SplitDefaultLineOf(JoinDefaultLine(d), ValuePart(d), if d.description != "" then Some(d.description) else None, d.raw, d.max);
  }

  /** `SplitDefaultLine` in terms of the two splits it makes, when every part is already stripped. */
  lemma SplitDefaultLineOf(value: string, head: string, after: Option<string>, raw: string, max: Option<string>)
    requires SplitFirst(value, ';') == (head, after) && Strip(head) == head
    requires SplitFirst(head, '|') == (raw, max) && Strip(raw) == raw
    requires max.Some? ==> Strip(max.value) == max.value
    requires after.Some? ==> Strip(after.value) == after.value
    ensures SplitDefaultLine(value) == DefaultLine(raw, max, if after.Some? then after.value else "")
  {
  }

  /** What one schema line contributes: a default, perhaps a maximum, perhaps a description. */
  datatype SchemaEntry = SchemaEntry(default: Value, max: Option<Value>, description: Option<string>)

  /**
   * The default is inferred like any INI value; a maximum is kept only when
   * it is non-empty and a number by the dot rule; an empty description is
   * not stored.
   */
  function ReadSchemaLine(value: string): (e: SchemaEntry)
    ensures e.default.WellFormed()
    ensures e.max.Some? ==> e.max.value.WellFormed() && (e.max.value.VInt? || e.max.value.VFloat?)
    ensures e.description.Some? ==> e.description.value != ""
  {
    var d := SplitDefaultLine(value);
    SchemaEntry(
      InferValue(d.raw),
      if d.max.Some? && d.max.value != "" then ParseNumber(d.max.value) else None,
      if d.description != "" then Some(d.description) else None)
  }

  /** A line written from a bool or number default, a numeric maximum and a description reads back as those. */
  lemma ReadWrittenSchemaLine(v: Value, max: Option<Value>, description: string)
    requires v.WellFormed() && !v.VStr?
    requires max.Some? ==> max.value.WellFormed() && (max.value.VInt? || max.value.VFloat?)
    requires Trimmed(description)
    ensures ReadSchemaLine(JoinDefaultLine(DefaultLine(Str(v), if max.Some? then Some(Str(max.value)) else None, description)))
         == SchemaEntry(v, max, if description != "" then Some(description) else None)
  {
    var d := DefaultLine(Str(v), if max.Some? then Some(Str(max.value)) else None, description);
    StrPlain(v);
    if max.Some? {
      StrPlain(max.value);
      ParseNumberStr(max.value);
    }
    SplitJoinDefaultLine(d);
    InferStr(v);
  }

  // ---------------------------------------------------------------------
  // The schema

  datatype SectionSchema = SectionSchema(defaults: Section, maxValues: Dict<string, Value>, descriptions: Dict<string, string>)

  /** One section of the schema file, line by line. */
  function ReadSchemaSection(items: IniSection): SectionSchema
    decreases |items|
  {
    if items == [] then SectionSchema([], [], [])
    else
      var acc := ReadSchemaSection(items[..|items| - 1]);
      var key := items[|items| - 1].0;
      if IsCommentKey(key) then acc
      else
        var e := ReadSchemaLine(items[|items| - 1].1);
        SectionSchema(
          Put(acc.defaults, key, e.default),
          if e.max.Some? then Put(acc.maxValues, key, e.max.value) else acc.maxValues,
          if e.description.Some? then Put(acc.descriptions, key, e.description.value) else acc.descriptions)
  }

  /** What one more line changes for a key. */
  lemma ReadSchemaNext(items: IniSection, j: nat)
    requires j < |items|
    ensures var acc := ReadSchemaSection(items[..j]);
      ReadSchemaSection(items[..j + 1])
      == if IsCommentKey(items[j].0) then acc
         else
           var e := ReadSchemaLine(items[j].1);
           SectionSchema(
             Put(acc.defaults, items[j].0, e.default),
             if e.max.Some? then Put(acc.maxValues, items[j].0, e.max.value) else acc.maxValues,
             if e.description.Some? then Put(acc.descriptions, items[j].0, e.description.value) else acc.descriptions)
  {
    assert items[..j + 1][..j] == items[..j];
  }

  lemma ReadSchemaSectionStep(prefix: IniSection, key: string, value: string, k: string)
    ensures Get(ReadSchemaSection(prefix + [(key, value)]).defaults, k)
         == if key == k && !IsCommentKey(key) then Some(ReadSchemaLine(value).default)
            else Get(ReadSchemaSection(prefix).defaults, k)
    ensures Get(ReadSchemaSection(prefix + [(key, value)]).maxValues, k)
         == if key == k && !IsCommentKey(key) && ReadSchemaLine(value).max.Some? then ReadSchemaLine(value).max
            else Get(ReadSchemaSection(prefix).maxValues, k)
    ensures Get(ReadSchemaSection(prefix + [(key, value)]).descriptions, k)
         == if key == k && !IsCommentKey(key) && ReadSchemaLine(value).description.Some? then ReadSchemaLine(value).description
            else Get(ReadSchemaSection(prefix).descriptions, k)
  {
    var items := prefix + [(key, value)];
    assert items[..|items| - 1] == prefix;
    var e := ReadSchemaLine(value);
    var prev := ReadSchemaSection(prefix);
    if !IsCommentKey(key) {
      PutGet(prev.defaults, key, e.default, k);
      if e.max.Some? {
        PutGet(prev.maxValues, key, e.max.value, k);
      }
      if e.description.Some? {
        PutGet(prev.descriptions, key, e.description.value, k);
      }
    }
  }

  /**
   * Comment keys never enter the schema, every stored default is well
   * formed, every maximum is a number, and a key has a maximum or a
   * description only if it has a default.
   */
  lemma {:induction false} ReadSchemaSectionShape(items: IniSection, k: string)
    ensures Get(ReadSchemaSection(items).defaults, k).Some? ==> !IsCommentKey(k) && Get(ReadSchemaSection(items).defaults, k).value.WellFormed()
    ensures Get(ReadSchemaSection(items).maxValues, k).Some? ==> Get(ReadSchemaSection(items).defaults, k).Some?
    ensures Get(ReadSchemaSection(items).descriptions, k).Some? ==> Get(ReadSchemaSection(items).defaults, k).Some?
    ensures Get(ReadSchemaSection(items).maxValues, k).Some?
        ==> Get(ReadSchemaSection(items).maxValues, k).value.VInt? || Get(ReadSchemaSection(items).maxValues, k).value.VFloat?
    decreases |items|
  {
    if items != [] {
      var n := |items|;
      assert items == items[..n - 1] + [items[n - 1]];
      ReadSchemaSectionShape(items[..n - 1], k);
      ReadSchemaSectionStep(items[..n - 1], items[n - 1].0, items[n - 1].1, k);
    }
  }

  /** Every non-comment key of a section gets exactly what its own line says. */
  lemma {:induction false} ReadSchemaSectionAt(items: IniSection, i: nat)
    requires Unique(items) && i < |items| && !IsCommentKey(items[i].0)
    ensures Get(ReadSchemaSection(items).defaults, items[i].0) == Some(ReadSchemaLine(items[i].1).default)
    ensures Get(ReadSchemaSection(items).maxValues, items[i].0) == ReadSchemaLine(items[i].1).max
    ensures Get(ReadSchemaSection(items).descriptions, items[i].0) == ReadSchemaLine(items[i].1).description
    decreases |items|
  {
    var n := |items|;
    var prefix := items[..n - 1];
    var key := items[i].0;
    assert items == prefix + [items[n - 1]];
    ReadSchemaSectionStep(prefix, items[n - 1].0, items[n - 1].1, key);
    if i < n - 1 {
      assert items[n - 1].0 != key;
      assert prefix[i] == items[i];
      assert Unique(prefix);
      ReadSchemaSectionAt(prefix, i);
    } else {
      NotInPrefix(items);
      ReadSchemaSectionAbsent(prefix, key);
      ReadSchemaSectionShape(prefix, key);
    }
  }

  /** A key a section does not hold gets nothing. */
  lemma {:induction false} ReadSchemaSectionAbsent(items: IniSection, k: string)
    requires !Has(items, k)
    ensures Get(ReadSchemaSection(items).defaults, k).None?
    decreases |items|
  {
    if items != [] {
      var n := |items|;
      assert items == items[..n - 1] + [items[n - 1]];
      HasPrefix(items, k);
      ReadSchemaSectionStep(items[..n - 1], items[n - 1].0, items[n - 1].1, k);
      ReadSchemaSectionAbsent(items[..n - 1], k);
    }
  }

  datatype Schema = Schema(defaults: Config, maxValues: Dict<string, Dict<string, Value>>, descriptions: Dict<string, Dict<string, string>>)

  const EmptySchema := Schema([], [], [])

  /**
   * Loading a schema file over the schema already held: each of its
   * sections replaces that section in all three tables; sections the file
   * does not name keep what they had.
   */
  function ApplySchema(s: Schema, doc: IniDoc): Schema
    decreases |doc|
  {
    if doc == [] then s
    else
      var prev := ApplySchema(s, doc[..|doc| - 1]);
      var name := doc[|doc| - 1].0;
      var sec := ReadSchemaSection(doc[|doc| - 1].1);
      Schema(
        Put(prev.defaults, name, sec.defaults),
        Put(prev.maxValues, name, sec.maxValues),
        Put(prev.descriptions, name, sec.descriptions))
  }

  /** What one more section changes for a section name. */
  lemma ApplySchemaStep(s: Schema, prefix: IniDoc, last: (string, IniSection), name: string)
    ensures Get(ApplySchema(s, prefix + [last]).defaults, name)
         == if last.0 == name then Some(ReadSchemaSection(last.1).defaults) else Get(ApplySchema(s, prefix).defaults, name)
    ensures Get(ApplySchema(s, prefix + [last]).maxValues, name)
         == if last.0 == name then Some(ReadSchemaSection(last.1).maxValues) else Get(ApplySchema(s, prefix).maxValues, name)
    ensures Get(ApplySchema(s, prefix + [last]).descriptions, name)
         == if last.0 == name then Some(ReadSchemaSection(last.1).descriptions) else Get(ApplySchema(s, prefix).descriptions, name)
  {
    var doc := prefix + [last];
    assert doc[..|doc| - 1] == prefix;
    var prev := ApplySchema(s, prefix);
    var sec := ReadSchemaSection(last.1);
    PutGet(prev.defaults, last.0, sec.defaults, name);
    PutGet(prev.maxValues, last.0, sec.maxValues, name);
    PutGet(prev.descriptions, last.0, sec.descriptions, name);
  }

  /** A section of the file is what its lines say. */
  lemma {:induction false} ApplySchemaAt(s: Schema, doc: IniDoc, i: nat)
    requires Unique(doc) && i < |doc|
    ensures Get(ApplySchema(s, doc).defaults, doc[i].0) == Some(ReadSchemaSection(doc[i].1).defaults)
    ensures Get(ApplySchema(s, doc).maxValues, doc[i].0) == Some(ReadSchemaSection(doc[i].1).maxValues)
    ensures Get(ApplySchema(s, doc).descriptions, doc[i].0) == Some(ReadSchemaSection(doc[i].1).descriptions)
    decreases |doc|
  {
    assert doc == doc[..|doc| - 1] + [doc[|doc| - 1]];
    ApplySchemaStep(s, doc[..|doc| - 1], doc[|doc| - 1], doc[i].0);
    if i < |doc| - 1 {
      var prefix := doc[..|doc| - 1];
      assert doc[|doc| - 1].0 != doc[i].0;
      assert prefix[i] == doc[i];
      assert Unique(prefix);
      ApplySchemaAt(s, prefix, i);
    }
  }

  /** A section the file does not name keeps its old defaults, maximums and descriptions. */
  lemma {:induction false} ApplySchemaKeeps(s: Schema, doc: IniDoc, name: string)
    requires !Has(doc, name)
    ensures Get(ApplySchema(s, doc).defaults, name) == Get(s.defaults, name)
    ensures Get(ApplySchema(s, doc).maxValues, name) == Get(s.maxValues, name)
    ensures Get(ApplySchema(s, doc).descriptions, name) == Get(s.descriptions, name)
    decreases |doc|
  {
    if doc != [] {
      HasPrefix(doc, name);
      assert doc == doc[..|doc| - 1] + [doc[|doc| - 1]];
      ApplySchemaStep(s, doc[..|doc| - 1], doc[|doc| - 1], name);
      ApplySchemaKeeps(s, doc[..|doc| - 1], name);
    }
  }

  // ---------------------------------------------------------------------
  // Which schema file

  const BaseSchemaFile := "default_values.ini"

  /** The language codes whose file suffix differs from the code. */
  function LangSuffix(lang: string): string {
    if lang == "korean" then "ko"
    else if lang == "russian" then "ru"
    else if lang == "ukrainian" then "uk"
    else if lang == "chinese" then "zh"
    else lang
  }

  function LangSchemaFile(lang: string): string {
    "default_values_" + LangSuffix(lang) + ".ini"
  }

  /**
   * The language recorded in the preferences, `en` when there is none.
   * None stands for the exception paths (unreadable file, a language that
   * is not text), which fall back to the base file.
   */
  function SchemaLanguage(file: PrefsFile): Option<string> {
    match file
    case Missing => Some("en")
    case Corrupt => None
    case Stored(prefs) =>
      if LanguageKey !in prefs then Some("en")
      else if prefs[LanguageKey].PText? then Some(prefs[LanguageKey].text)
      else None
  }

  /** The schema file read for the recorded language, among the files present. */
  function SchemaFileName(file: PrefsFile, present: set<string>): (name: string)
    ensures name == BaseSchemaFile || name in present
  {
    match SchemaLanguage(file)
    case Some(lang) =>
      if lang != "en" && LangSchemaFile(lang) in present then LangSchemaFile(lang) else BaseSchemaFile
    case None => BaseSchemaFile
  }

  /** A translated schema is used exactly when the language is not English and its file exists. */
  lemma SchemaFileChoice(file: PrefsFile, present: set<string>)
    ensures SchemaFileName(file, present) != BaseSchemaFile
        <==> SchemaLanguage(file).Some? && SchemaLanguage(file).value != "en"
             && LangSchemaFile(SchemaLanguage(file).value) in present
    ensures SchemaFileName(file, present) != BaseSchemaFile
        ==> SchemaFileName(file, present) == LangSchemaFile(SchemaLanguage(file).value)
  {
    if SchemaLanguage(file).Some? {
      var lang := SchemaLanguage(file).value;
      assert |LangSchemaFile(lang)| == |LangSuffix(lang)| + 19;
      if LangSuffix(lang) == [] {
        assert LangSchemaFile(lang)[14] == '_';
        assert BaseSchemaFile[14] == '.';
      }
    }
  }

  /** A file configparser cannot find reads as a file with no sections. */
  function DocOf(files: map<string, IniDoc>, name: string): IniDoc {
    if name in files then files[name] else []
  }

  // ---------------------------------------------------------------------
  // Preset files

  /** A preset value: the text before the first `;`, stripped, then inferred. */
  function ReadPresetValue(value: string): (v: Value)
    ensures v.WellFormed()
    ensures v.VStr? ==> ';' !in v.s && Trimmed(v.s)
  {
    var before := SplitFirst(value, ';').0;
    var raw := Strip(before);
    InferKeepsText(raw);
    assert ';' !in raw by {
      if ';' in raw {
        StripWithin(before, ';');
      }
    }
    InferValue(raw)
  }

  /**
   * The items of a section with every value read by `read`: comment keys
   * are skipped and a repeated key keeps its first place with the last value.
   */
  function ReadSection(items: IniSection, read: string -> Value): Section
    decreases |items|
  {
    if items == [] then []
    else
      var acc := ReadSection(items[..|items| - 1], read);
      var key := items[|items| - 1].0;
      if IsCommentKey(key) then acc else Put(acc, key, read(items[|items| - 1].1))
  }

  /** One section of a preset file as `load_ini_file` reads it. */
  function PresetSection(items: IniSection): Section {
    ReadSection(items, ReadPresetValue)
  }

  /** `load_ini_file` on a parsed file. */
  function PresetOf(doc: IniDoc): Config
    decreases |doc|
  {
    if doc == [] then []
    else Put(PresetOf(doc[..|doc| - 1]), doc[|doc| - 1].0, PresetSection(doc[|doc| - 1].1))
  }

  /** `{k: str(v) for k, v in values.items()}` */
  function StrItems(values: Section): (r: IniSection)
    ensures |r| == |values|
    ensures forall i :: 0 <= i < |values| ==> r[i] == (values[i].0, Str(values[i].1))
  {
    seq(|values|, i requires 0 <= i < |values| => (values[i].0, Str(values[i].1)))
  }

  /** `save_ini_file`: every non-empty section, its values written with `str()`. */
  function SavedDoc(config: Config): IniDoc
    decreases |config|
  {
    if config == [] then []
    else
      var last := config[|config| - 1];
      SavedDoc(config[..|config| - 1]) + if last.1 != [] then [(last.0, StrItems(last.1))] else []
  }

  /** The config without its empty sections. */
  function DropEmpty(config: Config): (r: Config)
    ensures forall i :: 0 <= i < |r| ==> r[i].1 != []
    decreases |config|
  {
    if config == [] then []
    else
      var last := config[|config| - 1];
      DropEmpty(config[..|config| - 1]) + if last.1 != [] then [last] else []
  }

  lemma {:induction false} DropEmptyHas(config: Config, k: string)
    requires Has(DropEmpty(config), k)
    ensures Has(config, k)
    decreases |config|
  {
    var n := |config|;
    var prefix := config[..n - 1];
    var r := DropEmpty(config);
    var i :| 0 <= i < |r| && r[i].0 == k;
    if i < |DropEmpty(prefix)| {
      assert DropEmpty(prefix)[i] == r[i];
      DropEmptyHas(prefix, k);
      var j :| 0 <= j < |prefix| && prefix[j].0 == k;
      assert config[j] == prefix[j];
    } else {
      assert config[n - 1].0 == k;
    }
  }

  /** A section can be written and read back unchanged. */
  ghost predicate PlainSection(values: Section) {
    Unique(values)
    && forall i :: 0 <= i < |values| ==>
         !IsCommentKey(values[i].0) && values[i].1.WellFormed() && !values[i].1.VStr?
  }

  /** A config whose every section is plain. */
  ghost predicate PlainConfig(config: Config) {
    Unique(config) && forall i :: 0 <= i < |config| ==> PlainSection(config[i].1)
  }

  /** A bool or number written with `str()` is read back as itself. */
  lemma ReadPresetStr(v: Value)
    requires v.WellFormed() && !v.VStr?
    ensures ReadPresetValue(Str(v)) == v
  {
    StrPlain(v);
    StripNoSpace(Str(v));
    InferStr(v);
  }

  lemma ReadSectionSnoc(prefix: IniSection, key: string, value: string, read: string -> Value)
    ensures ReadSection(prefix + [(key, value)], read)
         == if IsCommentKey(key) then ReadSection(prefix, read) else Put(ReadSection(prefix, read), key, read(value))
  {
    var items := prefix + [(key, value)];
    assert items[..|items| - 1] == prefix;
  }

  lemma PlainSectionPrefix(values: Section)
    requires PlainSection(values) && values != []
    ensures PlainSection(values[..|values| - 1])
    ensures !IsCommentKey(values[|values| - 1].0)
    ensures values[|values| - 1].1.WellFormed() && !values[|values| - 1].1.VStr?
  {
    var prefix := values[..|values| - 1];
    assert forall i :: 0 <= i < |prefix| ==> prefix[i] == values[i];
  }

  /** Lines that each read back as the value under the same key, none of them a comment. */
  ghost predicate ReadsBack(items: IniSection, values: Section, read: string -> Value) {
    |items| == |values|
    && forall i :: 0 <= i < |values| ==>
         items[i].0 == values[i].0 && !IsCommentKey(values[i].0) && read(items[i].1) == values[i].1
  }

  lemma {:induction false} ReadSectionReads(items: IniSection, values: Section, read: string -> Value)
    requires Unique(values) && ReadsBack(items, values, read)
    ensures ReadSection(items, read) == values
    decreases |values|
  {
    if values != [] {
      var n := |values|;
      ReadsBackPrefix(items, values, read);
      ReadSectionReads(items[..n - 1], values[..n - 1], read);
      NotInPrefix(values);
      ReadSectionStep(items, values, read);
    }
  }

  /** The last line read back under a new key completes the section. */
  lemma ReadSectionStep(items: IniSection, values: Section, read: string -> Value)
    requires values != [] && |items| == |values|
    requires ReadSection(items[..|items| - 1], read) == values[..|values| - 1]
    requires !Has(values[..|values| - 1], values[|values| - 1].0)
    requires items[|items| - 1].0 == values[|values| - 1].0 && !IsCommentKey(values[|values| - 1].0)
    requires read(items[|items| - 1].1) == values[|values| - 1].1
    ensures ReadSection(items, read) == values
  {
    var n := |values|;
    PutNew(values[..n - 1], values[n - 1].0, values[n - 1].1);
    assert values == values[..n - 1] + [values[n - 1]];
  }

  lemma ReadsBackPrefix(items: IniSection, values: Section, read: string -> Value)
    requires Unique(values) && ReadsBack(items, values, read) && values != []
    ensures Unique(values[..|values| - 1])
    ensures ReadsBack(items[..|values| - 1], values[..|values| - 1], read)
  {
    var n := |values|;
    assert forall i :: 0 <= i < n - 1 ==> items[..n - 1][i] == items[i] && values[..n - 1][i] == values[i];
  }

  /** A plain section written with `str()` reads back unchanged. */
  lemma PresetSectionStr(values: Section)
    requires PlainSection(values)
    ensures PresetSection(StrItems(values)) == values
  {
    var items := StrItems(values);
    forall i | 0 <= i < |values| ensures ReadPresetValue(items[i].1) == values[i].1 {
      ReadPresetStr(values[i].1);
    }
    ReadSectionReads(items, values, ReadPresetValue);
  }

  lemma PlainConfigPrefix(config: Config)
    requires PlainConfig(config) && config != []
    ensures PlainConfig(config[..|config| - 1])
    ensures PlainSection(config[|config| - 1].1)
    ensures !Has(config[..|config| - 1], config[|config| - 1].0)
  {
    var prefix := config[..|config| - 1];
    assert forall i :: 0 <= i < |prefix| ==> prefix[i] == config[i];
    NotInPrefix(config);
  }

  /** Saving a preset and loading it again gives the config back, less its empty sections. */
  lemma {:induction false} LoadSavedPreset(config: Config)
    requires PlainConfig(config)
    ensures PresetOf(SavedDoc(config)) == DropEmpty(config)
    decreases |config|
  {
    if config != [] {
      var n := |config|;
      var prefix := config[..n - 1];
      PlainConfigPrefix(config);
      LoadSavedPreset(prefix);
      LoadSavedLast(config);
    }
  }

  /** One more section keeps the round trip. */
  lemma LoadSavedLast(config: Config)
    requires config != [] && PresetOf(SavedDoc(config[..|config| - 1])) == DropEmpty(config[..|config| - 1])
    requires !Has(config[..|config| - 1], config[|config| - 1].0) && PlainSection(config[|config| - 1].1)
    ensures PresetOf(SavedDoc(config)) == DropEmpty(config)
  {
    var n := |config|;
    var prefix, name, values := config[..n - 1], config[n - 1].0, config[n - 1].1;
    SavedLast(config);
    if values != [] {
      assert !Has(DropEmpty(prefix), name) by {
        if Has(DropEmpty(prefix), name) {
          DropEmptyHas(prefix, name);
        }
      }
      PresetAddSection(SavedDoc(prefix), DropEmpty(prefix), name, values);
      assert config[n - 1] == (name, values);
    } else {
      assert SavedDoc(prefix) + [] == SavedDoc(prefix);
      assert DropEmpty(prefix) + [] == DropEmpty(prefix);
    }
  }

  lemma SavedLast(config: Config)
    requires config != []
    ensures var last := config[|config| - 1];
      && SavedDoc(config) == SavedDoc(config[..|config| - 1]) + (if last.1 != [] then [(last.0, StrItems(last.1))] else [])
      && DropEmpty(config) == DropEmpty(config[..|config| - 1]) + (if last.1 != [] then [last] else [])
  {
  }

  /** Loading a saved non-empty section adds it to the preset. */
  lemma PresetAddSection(doc: IniDoc, loaded: Config, name: string, values: Section)
    requires PresetOf(doc) == loaded && !Has(loaded, name) && PlainSection(values)
    ensures PresetOf(doc + [(name, StrItems(values))]) == loaded + [(name, values)]
  {
    PresetOfSnoc(doc, name, StrItems(values));
    PresetSectionStr(values);
    PutNew(loaded, name, values);
  }

  lemma PresetOfSnoc(prefix: IniDoc, name: string, items: IniSection)
    ensures PresetOf(prefix + [(name, items)]) == Put(PresetOf(prefix), name, PresetSection(items))
  {
    var doc := prefix + [(name, items)];
    assert doc[..|doc| - 1] == prefix;
  }

  // ---------------------------------------------------------------------
  // The handler

  const V3FishFile := "v3fish_recommended.ini"
  const XyFixFile := "xysensitivityfix.ini"

  /** `{}` as the settings are cleared to. */
  const ClearedSettings := PSettings(NoSettings)

  /** The inner loop of `load_default_config`: one section of the schema file. */
  method LoadSchemaSection(items: IniSection) returns (section: Section, sectionMax: Dict<string, Value>, sectionDesc: Dict<string, string>)
    ensures SectionSchema(section, sectionMax, sectionDesc) == ReadSchemaSection(items)
  {
    section, sectionMax, sectionDesc := [], [], [];
    var j := 0;
    while j < |items|
      invariant 0 <= j <= |items|
      invariant SectionSchema(section, sectionMax, sectionDesc) == ReadSchemaSection(items[..j])
    {
      var key := items[j].0;
      ReadSchemaNext(items, j);
      if !IsCommentKey(key) {
        var e := ReadSchemaLine(items[j].1);
        section := Put(section, key, e.default);
        if e.max.Some? {
          sectionMax := Put(sectionMax, key, e.max.value);
        }
        if e.description.Some? {
          sectionDesc := Put(sectionDesc, key, e.description.value);
        }
      }
      j := j + 1;
    }
    assert items[..j] == items;
  }

  /** The inner loop of `load_ini_file`: one section of a file, every value read by `read`. */
  method ReadItems(items: IniSection, read: string -> Value) returns (section: Section)
    ensures section == ReadSection(items, read)
  {
    section := [];
    var j := 0;
    while j < |items|
      invariant 0 <= j <= |items|
      invariant section == ReadSection(items[..j], read)
    {
      var key, text := items[j].0, items[j].1;
      ReadSectionSnoc(items[..j], key, text, read);
      assert items[..j + 1] == items[..j] + [(key, text)];
      if !IsCommentKey(key) {
        section := Put(section, key, read(text));
      }
      j := j + 1;
    }
    assert items[..j] == items;
  }

  /** One section of a preset file, each value through `_infer_type`. */
  method LoadPresetSection(items: IniSection) returns (section: Section)
    ensures section == PresetSection(items)
  {
    section := ReadItems(items, ReadPresetValue);
  }

  class ConfigHandler {
    var defaultConfig: Config
    var maxValues: Dict<string, Dict<string, Value>>
    var descriptions: Dict<string, Dict<string, string>>
    var v3fishConfig: Config
    var xyFixConfig: Config
    /** The preferences file, shared with the language manager. */
    const store: PrefsStore

    function Current(): Schema
      reads this
    {
      Schema(defaultConfig, maxValues, descriptions)
    }

    /**
     * `files` is the content of the `default_ini` directory, by file name.
     * The schema for the recorded language is loaded and the two bundled
     * presets are read.
     */
    constructor(store: PrefsStore, files: map<string, IniDoc>)
      ensures this.store == store
      ensures Current() == ApplySchema(EmptySchema, DocOf(files, SchemaFileName(store.file, files.Keys)))
      ensures v3fishConfig == PresetOf(DocOf(files, V3FishFile))
      ensures xyFixConfig == PresetOf(DocOf(files, XyFixFile))
    {
      this.store := store;
      defaultConfig, maxValues, descriptions := [], [], [];
      new;
      LoadDefaultConfig(files);
      v3fishConfig := LoadIniFile(DocOf(files, V3FishFile));
      xyFixConfig := LoadIniFile(DocOf(files, XyFixFile));
    }

    /** `load_default_config`: read the chosen schema file over the current tables. */
    method LoadDefaultConfig(files: map<string, IniDoc>)
      modifies this
      ensures Current() == ApplySchema(old(Current()), DocOf(files, SchemaFileName(store.file, files.Keys)))
      ensures v3fishConfig == old(v3fishConfig) && xyFixConfig == old(xyFixConfig)
    {
      var doc := DocOf(files, SchemaFileName(store.file, files.Keys));
      ghost var start := Current();
      var i := 0;
      while i < |doc|
        invariant 0 <= i <= |doc|
        invariant Current() == ApplySchema(start, doc[..i])
        invariant v3fishConfig == old(v3fishConfig) && xyFixConfig == old(xyFixConfig)
      {
        var name := doc[i].0;
        var section, sectionMax, sectionDesc := LoadSchemaSection(doc[i].1);
        defaultConfig := Put(defaultConfig, name, section);
        descriptions := Put(descriptions, name, sectionDesc);
        maxValues := Put(maxValues, name, sectionMax);
        assert doc[..i + 1][..i] == doc[..i];
        i := i + 1;
      }
      assert doc[..i] == doc;
    }

    /** `load_ini_file`: a preset file as a config. */
    method LoadIniFile(doc: IniDoc) returns (result: Config)
      ensures result == PresetOf(doc)
    {
      result := [];
      var i := 0;
      while i < |doc|
        invariant 0 <= i <= |doc|
        invariant result == PresetOf(doc[..i])
      {
        var section := LoadPresetSection(doc[i].1);
        result := Put(result, doc[i].0, section);
        assert doc[..i + 1][..i] == doc[..i];
        i := i + 1;
      }
      assert doc[..i] == doc;
    }

    /** `save_ini_file`: the document written for a config. */
    method SaveIniFile(config: Config) returns (doc: IniDoc)
      ensures doc == SavedDoc(config)
    {
      doc := [];
      var i := 0;
      while i < |config|
        invariant 0 <= i <= |config|
        invariant doc == SavedDoc(config[..i])
      {
        if config[i].1 != [] {
          doc := doc + [(config[i].0, StrItems(config[i].1))];
        }
        assert config[..i + 1][..i] == config[..i];
        i := i + 1;
      }
      assert config[..i] == config;
    }

    function GetLastSelectedPreset(): string
      reads this, store
    {
      LastPreset(store.file)
    }

    function GetLastSettings(): Settings
      reads this, store
    {
      LastSettings(store.file)
    }

    method SetLastSelectedPreset(name: string)
      modifies store
      ensures store.file == SetKey(old(store.file), store.writable, LastPresetKey, PText(name))
      ensures store.writable == old(store.writable)
    {
      store.Set(LastPresetKey, PText(name));
    }

    method SetLastSettings(settings: Settings)
      modifies store
      ensures store.file == SetKey(old(store.file), store.writable, LastSettingsKey, PSettings(settings))
      ensures store.writable == old(store.writable)
    {
      store.Set(LastSettingsKey, PSettings(settings));
    }

    /** Clear the settings and the preset selection, in one write. */
    method ClearLastSettings()
      modifies store
      ensures store.file == ClearedAll(old(store.file), store.writable)
      ensures store.writable == old(store.writable)
    {
      var prefs := store.Load();
      prefs := prefs[LastSettingsKey := ClearedSettings];
      prefs := prefs[LastPresetKey := PText("")];
      store.Save(prefs);
    }

    /** Clear the settings but keep the preset selection. */
    method ClearLastSettingsOnly()
      modifies store
      ensures store.file == SetKey(old(store.file), store.writable, LastSettingsKey, ClearedSettings)
      ensures store.writable == old(store.writable)
    {
      store.Set(LastSettingsKey, ClearedSettings);
    }
  }

  /** The file after `clear_last_settings`. */
  function ClearedAll(file: PrefsFile, writable: bool): PrefsFile {
    Written(file, writable, Loaded(file)[LastSettingsKey := ClearedSettings][LastPresetKey := PText("")])
  }

  /**
   * After clearing, readers find no settings and no preset, and every other
   * preference (the language among them) is untouched; clearing only the
   * settings keeps the preset.
   */
  lemma ClearedReads(file: PrefsFile, writable: bool, other: string)
    requires writable
    ensures LastPreset(ClearedAll(file, writable)) == ""
    ensures LastSettings(ClearedAll(file, writable)) == NoSettings
    ensures other != LastPresetKey && other != LastSettingsKey
        ==> Lookup(ClearedAll(file, writable), other) == Lookup(file, other)
    ensures LastPreset(SetKey(file, writable, LastSettingsKey, ClearedSettings)) == LastPreset(file)
    ensures LastSettings(SetKey(file, writable, LastSettingsKey, ClearedSettings)) == NoSettings
  {
    SetKeyOnlyOwnKey(file, writable, LastSettingsKey, ClearedSettings, LastPresetKey);
    assert LastPresetKey != LastSettingsKey;
  }
}
