/**
 * The state of the settings form (`modules/config_interface.py`) and the
 * rules that read it: entry texts and checkbox states keyed by
 * (section, key), the sync flag, and what the form shows and hands on —
 * validity, changes against the defaults, tab marks, label colours, the
 * reset and load of values, and the config built from the form.
 */
module Form {
  import opened Wrappers
  import opened Text
  import opened Dicts
  import opened Numbers
  import opened Values

  type FieldKey = (string, string)
  type Entries = Dict<FieldKey, string>
  type Checks = Dict<FieldKey, bool>
  type MaxValues = Dict<string, Dict<string, Value>>

  const Movement := "MovementParams"
  const Aiming := "Aiming"
  const SyncKey := "SyncTurnRate"
  const TurnRate := "BaseTurnRate"
  const LookUpRate := "BaseLookUpRate"

  /** The two movement settings that are shown on the Aiming tab. */
  predicate IsAimingKey(key: string) {
    key == TurnRate || key == LookUpRate
  }

  /** The text entries, the checkboxes and the sync checkbox. */
  datatype Form = Form(entries: Entries, checks: Checks, sync: bool)

  /** `table[section][key]`, or None where that lookup would fail. */
  function Lookup2<V>(table: Dict<string, Dict<string, V>>, section: string, key: string): Option<V> {
    match Get(table, section)
    case None => None
    case Some(inner) => Get(inner, key)
  }

  /** Every stored maximum is a number, as the schema loader guarantees. */
  ghost predicate NumericMaxes(maxValues: MaxValues) {
    forall section, key :: Lookup2(maxValues, section, key).Some? ==> Lookup2(maxValues, section, key).value.IsNumeric()
  }

  /** Every field names a key of the schema: the form never looks up a missing default. */
  predicate HaveDefaults(defaults: Config, keys: seq<FieldKey>) {
    forall i :: 0 <= i < |keys| ==> Lookup2(defaults, keys[i].0, keys[i].1).Some?
  }

  lemma DefaultAt<V>(defaults: Config, d: Dict<FieldKey, V>, i: int)
    requires HaveDefaults(defaults, Keys(d)) && 0 <= i < |d|
    ensures Lookup2(defaults, d[i].0.0, d[i].0.1).Some?
  {
    assert Keys(d)[i] == d[i].0;
  }

  lemma DefaultOfKey<V>(defaults: Config, d: Dict<FieldKey, V>, k: FieldKey)
    requires HaveDefaults(defaults, Keys(d)) && Has(d, k)
    ensures Lookup2(defaults, k.0, k.1).Some?
  {
    var i :| 0 <= i < |d| && d[i].0 == k;
    DefaultAt(defaults, d, i);
  }

  /** Writing a field that is already there keeps the fields' defaults. */
  lemma PutKeepsDefaults<V>(defaults: Config, d: Dict<FieldKey, V>, k: FieldKey, v: V)
    requires HaveDefaults(defaults, Keys(d)) && Has(d, k)
    ensures HaveDefaults(defaults, Keys(Put(d, k, v)))
  {
    PutKeys(d, k, v);
  }

  predicate FieldsHaveDefaults(defaults: Config, form: Form) {
    HaveDefaults(defaults, Keys(form.entries)) && HaveDefaults(defaults, Keys(form.checks))
  }

  /** The form has a field of the right kind for every schema key outside Aiming. */
  predicate Covers(defaults: Config, form: Form) {
    forall i, j :: 0 <= i < |defaults| && 0 <= j < |defaults[i].1| && defaults[i].0 != Aiming
      ==> if defaults[i].1[j].1.VBool? then Has(form.checks, (defaults[i].0, defaults[i].1[j].0))
          else Has(form.entries, (defaults[i].0, defaults[i].1[j].0))
  }

  /** A section's fields are all there. */
  predicate CoversSection(form: Form, section: string, items: Section) {
    forall j :: 0 <= j < |items|
      ==> if items[j].1.VBool? then Has(form.checks, (section, items[j].0)) else Has(form.entries, (section, items[j].0))
  }

  lemma CoversAt(defaults: Config, form: Form, i: nat)
    requires Covers(defaults, form) && i < |defaults| && defaults[i].0 != Aiming
    ensures CoversSection(form, defaults[i].0, defaults[i].1)
  {
  }

  // ---------------------------------------------------------------------
  // Validity

  datatype Validity = Valid | Empty | NotANumber | TooLarge(value: Value, max: Value)

  /**
   * The number check on stripped entry text: present, a number by the dot
   * rule, not above the maximum. A maximum is always a number (see
   * `NumericMaxes`); anything else could not be compared and is ignored.
   */
  function CheckNumber(text: string, max: Option<Value>): Validity {
    if text == [] then Empty
    else
      match ParseNumber(text)
      case None => NotANumber
      case Some(v) => if max.Some? && max.value.IsNumeric() && Greater(v, max.value) then TooLarge(v, max.value) else Valid
  }

  /** Entries with a numeric default are checked; any other entry is valid. */
  function EntryValidity(defaults: Config, maxValues: MaxValues, key: FieldKey, text: string): Validity {
    match Lookup2(defaults, key.0, key.1)
    case Some(d) =>
      if d.IsNumeric() then CheckNumber(Strip(text), Lookup2(maxValues, key.0, key.1)) else Valid
    case None => Valid
  }

  /**
   * An entry is invalid exactly when its default is a number and its
   * stripped text is empty, is no number by the dot rule, or is above the
   * maximum; a value equal to the maximum is valid.
   */
  lemma EntryValidityCases(defaults: Config, maxValues: MaxValues, key: FieldKey, text: string)
    requires NumericMaxes(maxValues)
    ensures EntryValidity(defaults, maxValues, key, text) != Valid
        <==> Lookup2(defaults, key.0, key.1).Some? && Lookup2(defaults, key.0, key.1).value.IsNumeric()
             && (Strip(text) == [] || ParseNumber(Strip(text)).None?
                 || (Lookup2(maxValues, key.0, key.1).Some?
                     && Greater(ParseNumber(Strip(text)).value, Lookup2(maxValues, key.0, key.1).value)))
    ensures Lookup2(defaults, key.0, key.1).Some? && !Lookup2(defaults, key.0, key.1).value.IsNumeric()
        ==> EntryValidity(defaults, maxValues, key, text) == Valid
  {
  }

  /** A value equal to its maximum passes. */
  lemma AtMaximumIsValid(text: string, max: Value)
    requires max.IsNumeric() && ParseNumber(text) == Some(max) && text != []
    ensures CheckNumber(text, Some(max)) == Valid
  {
    GreaterIrreflexive(max);
  }

  /** The message `has_invalid_entries` gives for an invalid entry. */
  function Message(key: FieldKey, v: Validity): string
    requires !v.Valid?
  {
    key.0 + " - " + key.1 + ": "
    + match v
      case Empty => "Cannot be empty"
      case NotANumber => "Must be a valid number"
      case TooLarge(value, max) => "Value " + Str(value) + " exceeds maximum of " + Str(max)
  }

  /** The message for one entry, if it is invalid. */
  function Report(defaults: Config, maxValues: MaxValues, e: (FieldKey, string)): Option<string> {
    var v := EntryValidity(defaults, maxValues, e.0, e.1);
    if v.Valid? then None else Some(Message(e.0, v))
  }

  function Reporter(defaults: Config, maxValues: MaxValues): ((FieldKey, string)) -> Option<string> {
    e => Report(defaults, maxValues, e)
  }

  /** What `report` has to say about the entries, in entry order. */
  function Reports(entries: Entries, report: ((FieldKey, string)) -> Option<string>): seq<string>
    decreases |entries|
  {
    if entries == [] then []
    else
      var found := report(entries[|entries| - 1]);
      Reports(entries[..|entries| - 1], report) + if found.Some? then [found.value] else []
  }

  /** The messages for the invalid entries, in entry order. */
  function InvalidMessages(defaults: Config, maxValues: MaxValues, entries: Entries): seq<string> {
    Reports(entries, Reporter(defaults, maxValues))
  }

  lemma ReportsSnoc(entries: Entries, report: ((FieldKey, string)) -> Option<string>)
    requires entries != []
    ensures var found := report(entries[|entries| - 1]);
      Reports(entries, report) == Reports(entries[..|entries| - 1], report) + if found.Some? then [found.value] else []
  {
  }

  lemma {:induction false} ReportsHas(entries: Entries, report: ((FieldKey, string)) -> Option<string>, i: nat)
    requires i < |entries| && report(entries[i]).Some?
    ensures report(entries[i]).value in Reports(entries, report)
    decreases |entries|
  {
    var n := |entries|;
    var prefix := entries[..n - 1];
    if i < n - 1 {
      assert prefix[i] == entries[i];
      ReportsHas(prefix, report, i);
    }
  }

  lemma {:induction false} ReportsFrom(entries: Entries, report: ((FieldKey, string)) -> Option<string>, m: string)
    requires m in Reports(entries, report)
    ensures exists i :: 0 <= i < |entries| && report(entries[i]) == Some(m)
    decreases |entries|
  {
    var n := |entries|;
    var prefix := entries[..n - 1];
    if m in Reports(prefix, report) {
      ReportsFrom(prefix, report, m);
      var i :| 0 <= i < n - 1 && report(prefix[i]) == Some(m);
      assert prefix[i] == entries[i];
    }
  }

  lemma {:induction false} ReportsEmpty(entries: Entries, report: ((FieldKey, string)) -> Option<string>)
    ensures Reports(entries, report) == [] <==> forall i :: 0 <= i < |entries| ==> report(entries[i]).None?
    decreases |entries|
  {
    if entries != [] {
      var n := |entries|;
      var prefix := entries[..n - 1];
      ReportsEmpty(prefix, report);
      assert forall i :: 0 <= i < n - 1 ==> prefix[i] == entries[i];
    }
  }

  /** `m` is the message reported for entry `e`. */
  predicate ReportedAs(defaults: Config, maxValues: MaxValues, e: (FieldKey, string), m: string) {
    Report(defaults, maxValues, e) == Some(m)
  }

  /** Every invalid entry has its message among the reported ones. */
  lemma InvalidEntryReported(defaults: Config, maxValues: MaxValues, entries: Entries, i: nat, m: string)
    requires i < |entries| && ReportedAs(defaults, maxValues, entries[i], m)
    ensures m in InvalidMessages(defaults, maxValues, entries)
  {
    ReportsHas(entries, Reporter(defaults, maxValues), i);
  }

  /** Every reported message is the message of an invalid entry. */
  lemma ReportedEntryInvalid(defaults: Config, maxValues: MaxValues, entries: Entries, m: string)
    requires m in InvalidMessages(defaults, maxValues, entries)
    ensures exists i :: 0 <= i < |entries| && ReportedAs(defaults, maxValues, entries[i], m)
  {
    ReportsFrom(entries, Reporter(defaults, maxValues), m);
  }

  /** There are no messages exactly when every entry is valid. */
  lemma NoMessagesIffValid(defaults: Config, maxValues: MaxValues, entries: Entries)
    ensures InvalidMessages(defaults, maxValues, entries) == []
        <==> forall i :: 0 <= i < |entries| ==> EntryValidity(defaults, maxValues, entries[i].0, entries[i].1).Valid?
  {
    ReportsEmpty(entries, Reporter(defaults, maxValues));
  }


  // ---------------------------------------------------------------------
  // Changes against the defaults

  /** Stripped entry text differs from `str()` of the default. */
  predicate EntryDiffers(defaults: Config, key: FieldKey, text: string) {
    match Lookup2(defaults, key.0, key.1)
    case Some(d) => Strip(text) != Str(d)
    case None => false
  }

  /** A checkbox differs from its default (Python `!=`, so `True` equals `1`). */
  predicate CheckDiffers(defaults: Config, key: FieldKey, b: bool) {
    match Lookup2(defaults, key.0, key.1)
    case Some(d) => !BoolEquals(b, d)
    case None => false
  }

  /** The sync flag differs from `Aiming.SyncTurnRate`, when the schema has it. */
  predicate SyncDiffers(defaults: Config, sync: bool) {
    match Lookup2(defaults, Aiming, SyncKey)
    case Some(d) => !BoolEquals(sync, d)
    case None => false
  }

  /** `has_changes` */
  predicate Changed(defaults: Config, form: Form) {
    (exists i :: 0 <= i < |form.entries| && EntryDiffers(defaults, form.entries[i].0, form.entries[i].1))
    || (exists i :: 0 <= i < |form.checks| && CheckDiffers(defaults, form.checks[i].0, form.checks[i].1))
    || SyncDiffers(defaults, form.sync)
  }

  /** "20" against a default of 20.0 is a change: the texts are compared, not the numbers. */
  lemma TwentyIsAChange()
    ensures EntryDiffers([(Movement, [(TurnRate, VFloat(Float(20, 0)))])], (Movement, TurnRate), "20")
  {
    var defaults := [(Movement, [(TurnRate, VFloat(Float(20, 0)))])];
    assert Lookup2(defaults, Movement, TurnRate) == Some(VFloat(Float(20, 0)));
    RenderFloatHasPoint(Float(20, 0));
    assert '.' !in Strip("20") by {
      if '.' in Strip("20") {
        StripWithin("20", '.');
      }
    }
  }

  /** Entries on a category's tab: their section, less the two aiming keys on the movement tab. */
  predicate InCategory(section: string, key: FieldKey) {
    key.0 == section && !(section == Movement && IsAimingKey(key.1))
  }

  /** The aiming-tab entry for `key`, when the form has it, differs from its default. */
  predicate AimingEntryDiffers(defaults: Config, entries: Entries, key: string) {
    match Get(entries, (Movement, key))
    case Some(text) => EntryDiffers(defaults, (Movement, key), text)
    case None => false
  }

  /** `has_category_changes(section)` */
  predicate CategoryChanged(defaults: Config, form: Form, section: string) {
    if section == Aiming then
      SyncDiffers(defaults, form.sync)
      || AimingEntryDiffers(defaults, form.entries, TurnRate)
      || AimingEntryDiffers(defaults, form.entries, LookUpRate)
    else
      (exists i :: 0 <= i < |form.entries| && InCategory(section, form.entries[i].0)
                   && EntryDiffers(defaults, form.entries[i].0, form.entries[i].1))
      || (exists i :: 0 <= i < |form.checks| && form.checks[i].0.0 == section
                      && CheckDiffers(defaults, form.checks[i].0, form.checks[i].1))
  }

  /** A tab marked as changed means the form has changes. */
  lemma CategoryImpliesChanged(defaults: Config, form: Form, section: string)
    requires CategoryChanged(defaults, form, section)
    ensures Changed(defaults, form)
  {
    if section == Aiming && !SyncDiffers(defaults, form.sync) {
      var key := if AimingEntryDiffers(defaults, form.entries, TurnRate) then TurnRate else LookUpRate;
      var text := Get(form.entries, (Movement, key)).value;
      var i :| 0 <= i < |form.entries| && form.entries[i] == ((Movement, key), text);
      assert EntryDiffers(defaults, form.entries[i].0, form.entries[i].1);
    }
  }

  /** The tab a field is shown on. */
  function TabOf(key: FieldKey): string {
    if key.0 == Movement && IsAimingKey(key.1) then Aiming else key.0
  }

  /** A changed entry marks its own tab. */
  lemma ChangedEntryShowsOnTab(defaults: Config, form: Form, i: nat)
    requires Unique(form.entries) && i < |form.entries| && form.entries[i].0.0 != Aiming
    requires EntryDiffers(defaults, form.entries[i].0, form.entries[i].1)
    ensures CategoryChanged(defaults, form, TabOf(form.entries[i].0))
  {
    var key := form.entries[i].0;
    if key.0 == Movement && IsAimingKey(key.1) {
      AimingEntryMarked(defaults, form, i);
    } else {
      SectionEntryMarked(defaults, form, i);
    }
  }

  lemma AimingEntryMarked(defaults: Config, form: Form, i: nat)
    requires Unique(form.entries) && i < |form.entries|
    requires form.entries[i].0.0 == Movement && IsAimingKey(form.entries[i].0.1)
    requires EntryDiffers(defaults, form.entries[i].0, form.entries[i].1)
    ensures CategoryChanged(defaults, form, Aiming)
  {
    GetAt(form.entries, i);
    assert AimingEntryDiffers(defaults, form.entries, form.entries[i].0.1);
  }

  lemma SectionEntryMarked(defaults: Config, form: Form, i: nat)
    requires i < |form.entries| && form.entries[i].0.0 != Aiming
    requires InCategory(form.entries[i].0.0, form.entries[i].0)
    requires EntryDiffers(defaults, form.entries[i].0, form.entries[i].1)
    ensures CategoryChanged(defaults, form, form.entries[i].0.0)
  {
  }

  /** A changed checkbox marks its own tab. */
  lemma ChangedCheckShowsOnTab(defaults: Config, form: Form, i: nat)
    requires i < |form.checks| && form.checks[i].0.0 != Aiming
    requires CheckDiffers(defaults, form.checks[i].0, form.checks[i].1)
    ensures CategoryChanged(defaults, form, form.checks[i].0.0)
  {
  }

  // ---------------------------------------------------------------------
  // Tab labels

  const Marker := "● "

  /** The tab text with every marker removed. */
  function CleanTab(tab: string): string {
    ReplaceAll(ReplaceAll(tab, Marker, ""), "* ", "")
  }

  /** `update_tab_colors` for one tab. */
  function TabLabel(tab: string, changed: bool): string {
    if changed then (if StartsWith(tab, Marker) then tab else Marker + CleanTab(tab))
    else (if StartsWith(tab, Marker) then CleanTab(tab) else tab)
  }

  /**
   * A changed tab carries the marker, an unchanged one loses it (unless
   * the cleaned name itself starts with it), and relabelling with the same
   * verdict changes nothing more.
   */
  lemma TabLabelMarks(tab: string, changed: bool)
    ensures changed ==> StartsWith(TabLabel(tab, changed), Marker)
    ensures !changed && !StartsWith(CleanTab(tab), Marker) ==> !StartsWith(TabLabel(tab, changed), Marker)
    ensures changed || !StartsWith(CleanTab(tab), Marker) ==> TabLabel(TabLabel(tab, changed), changed) == TabLabel(tab, changed)
  {
    if changed && !StartsWith(tab, Marker) {
      assert (Marker + CleanTab(tab))[..|Marker|] == Marker;
    }
  }

  // ---------------------------------------------------------------------
  // Labels and default buttons

  datatype Color = Black | Green | Red

  /** The field shows its default: the default button is disabled exactly then. */
  predicate AtDefault(defaults: Config, form: Form, key: FieldKey) {
    match Lookup2(defaults, key.0, key.1)
    case None => false
    case Some(d) =>
      if d.VBool? then Get(form.checks, key).Some? && Get(form.checks, key).value == d.b
      else Get(form.entries, key).Some? && Strip(Get(form.entries, key).value) == Str(d)
  }

  /** `update_label_color`: None where the label is left as it is. */
  function LabelColor(defaults: Config, maxValues: MaxValues, form: Form, key: FieldKey): Option<Color>
    requires NumericMaxes(maxValues)
  {
    match Lookup2(defaults, key.0, key.1)
    case None => None
    case Some(d) =>
      if d.VBool? then
        match Get(form.checks, key)
        case Some(b) => Some(if b == d.b then Black else Green)
        case None => None
      else
        match Get(form.entries, key)
        case Some(text) =>
          Some(if !EntryValidity(defaults, maxValues, key, text).Valid? then Red
               else if Strip(text) == Str(d) then Black
               else Green)
        case None => None
  }

  /**
   * A label is red exactly when the entry is invalid, black exactly when
   * it is valid and at its default (its default button disabled), and
   * green otherwise.
   */
  lemma LabelColorMeaning(defaults: Config, maxValues: MaxValues, form: Form, key: FieldKey)
    requires NumericMaxes(maxValues)
    requires Lookup2(defaults, key.0, key.1).Some? && !Lookup2(defaults, key.0, key.1).value.VBool?
    requires Get(form.entries, key).Some?
    ensures LabelColor(defaults, maxValues, form, key) == Some(Red)
        <==> !EntryValidity(defaults, maxValues, key, Get(form.entries, key).value).Valid?
    ensures LabelColor(defaults, maxValues, form, key) == Some(Black)
        <==> EntryValidity(defaults, maxValues, key, Get(form.entries, key).value).Valid? && AtDefault(defaults, form, key)
  {
  }

  /** A checkbox label is black exactly when the box is at its default. */
  lemma CheckLabelMeaning(defaults: Config, maxValues: MaxValues, form: Form, key: FieldKey)
    requires NumericMaxes(maxValues)
    requires Lookup2(defaults, key.0, key.1).Some? && Lookup2(defaults, key.0, key.1).value.VBool?
    requires Get(form.checks, key).Some?
    ensures LabelColor(defaults, maxValues, form, key) == Some(Black) <==> AtDefault(defaults, form, key)
    ensures LabelColor(defaults, maxValues, form, key) != Some(Red)
  {
  }

  // ---------------------------------------------------------------------
  // Reset

  /** `reset_to_default(section, key)` on the form. */
  function ResetField(defaults: Config, form: Form, key: FieldKey): Form
    requires Lookup2(defaults, key.0, key.1).Some?
  {
    var d := Lookup2(defaults, key.0, key.1).value;
    var sync := if key.0 == Movement && IsAimingKey(key.1) then false else form.sync;
    if d.VBool? then
      Form(form.entries, if Has(form.checks, key) then Put(form.checks, key, d.b) else form.checks, sync)
    else
      Form(if Has(form.entries, key) then Put(form.entries, key, Str(d)) else form.entries, form.checks, sync)
  }

  /**
   * After a reset the field shows its default, every other field is as it
   * was, and resetting an aiming rate turns sync off.
   */
  lemma ResetFieldMeaning(defaults: Config, form: Form, key: FieldKey, other: FieldKey)
    requires Lookup2(defaults, key.0, key.1).Some?
    requires Strip(Str(Lookup2(defaults, key.0, key.1).value)) == Str(Lookup2(defaults, key.0, key.1).value)
    requires Has(form.entries, key) || Has(form.checks, key)
    requires Lookup2(defaults, key.0, key.1).value.VBool? ==> Has(form.checks, key)
    requires !Lookup2(defaults, key.0, key.1).value.VBool? ==> Has(form.entries, key)
    ensures AtDefault(defaults, ResetField(defaults, form, key), key)
    ensures other != key ==> Get(ResetField(defaults, form, key).entries, other) == Get(form.entries, other)
    ensures other != key ==> Get(ResetField(defaults, form, key).checks, other) == Get(form.checks, other)
    ensures ResetField(defaults, form, key).sync == if key.0 == Movement && IsAimingKey(key.1) then false else form.sync
  {
    var d := Lookup2(defaults, key.0, key.1).value;
    if d.VBool? {
      PutGet(form.checks, key, d.b, key);
      PutGet(form.checks, key, d.b, other);
    } else {
      PutGet(form.entries, key, Str(d), key);
      PutGet(form.entries, key, Str(d), other);
    }
  }

  // ---------------------------------------------------------------------
  // The aiming rates

  /** `sync_sensitivity_rates`: with sync on, a turn rate that `int()` reads is copied to the look-up rate. */
  function SyncRates(form: Form): Form {
    if !form.sync then form
    else
      match ParseInt(EntryOf(form, (Movement, TurnRate)))
      case None => form
      case Some(v) => form.(entries := Put(form.entries, (Movement, LookUpRate), RenderInt(v)))
  }

  /**
   * After syncing, the look-up rate reads back as the turn rate's int and
   * nothing else changed; without sync, or when the turn rate is no int,
   * the form is as it was.
   */
  lemma SyncRatesMeaning(form: Form, other: FieldKey)
    ensures !form.sync || ParseInt(EntryOf(form, (Movement, TurnRate))).None? ==> SyncRates(form) == form
    ensures form.sync && ParseInt(EntryOf(form, (Movement, TurnRate))).Some?
        ==> ParseInt(EntryOf(SyncRates(form), (Movement, LookUpRate))) == ParseInt(EntryOf(form, (Movement, TurnRate)))
    ensures other != (Movement, LookUpRate) ==> Get(SyncRates(form).entries, other) == Get(form.entries, other)
    ensures SyncRates(form).checks == form.checks && SyncRates(form).sync == form.sync
  {
    if form.sync && ParseInt(EntryOf(form, (Movement, TurnRate))).Some? {
      var v := ParseInt(EntryOf(form, (Movement, TurnRate))).value;
      PutGet(form.entries, (Movement, LookUpRate), RenderInt(v), (Movement, LookUpRate));
      PutGet(form.entries, (Movement, LookUpRate), RenderInt(v), other);
      ParseRenderInt(v);
    }
  }

  /** With the look-up rate on the form, syncing adds no field. */
  lemma SyncRatesKeepsDefaults(defaults: Config, form: Form)
    requires FieldsHaveDefaults(defaults, form)
    requires form.sync ==> Has(form.entries, (Movement, LookUpRate))
    ensures FieldsHaveDefaults(defaults, SyncRates(form))
  {
    if form.sync && ParseInt(EntryOf(form, (Movement, TurnRate))).Some? {
      var text := RenderInt(ParseInt(EntryOf(form, (Movement, TurnRate))).value);
      PutKeepsDefaults(defaults, form.entries, (Movement, LookUpRate), text);
    }
  }

  /** `validate_aiming_entry(key)`: with sync on, an int typed into either rate is written to both. */
  function AimingEdit(form: Form, key: string): Form {
    match ParseInt(EntryOf(form, (Movement, key)))
    case None => form
    case Some(v) =>
      if form.sync then
        form.(entries := Put(Put(form.entries, (Movement, TurnRate), RenderInt(v)), (Movement, LookUpRate), RenderInt(v)))
      else form
  }

  /**
   * With sync on and an int in the edited rate, both rates become
   * `str(int value)`; otherwise no text changes.
   */
  lemma AimingEditMeaning(form: Form, key: string, other: FieldKey)
    ensures ParseInt(EntryOf(form, (Movement, key))).None? || !form.sync ==> AimingEdit(form, key) == form
    ensures form.sync && ParseInt(EntryOf(form, (Movement, key))).Some?
        ==> Get(AimingEdit(form, key).entries, (Movement, TurnRate)) == Some(RenderInt(ParseInt(EntryOf(form, (Movement, key))).value))
            && Get(AimingEdit(form, key).entries, (Movement, LookUpRate)) == Some(RenderInt(ParseInt(EntryOf(form, (Movement, key))).value))
    ensures other != (Movement, TurnRate) && other != (Movement, LookUpRate)
        ==> Get(AimingEdit(form, key).entries, other) == Get(form.entries, other)
    ensures AimingEdit(form, key).checks == form.checks && AimingEdit(form, key).sync == form.sync
  {
    if form.sync && ParseInt(EntryOf(form, (Movement, key))).Some? {
      var text := RenderInt(ParseInt(EntryOf(form, (Movement, key))).value);
      var once := Put(form.entries, (Movement, TurnRate), text);
      PutGet(form.entries, (Movement, TurnRate), text, (Movement, TurnRate));
      PutGet(once, (Movement, LookUpRate), text, (Movement, TurnRate));
      PutGet(once, (Movement, LookUpRate), text, (Movement, LookUpRate));
      PutGet(form.entries, (Movement, TurnRate), text, other);
      PutGet(once, (Movement, LookUpRate), text, other);
    }
  }

  /** With both rates on the form, an aiming edit adds no field. */
  lemma AimingEditKeepsDefaults(defaults: Config, form: Form, key: string)
    requires FieldsHaveDefaults(defaults, form)
    requires form.sync ==> Has(form.entries, (Movement, TurnRate)) && Has(form.entries, (Movement, LookUpRate))
    ensures FieldsHaveDefaults(defaults, AimingEdit(form, key))
  {
    if form.sync && ParseInt(EntryOf(form, (Movement, key))).Some? {
      BothRatesKeepDefaults(defaults, form.entries, RenderInt(ParseInt(EntryOf(form, (Movement, key))).value));
    }
  }

  lemma BothRatesKeepDefaults(defaults: Config, entries: Entries, text: string)
    requires HaveDefaults(defaults, Keys(entries))
    requires Has(entries, (Movement, TurnRate)) && Has(entries, (Movement, LookUpRate))
    ensures HaveDefaults(defaults, Keys(Put(Put(entries, (Movement, TurnRate), text), (Movement, LookUpRate), text)))
  {
    var once := Put(entries, (Movement, TurnRate), text);
    PutKeepsDefaults(defaults, entries, (Movement, TurnRate), text);
    PutGet(entries, (Movement, TurnRate), text, (Movement, LookUpRate));
    PutKeepsDefaults(defaults, once, (Movement, LookUpRate), text);
  }

  // ---------------------------------------------------------------------
  // Loading values: update_entries

  /** `str(default)`, the text an entry is reset to. */
  function DefaultText(defaults: Config, key: FieldKey): string {
    match Lookup2(defaults, key.0, key.1)
    case Some(d) => Str(d)
    case None => ""
  }

  /** The state a checkbox is reset to. */
  function DefaultFlag(defaults: Config, key: FieldKey): bool {
    match Lookup2(defaults, key.0, key.1)
    case Some(d) => Truthy(d)
    case None => false
  }

  /** Every field of `d` set to what `reset` gives for its key; the keys stay as they are. */
  function ResetAll<V>(d: Dict<FieldKey, V>, reset: FieldKey -> V): (r: Dict<FieldKey, V>)
    ensures |r| == |d|
    ensures forall i :: 0 <= i < |d| ==> r[i] == (d[i].0, reset(d[i].0))
  {
    seq(|d|, i requires 0 <= i < |d| => (d[i].0, reset(d[i].0)))
  }

  lemma ResetAllKeys<V>(d: Dict<FieldKey, V>, reset: FieldKey -> V)
    ensures Keys(ResetAll(d, reset)) == Keys(d)
  {
    var r := ResetAll(d, reset);
    assert forall i :: 0 <= i < |d| ==> Keys(r)[i] == Keys(d)[i];
  }

  function DefaultTexts(defaults: Config): FieldKey -> string {
    k => DefaultText(defaults, k)
  }

  function DefaultFlags(defaults: Config): FieldKey -> bool {
    k => DefaultFlag(defaults, k)
  }

  function ResetEntries(defaults: Config, entries: Entries): Entries {
    ResetAll(entries, DefaultTexts(defaults))
  }

  function ResetChecks(defaults: Config, checks: Checks): Checks {
    ResetAll(checks, DefaultFlags(defaults))
  }

  /** One value of the loaded config, applied to the form. */
  function ApplyValue(form: Form, section: string, key: string, value: Value): Form {
    if section == Aiming && key == SyncKey then form.(sync := Truthy(value))
    else if value.VBool? then
      if Has(form.checks, (section, key)) then form.(checks := Put(form.checks, (section, key), value.b)) else form
    else
      if Has(form.entries, (section, key)) then form.(entries := Put(form.entries, (section, key), Str(value))) else form
  }

  function ApplySection(form: Form, section: string, items: Section): Form
    decreases |items|
  {
    if items == [] then form
    else
      var last := items[|items| - 1];
      ApplyValue(ApplySection(form, section, items[..|items| - 1]), section, last.0, last.1)
  }

  function ApplyConfig(form: Form, config: Config): Form
    decreases |config|
  {
    if config == [] then form
    else
      var last := config[|config| - 1];
      ApplySection(ApplyConfig(form, config[..|config| - 1]), last.0, last.1)
  }

  /** `update_entries(config)`: every field back to its default, then the config's values on top. */
  function UpdateEntries(defaults: Config, form: Form, config: Config): Form {
    ApplyConfig(Form(ResetEntries(defaults, form.entries), ResetChecks(defaults, form.checks), form.sync), config)
  }

  /** The config names `(section, key)`. */
  predicate Mentions(config: Config, section: string, key: string) {
    exists i, j :: 0 <= i < |config| && 0 <= j < |config[i].1| && config[i].0 == section && config[i].1[j].0 == key
  }

  /** What one applied value does to the fields other than its own, to the key sets and to sync. */
  lemma ApplyValueElsewhere(form: Form, section: string, key: string, value: Value, k: FieldKey)
    ensures k != (section, key) ==> Get(ApplyValue(form, section, key, value).entries, k) == Get(form.entries, k)
    ensures k != (section, key) ==> Get(ApplyValue(form, section, key, value).checks, k) == Get(form.checks, k)
    ensures Keys(ApplyValue(form, section, key, value).entries) == Keys(form.entries)
    ensures Keys(ApplyValue(form, section, key, value).checks) == Keys(form.checks)
    ensures !(section == Aiming && key == SyncKey) ==> ApplyValue(form, section, key, value).sync == form.sync
  {
    if !(section == Aiming && key == SyncKey) {
      if value.VBool? && Has(form.checks, (section, key)) {
        PutGet(form.checks, (section, key), value.b, k);
        PutKeys(form.checks, (section, key), value.b);
      } else if !value.VBool? && Has(form.entries, (section, key)) {
        PutGet(form.entries, (section, key), Str(value), k);
        PutKeys(form.entries, (section, key), Str(value));
      }
    }
  }

  /** Applying a value adds no field. */
  lemma ApplyValueKeepsDefaults(defaults: Config, form: Form, section: string, key: string, value: Value)
    requires FieldsHaveDefaults(defaults, form)
    ensures FieldsHaveDefaults(defaults, ApplyValue(form, section, key, value))
  {
    ApplyValueElsewhere(form, section, key, value, (section, key));
  }

  /** Applying a section keeps the set of fields. */
  lemma {:induction false} ApplySectionKeys(form: Form, section: string, items: Section)
    ensures Keys(ApplySection(form, section, items).entries) == Keys(form.entries)
    ensures Keys(ApplySection(form, section, items).checks) == Keys(form.checks)
    decreases |items|
  {
    if items != [] {
      var last := items[|items| - 1];
      ApplySectionKeys(form, section, items[..|items| - 1]);
      ApplyValueElsewhere(ApplySection(form, section, items[..|items| - 1]), section, last.0, last.1, (section, last.0));
    }
  }

  /** Applying a section leaves alone every field it does not name. */
  lemma {:induction false} ApplySectionOther(form: Form, section: string, items: Section, k: FieldKey)
    requires k.0 != section || forall j :: 0 <= j < |items| ==> items[j].0 != k.1
    ensures Get(ApplySection(form, section, items).entries, k) == Get(form.entries, k)
    ensures Get(ApplySection(form, section, items).checks, k) == Get(form.checks, k)
    decreases |items|
  {
    if items != [] {
      var n := |items|;
      var prefix := items[..n - 1];
      assert forall j :: 0 <= j < n - 1 ==> prefix[j] == items[j];
      ApplySectionOther(form, section, prefix, k);
      ApplyValueElsewhere(ApplySection(form, section, prefix), section, items[n - 1].0, items[n - 1].1, k);
    }
  }

  /** Applying a section without `Aiming.SyncTurnRate` leaves sync alone. */
  lemma {:induction false} ApplySectionSync(form: Form, section: string, items: Section)
    requires section != Aiming || forall j :: 0 <= j < |items| ==> items[j].0 != SyncKey
    ensures ApplySection(form, section, items).sync == form.sync
    decreases |items|
  {
    if items != [] {
      var n := |items|;
      var prefix := items[..n - 1];
      assert forall j :: 0 <= j < n - 1 ==> prefix[j] == items[j];
      ApplySectionSync(form, section, prefix);
      ApplyValueElsewhere(ApplySection(form, section, prefix), section, items[n - 1].0, items[n - 1].1, (section, SyncKey));
    }
  }

  /** What applying a config leaves to a field it does not name, and to sync when it has no `Aiming.SyncTurnRate`. */
  lemma {:induction false} ApplyConfigElsewhere(form: Form, config: Config, k: FieldKey)
    requires !Mentions(config, k.0, k.1)
    ensures Get(ApplyConfig(form, config).entries, k) == Get(form.entries, k)
    ensures Get(ApplyConfig(form, config).checks, k) == Get(form.checks, k)
    ensures Keys(ApplyConfig(form, config).entries) == Keys(form.entries)
    ensures Keys(ApplyConfig(form, config).checks) == Keys(form.checks)
    ensures !Mentions(config, Aiming, SyncKey) ==> ApplyConfig(form, config).sync == form.sync
    decreases |config|
  {
    if config != [] {
      var n := |config|;
      var prefix := config[..n - 1];
      var section, items := config[n - 1].0, config[n - 1].1;
      MentionsLast(config, section, items, k.0, k.1);
      MentionsLast(config, section, items, Aiming, SyncKey);
      ApplyConfigElsewhere(form, prefix, k);
      var mid := ApplyConfig(form, prefix);
      ApplySectionOther(mid, section, items, k);
      ApplySectionKeys(mid, section, items);
      if !Mentions(config, Aiming, SyncKey) {
        ApplySectionSync(mid, section, items);
      }
    }
  }

  /** A config names a key when its prefix does or its last section does. */
  lemma MentionsLast(config: Config, name: string, items: Section, section: string, key: string)
    requires config != [] && config[|config| - 1] == (name, items)
    ensures !Mentions(config, section, key) ==> !Mentions(config[..|config| - 1], section, key)
    ensures !Mentions(config, section, key) && name == section ==> forall j :: 0 <= j < |items| ==> items[j].0 != key
  {
    var n := |config|;
    var prefix := config[..n - 1];
    if !Mentions(config, section, key) {
      forall i, j | 0 <= i < |prefix| && 0 <= j < |prefix[i].1|
        ensures !(prefix[i].0 == section && prefix[i].1[j].0 == key)
      {
        assert prefix[i] == config[i];
      }
    }
  }

  /**
   * `update_entries` keeps the set of fields, leaves every field the
   * config does not name at its default, and leaves sync alone when the
   * config has no `Aiming.SyncTurnRate`.
   */
  lemma UpdateEntriesUntouched(defaults: Config, form: Form, config: Config, i: nat)
    requires i < |form.entries| && !Mentions(config, form.entries[i].0.0, form.entries[i].0.1)
    requires Unique(form.entries)
    ensures Get(UpdateEntries(defaults, form, config).entries, form.entries[i].0) == Some(DefaultText(defaults, form.entries[i].0))
    ensures Keys(UpdateEntries(defaults, form, config).entries) == Keys(form.entries)
    ensures Keys(UpdateEntries(defaults, form, config).checks) == Keys(form.checks)
    ensures !Mentions(config, Aiming, SyncKey) ==> UpdateEntries(defaults, form, config).sync == form.sync
  {
    var reset := Form(ResetEntries(defaults, form.entries), ResetChecks(defaults, form.checks), form.sync);
    ApplyConfigElsewhere(reset, config, form.entries[i].0);
    ResetKeepsFields(defaults, form, i);
  }

  /** The reset form has the same fields, and each entry holds its default text. */
  lemma ResetKeepsFields(defaults: Config, form: Form, i: nat)
    requires i < |form.entries| && Unique(form.entries)
    ensures Get(ResetEntries(defaults, form.entries), form.entries[i].0) == Some(DefaultText(defaults, form.entries[i].0))
    ensures Keys(ResetEntries(defaults, form.entries)) == Keys(form.entries)
    ensures Keys(ResetChecks(defaults, form.checks)) == Keys(form.checks)
  {
    var entries := ResetEntries(defaults, form.entries);
    ResetAllKeys(form.entries, DefaultTexts(defaults));
    ResetAllKeys(form.checks, DefaultFlags(defaults));
    assert Unique(entries) by {
      forall a, b | 0 <= a < b < |entries| ensures entries[a].0 != entries[b].0 {
        assert entries[a].0 == form.entries[a].0 && entries[b].0 == form.entries[b].0;
      }
    }
    GetAt(entries, i);
  }

  /** A reset form has no changes, unless the sync flag differs from its default. */
  lemma ResetHasNoChanges(defaults: Config, form: Form)
    requires forall i :: 0 <= i < |form.entries| ==> Strip(DefaultText(defaults, form.entries[i].0)) == DefaultText(defaults, form.entries[i].0)
    requires forall i :: 0 <= i < |form.checks| ==> Lookup2(defaults, form.checks[i].0.0, form.checks[i].0.1).Some?
                                                    && Lookup2(defaults, form.checks[i].0.0, form.checks[i].0.1).value.VBool?
    ensures Changed(defaults, UpdateEntries(defaults, form, [])) <==> SyncDiffers(defaults, form.sync)
  {
    var r := UpdateEntries(defaults, form, []);
    forall i | 0 <= i < |r.entries| ensures !EntryDiffers(defaults, r.entries[i].0, r.entries[i].1) {
    }
    forall i | 0 <= i < |r.checks| ensures !CheckDiffers(defaults, r.checks[i].0, r.checks[i].1) {
    }
  }

  // ---------------------------------------------------------------------
  // The config built from the form: get_current_config

  /** What the form holds for a field (the form always has a field for each schema key). */
  function EntryOf(form: Form, key: FieldKey): string {
    Get(form.entries, key).GetOr("")
  }

  function CheckOf(form: Form, key: FieldKey): bool {
    Get(form.checks, key).GetOr(false)
  }

  /** The key goes into the config: always with defaults, else when the raw field differs from its default. */
  predicate Included(form: Form, section: string, key: string, default: Value, includeDefaults: bool) {
    includeDefaults
    || (if default.VBool? then CheckOf(form, (section, key)) != default.b
        else EntryOf(form, (section, key)) != Str(default))
  }

  /** An entry whose raw text is no number by the dot rule. */
  predicate Unreadable(form: Form, section: string, key: string, default: Value) {
    !default.VBool? && ParseNumber(EntryOf(form, (section, key))).None?
  }

  /** The value a field contributes. */
  function CurrentValue(form: Form, section: string, key: string, default: Value): Value
    requires !Unreadable(form, section, key, default)
  {
    if default.VBool? then VBool(CheckOf(form, (section, key)))
    else ParseNumber(EntryOf(form, (section, key))).value
  }

  /** What a schema item contributes to its section: nothing, a failure, or a value. */
  datatype Field = Skip | Fail | Take(value: Value)

  /** One schema item as `get_current_config` reads it from the form. */
  function ReadField(form: Form, section: string, includeDefaults: bool, item: (string, Value)): Field {
    if !Included(form, section, item.0, item.1, includeDefaults) then Skip
    else if Unreadable(form, section, item.0, item.1) then Fail
    else Take(CurrentValue(form, section, item.0, item.1))
  }

  function FieldReader(form: Form, section: string, includeDefaults: bool): ((string, Value)) -> Field {
    item => ReadField(form, section, includeDefaults, item)
  }

  /** The values `field` takes from the items, in order, or None when it fails on one. */
  function Collect(items: Section, field: ((string, Value)) -> Field): Option<Section>
    decreases |items|
  {
    if items == [] then Some([])
    else
      match Collect(items[..|items| - 1], field)
      case None => None
      case Some(acc) =>
        match field(items[|items| - 1])
        case Skip => Some(acc)
        case Fail => None
        case Take(v) => Some(Put(acc, items[|items| - 1].0, v))
  }

  /** One more item: what `field` makes of it decides the result. */
  lemma CollectNext(items: Section, field: ((string, Value)) -> Field, j: nat, acc: Section)
    requires j < |items| && Collect(items[..j], field) == Some(acc)
    ensures Collect(items[..j + 1], field)
         == match field(items[j])
            case Skip => Some(acc)
            case Fail => None
            case Take(v) => Some(Put(acc, items[j].0, v))
  {
    assert items[..j + 1][..j] == items[..j];
  }

  /** A failure on any item fails the whole collection. */
  lemma CollectFailsAt(items: Section, field: ((string, Value)) -> Field, j: nat)
    requires j < |items| && field(items[j]).Fail?
    ensures Collect(items, field).None?
  {
    CollectMeaning(items, field, items[j].0);
  }

  /** One section's values, or None when an included entry is no number. */
  function SectionValues(form: Form, section: string, items: Section, includeDefaults: bool): Option<Section> {
    Collect(items, FieldReader(form, section, includeDefaults))
  }

  lemma {:induction false} CollectMeaning(items: Section, field: ((string, Value)) -> Field, k: string)
    ensures Collect(items, field).None? <==> exists j :: 0 <= j < |items| && field(items[j]).Fail?
    ensures Collect(items, field).Some?
        ==> (Get(Collect(items, field).value, k).Some? <==> exists j :: 0 <= j < |items| && items[j].0 == k && !field(items[j]).Skip?)
    decreases |items|
  {
    if items != [] {
      var n := |items|;
      var prefix := items[..n - 1];
      var last := items[n - 1];
      assert forall j :: 0 <= j < n - 1 ==> prefix[j] == items[j];
      CollectMeaning(prefix, field, k);
      var prev := Collect(prefix, field);
      if prev.Some? && field(last).Take? {
        PutGet(prev.value, last.0, field(last).value, k);
      }
    }
  }

  /** The sections other than Aiming, each only when it has values. */
  function CurrentSections(form: Form, defaults: Config, includeDefaults: bool): Option<Config>
    decreases |defaults|
  {
    if defaults == [] then Some([])
    else
      var last := defaults[|defaults| - 1];
      match CurrentSections(form, defaults[..|defaults| - 1], includeDefaults)
      case None => None
      case Some(acc) =>
        if last.0 == Aiming then Some(acc)
        else
          match SectionValues(form, last.0, last.1, includeDefaults)
          case None => None
          case Some(values) => Some(if values != [] then Put(acc, last.0, values) else acc)
  }

  /** `get_current_config(include_defaults)`; sync adds `Aiming.SyncTurnRate = True`. */
  function CurrentConfig(form: Form, defaults: Config, includeDefaults: bool): Option<Config> {
    match CurrentSections(form, defaults, includeDefaults)
    case None => None
    case Some(c) => Some(if form.sync then Put(c, Aiming, [(SyncKey, VBool(true))]) else c)
  }

  /** A section's result holds exactly the included keys, and fails exactly when an included entry is no number. */
  lemma SectionValuesMeaning(form: Form, section: string, items: Section, includeDefaults: bool, k: string)
    ensures SectionValues(form, section, items, includeDefaults).None?
        <==> exists j :: 0 <= j < |items| && Included(form, section, items[j].0, items[j].1, includeDefaults)
                         && Unreadable(form, section, items[j].0, items[j].1)
    ensures SectionValues(form, section, items, includeDefaults).Some?
        ==> (Get(SectionValues(form, section, items, includeDefaults).value, k).Some?
             <==> exists j :: 0 <= j < |items| && items[j].0 == k && Included(form, section, k, items[j].1, includeDefaults))
  {
    var field := FieldReader(form, section, includeDefaults);
    CollectMeaning(items, field, k);
    forall j | 0 <= j < |items|
      ensures field(items[j]).Fail? <==> Included(form, section, items[j].0, items[j].1, includeDefaults)
                                         && Unreadable(form, section, items[j].0, items[j].1)
      ensures !field(items[j]).Skip? <==> Included(form, section, items[j].0, items[j].1, includeDefaults)
    {
    }
  }

  /** What one more schema section adds to the sections built so far. */
  lemma CurrentSectionsStep(form: Form, defaults: Config, includeDefaults: bool, name: string)
    requires defaults != []
    requires CurrentSections(form, defaults, includeDefaults).Some?
    ensures CurrentSections(form, defaults[..|defaults| - 1], includeDefaults).Some?
    ensures var last := defaults[|defaults| - 1];
      Get(CurrentSections(form, defaults, includeDefaults).value, name)
      == if last.0 == name && name != Aiming && SectionValues(form, name, last.1, includeDefaults).value != []
         then SectionValues(form, name, last.1, includeDefaults)
         else Get(CurrentSections(form, defaults[..|defaults| - 1], includeDefaults).value, name)
  {
    var last := defaults[|defaults| - 1];
    var acc := CurrentSections(form, defaults[..|defaults| - 1], includeDefaults).value;
    if last.0 != Aiming {
      var values := SectionValues(form, last.0, last.1, includeDefaults).value;
      if values != [] {
        PutGet(acc, last.0, values, name);
      }
    }
  }

  /** No section of the result is empty, and none is Aiming. */
  lemma {:induction false} CurrentSectionsShape(form: Form, defaults: Config, includeDefaults: bool, name: string)
    requires CurrentSections(form, defaults, includeDefaults).Some?
    ensures Get(CurrentSections(form, defaults, includeDefaults).value, name).Some?
        ==> name != Aiming && Get(CurrentSections(form, defaults, includeDefaults).value, name).value != []
    decreases |defaults|
  {
    if defaults != [] {
      CurrentSectionsStep(form, defaults, includeDefaults, name);
      CurrentSectionsShape(form, defaults[..|defaults| - 1], includeDefaults, name);
    }
  }

  /** A section other than Aiming whose values cannot be read. */
  predicate SectionFails(form: Form, section: (string, Section), includeDefaults: bool) {
    section.0 != Aiming && SectionValues(form, section.0, section.1, includeDefaults).None?
  }

  /** The build fails exactly when some non-Aiming section has an included entry that is no number. */
  lemma {:induction false} CurrentSectionsFails(form: Form, defaults: Config, includeDefaults: bool)
    ensures CurrentSections(form, defaults, includeDefaults).None?
        <==> exists i :: 0 <= i < |defaults| && SectionFails(form, defaults[i], includeDefaults)
    decreases |defaults|
  {
    if defaults != [] {
      var n := |defaults|;
      var prefix := defaults[..n - 1];
      CurrentSectionsFails(form, prefix, includeDefaults);
      CurrentSectionsFailStep(form, defaults, includeDefaults);
      if exists i :: 0 <= i < n && SectionFails(form, defaults[i], includeDefaults) {
        var i :| 0 <= i < n && SectionFails(form, defaults[i], includeDefaults);
        if i < n - 1 {
          assert prefix[i] == defaults[i];
        }
      }
      if exists i :: 0 <= i < n - 1 && SectionFails(form, prefix[i], includeDefaults) {
        var i :| 0 <= i < n - 1 && SectionFails(form, prefix[i], includeDefaults);
        assert prefix[i] == defaults[i];
      }
    }
  }

  /** One more schema section: skipped when it is Aiming, else its values decide. */
  lemma CurrentSectionsNext(form: Form, defaults: Config, includeDefaults: bool, i: nat, acc: Config, values: Option<Section>)
    requires i < |defaults| && CurrentSections(form, defaults[..i], includeDefaults) == Some(acc)
    requires defaults[i].0 != Aiming ==> values == SectionValues(form, defaults[i].0, defaults[i].1, includeDefaults)
    ensures CurrentSections(form, defaults[..i + 1], includeDefaults)
         == if defaults[i].0 == Aiming then Some(acc)
            else match values
              case None => None
              case Some(v) => Some(if v != [] then Put(acc, defaults[i].0, v) else acc)
  {
    assert defaults[..i + 1][..i] == defaults[..i];
  }

  /** One failing section fails the whole build. */
  lemma SectionFailsAt(form: Form, defaults: Config, includeDefaults: bool, i: nat)
    requires i < |defaults| && SectionFails(form, defaults[i], includeDefaults)
    ensures CurrentSections(form, defaults, includeDefaults).None?
  {
    CurrentSectionsFails(form, defaults, includeDefaults);
  }

  /** The build that fails at section i fails as a whole. */
  lemma SectionFailsAfter(form: Form, defaults: Config, includeDefaults: bool, i: nat)
    requires i < |defaults| && CurrentSections(form, defaults[..i], includeDefaults).Some?
    requires CurrentSections(form, defaults[..i + 1], includeDefaults).None?
    ensures CurrentSections(form, defaults, includeDefaults).None?
  {
    assert defaults[..i + 1][..i] == defaults[..i];
    CurrentSectionsFailStep(form, defaults[..i + 1], includeDefaults);
    SectionFailsAt(form, defaults, includeDefaults, i);
  }

  lemma CurrentSectionsFailStep(form: Form, defaults: Config, includeDefaults: bool)
    requires defaults != []
    ensures CurrentSections(form, defaults, includeDefaults).None?
        <==> CurrentSections(form, defaults[..|defaults| - 1], includeDefaults).None?
             || SectionFails(form, defaults[|defaults| - 1], includeDefaults)
  {
  }

  /**
   * The config built from the form: Aiming appears exactly when sync is on
   * and then only as `SyncTurnRate = True`; no other section is empty.
   */
  lemma CurrentConfigShape(form: Form, defaults: Config, includeDefaults: bool, name: string)
    requires CurrentConfig(form, defaults, includeDefaults).Some?
    ensures Get(CurrentConfig(form, defaults, includeDefaults).value, Aiming)
         == if form.sync then Some([(SyncKey, VBool(true))]) else None
    ensures name != Aiming && Get(CurrentConfig(form, defaults, includeDefaults).value, name).Some?
        ==> Get(CurrentConfig(form, defaults, includeDefaults).value, name).value != []
  {
    var c := CurrentSections(form, defaults, includeDefaults).value;
    CurrentSectionsShape(form, defaults, includeDefaults, Aiming);
    CurrentSectionsShape(form, defaults, includeDefaults, name);
    if form.sync {
      PutGet(c, Aiming, [(SyncKey, VBool(true))], Aiming);
      PutGet(c, Aiming, [(SyncKey, VBool(true))], name);
    }
  }
}
