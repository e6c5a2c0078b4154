# SCAM Stalker Configurator — a Dafny model of its configuration core

The configurator is a desktop editor for the movement, aiming and stamina
parameters of a game. It loads a schema of sections, keys, defaults,
maximums and descriptions from the bundled `default_values*.ini` files. The
user edits the values in a form; the program compares them with the
defaults, validates numbers against their maximums, and saves and loads
named presets. It remembers the last settings in `app_preferences.json` and
builds a mod. A mod build writes a `DefaultPlayer.cfg` with the changed
values, hands the staged folder to the external `repak` packer and moves
the packed `.pak` into the game's mods folder. It also rewrites the game's
`Input.ini` to switch mouse smoothing on or off.

The model follows the program's modules:

| file | models |
|---|---|
| `wrappers.dfy` | `Option` and `Result` |
| `dicts.dfy` | Python dicts as insertion-ordered sequences of pairs (`Keys`, `Get`, `Put`, `Remove`) |
| `text.dfy` | `str.strip`, `lower`, `capitalize`, `in`, `startswith`, `split(sep, 1)`, `replace` |
| `numbers.dfy` | `int()` and `float()` on text, `str()` of ints and floats (floats as exact decimals) |
| `values.dfy` | setting values, `str()`, the literal type inference used by every INI reader |
| `prefs.dfy` | the shared preferences file and its read-modify-write setters |
| `config.dfy` | `modules/config.py`: schema loading, preset files, last settings |
| `form.dfy` | the state of the settings form in `modules/config_interface.py` as a value, and the functions that specify its operations |
| `interface.dfy` | `ConfigInterface` as a class whose methods update the form |
| `gamedir.dfy` | game-directory discovery and validation, mod presence and removal |
| `input_ini.dfy` | the mouse-smoothing state and the `Input.ini` rewrite |
| `modbuild.dfy` | `modules/mod.py`: incompatible mods, `DefaultPlayer.cfg` text, the packer run and the mod build |
| `localization.dfy` | `modules/localization/language_manager.py`: language discovery, preference, text lookup |
| `editor.dfy` | the application logic of `modules/gui.py`: presets, reset, last settings, the build checks |

The file system, the preferences file and the packer are values or
parameters. Methods that touch them return the new file system or change
the store object they were given. Widgets are fields: an entry's text is a
string, a checkbox is a bool, and the sync toggle is a bool.

## Model

| member | source | states |
|---|---|---|
| Numbers.ParseIntRejectsDot | modules/config.py:132-135 | `int()` rejects every text that contains a decimal point |
| Numbers.ParseRenderInt | modules/config.py:164-179 | `int(str(i)) == i` for every integer |
| Numbers.ParseRenderFloat | modules/config.py:164-179 | `str()` of a float always holds a point, and `float()` reads it back as the same float |
| Numbers.ParseIntThenFloat | modules/config_interface.py:853-857 | `float()` accepts every int literal, with the same value |
| Numbers.ParseFloat | modules/config.py:166-167 | a parsed float is in normal form |
| Values.ParseNumber | modules/config.py:132-135 | the dot rule: text with a `.` gives a float, other text an int, a failure gives nothing; every result is a well-formed number |
| Values.InferValue | modules/config.py:129-137 | any-case `true`/`false` is a bool, then the dot rule; the result is always well formed |
| Values.InferNotBool | modules/config.py:163-171 | text that starts with a digit or a minus sign is decided by the dot rule alone |
| Values.ParseNumberStr | modules/config.py:166-169 | an int or a float written with `str()` comes back through the dot rule unchanged |
| Values.InferStr | modules/config.py:163-179 | a bool, int or float written with `str()` is inferred back as the same value |
| Values.StrOfDigitsBecomesInt | modules/config.py:163-179 | a string value `"7"` is read back as the int 7: strings do not round-trip |
| Values.StrPlain | modules/config.py:179 | `str()` of a bool or number is non-empty, has no surrounding space and holds neither `;` nor a pipe |
| Values.GreaterIrreflexive | modules/config_interface.py:860-862 | a value equal to its maximum does not exceed it |
| Values.GreaterInts | modules/config_interface.py:810-812 | on two ints, "exceeds the maximum" is integer `>` |
| Prefs.Lookup | modules/config.py:20-28 | a missing or unreadable preferences file reads as the empty object |
| Prefs.SetKeyOnlyOwnKey | modules/config.py:43-47 | a setter makes readers find the new value under its key and changes no other key; an unwritable file stays as it was |
| Prefs.PrefsStore.Save | modules/config.py:30-36 | the object replaces the file when it can be written; otherwise the file is unchanged |
| Prefs.PrefsStore.Set | modules/config.py:54-59 | read the file, set one key, write everything back |
| ConfigHandling.SplitDefaultLineSeparators | modules/config.py:123-127 | the default holds neither `;` nor a pipe, a maximum holds no `;`, no `;` means no description, no pipe means no maximum |
| ConfigHandling.ValuePartPlain | modules/config.py:123-126 | the part of a written schema line before its `;` splits back at its pipe into default and maximum |
| ConfigHandling.JoinSplitsAtSemicolon | modules/config.py:123 | a written schema line splits at its `;` into value part and description |
| ConfigHandling.SplitJoinDefaultLine | modules/config.py:123-127 | splitting a schema line written from stripped, separator-free parts gives those parts back |
| ConfigHandling.ReadSchemaLine | modules/config.py:123-149 | the default is well formed, a maximum is always a number, a stored description is never empty |
| ConfigHandling.ReadWrittenSchemaLine | modules/config.py:123-149 | a line written from a bool or number default, a numeric maximum and a description reads back as exactly those |
| ConfigHandling.ReadSchemaNext | modules/config.py:120-149 | one more schema line: comment keys change nothing, other keys set their default and, when present, maximum and description |
| ConfigHandling.ReadSchemaSectionStep | modules/config.py:120-149 | what one more line changes for any key of the section |
| ConfigHandling.ReadSchemaSectionShape | modules/config.py:120-149 | comment keys never enter the schema, defaults are well formed, maximums are numbers, and a key has a maximum or description only with a default |
| ConfigHandling.ReadSchemaSectionAt | modules/config.py:120-149 | every non-comment key of a section gets exactly what its own line says |
| ConfigHandling.ReadSchemaSectionAbsent | modules/config.py:120-121 | a key the section does not hold gets no default |
| ConfigHandling.ApplySchemaStep | modules/config.py:116-119 | one more section replaces that section's three tables and leaves the others |
| ConfigHandling.ApplySchemaAt | modules/config.py:116-149 | a section of the file gets the defaults, maximums and descriptions its lines give |
| ConfigHandling.ApplySchemaKeeps | modules/config.py:116-119 | a section the file does not name keeps its old tables |
| ConfigHandling.SchemaFileName | modules/config.py:86-114 | the schema file read is the base file or one that exists |
| ConfigHandling.SchemaFileChoice | modules/config.py:86-114 | a translated schema is read exactly when the recorded language is not English and its file exists, named by the language's suffix |
| ConfigHandling.ReadPresetValue | modules/config.py:162-171 | a preset value is inferred from the text before its first `;`; text kept as a string has no `;` and no surrounding space |
| ConfigHandling.StrItems | modules/config.py:179 | every item of a saved section is its key and `str()` of its value, in order |
| ConfigHandling.DropEmpty | modules/config.py:177-179 | the sections kept are never empty |
| ConfigHandling.DropEmptyHas | modules/config.py:177-179 | dropping empty sections adds no section |
| ConfigHandling.ReadPresetStr | modules/config.py:162-179 | a bool or number saved with `str()` loads back as itself |
| ConfigHandling.ReadSectionReads | modules/config.py:157-171 | items that each read back as the value under the same key give that section |
| ConfigHandling.PresetSectionStr | modules/config.py:157-179 | a section of bools and numbers that is saved and loaded again comes back unchanged |
| ConfigHandling.LoadSavedPreset | modules/config.py:151-182 | saving a preset and loading it again gives the config back without its empty sections |
| ConfigHandling.LoadSavedLast | modules/config.py:151-182 | one more section keeps that round trip |
| ConfigHandling.PresetAddSection | modules/config.py:157-171 | loading a saved non-empty section adds it at the end of the preset |
| ConfigHandling.PresetOfSnoc | modules/config.py:157-158 | a later section with a repeated name replaces the earlier one in place |
| ConfigHandling.LoadSchemaSection | modules/config.py:120-149 | the inner loop of `load_default_config` computes the three tables of one section as `ReadSchemaSection` defines them |
| ConfigHandling.ReadItems | modules/config.py:159-171 | the inner loop of `load_ini_file` reads one section as `ReadSection` defines it |
| ConfigHandling.LoadPresetSection | modules/config.py:159-171 | one section of a preset file, each value read as in `ReadPresetValue` |
| ConfigHandling.PresetOf | modules/config.py:151-172 | `load_ini_file` on a parsed file; `LoadSavedPreset` and `ReadSectionReads` state its round trip with `SavedDoc` |
| ConfigHandling.SavedDoc | modules/config.py:174-182 | the document `save_ini_file` writes; `PresetSectionStr` and `LoadSavedPreset` state what reads back |
| ConfigHandling.ApplySchema | modules/config.py:108-149 | loading a schema file over the held tables; `ApplySchemaAt`, `ApplySchemaKeeps` and `ApplySchemaStep` state the result |
| ConfigHandling.ConfigHandler.constructor | modules/config.py:8-18 | the schema for the recorded language is read into empty tables, then both bundled presets are loaded |
| ConfigHandling.ConfigHandler.LoadDefaultConfig | modules/config.py:74-149 | the chosen schema file is applied over the current tables; the bundled presets are unchanged |
| ConfigHandling.ConfigHandler.LoadIniFile | modules/config.py:151-172 | a preset file as `PresetOf` defines it |
| ConfigHandling.ConfigHandler.SaveIniFile | modules/config.py:174-182 | the document written is `SavedDoc` of the config |
| ConfigHandling.ConfigHandler.SetLastSelectedPreset | modules/config.py:43-47 | only `last_selected_preset` changes |
| ConfigHandling.ConfigHandler.SetLastSettings | modules/config.py:54-59 | only `last_settings` changes |
| ConfigHandling.ConfigHandler.ClearLastSettings | modules/config.py:61-66 | settings and preset selection are cleared in one write |
| ConfigHandling.ConfigHandler.ClearLastSettingsOnly | modules/config.py:68-72 | the settings are cleared and the preset selection is kept |
| ConfigHandling.ClearedReads | modules/config.py:61-72 | after `clear_last_settings` both readers find nothing and other keys are kept; after `clear_last_settings_only` the preset is kept |
| Form.PutKeepsDefaults | modules/config_interface.py:841-843 | writing a field that exists keeps every field's default lookup defined |
| Form.CoversAt | modules/config_interface.py:962-971 | the form has a field of the right kind for every key of a non-Aiming schema section |
| Form.EntryValidityCases | modules/config_interface.py:840-884 | an entry is invalid exactly when its default is a number and its stripped text is empty, no number by the dot rule, or above its maximum; entries with other defaults are always valid |
| Form.EntryValidity | modules/config_interface.py:840-884 | the check of one entry; its cases are `EntryValidityCases` |
| Form.AtMaximumIsValid | modules/config_interface.py:859-862 | a value equal to its maximum passes the check |
| Form.ReportsSnoc | modules/config_interface.py:889-909 | the messages for one more entry are the earlier ones plus that entry's message, if any |
| Form.ReportsHas | modules/config_interface.py:889-909 | every message an entry produces is in the list |
| Form.ReportsFrom | modules/config_interface.py:889-909 | every message in the list comes from some entry |
| Form.ReportsEmpty | modules/config_interface.py:886-911 | the list is empty exactly when no entry produces a message |
| Form.InvalidEntryReported | modules/config_interface.py:893-909 | every invalid entry has its message, with the section, key, value and maximum, among those reported |
| Form.ReportedEntryInvalid | modules/config_interface.py:893-909 | every reported message is the message of an invalid entry |
| Form.NoMessagesIffValid | modules/config_interface.py:886-911 | `has_invalid_entries` reports nothing exactly when every entry is valid |
| Form.TwentyIsAChange | modules/config_interface.py:913-918 | the text `20` against a default of 20.0 counts as a change, because texts are compared rather than numbers |
| Form.CategoryImpliesChanged | modules/config_interface.py:117-171 | a tab marked as changed means `has_changes` is true |
| Form.ChangedEntryShowsOnTab | modules/config_interface.py:117-171 | a changed entry marks the tab it is shown on, with the two rates on the Aiming tab |
| Form.AimingEntryMarked | modules/config_interface.py:126-133 | a changed turn or look-up rate marks the Aiming tab |
| Form.SectionEntryMarked | modules/config_interface.py:136-161 | a changed entry of any other section marks its own tab |
| Form.ChangedCheckShowsOnTab | modules/config_interface.py:145-169 | a changed checkbox marks its own tab |
| Form.TabLabelMarks | modules/config_interface.py:173-192 | a changed tab gets the `● ` marker; an unchanged tab loses it; relabelling is idempotent |
| Form.LabelColorMeaning | modules/config_interface.py:255-303 | an entry's label is red exactly when the entry is invalid, and black exactly when it is valid and at its default |
| Form.CheckLabelMeaning | modules/config_interface.py:263-271 | a checkbox label is never red, and black exactly when the box is at its default |
| Form.ResetFieldMeaning | modules/config_interface.py:194-217 | resetting a field puts it at its default, leaves every other field alone and clears sync only for the two rates |
| Form.ResetField | modules/config_interface.py:194-217 | `reset_to_default` on the form; `ResetFieldMeaning` states the result |
| Form.SyncRatesMeaning | modules/config_interface.py:783-792 | with sync on and an int turn rate, the look-up rate reads as the same int; otherwise nothing changes; no other field changes |
| Form.SyncRatesKeepsDefaults | modules/config_interface.py:788-789 | syncing adds no field |
| Form.AimingEditMeaning | modules/config_interface.py:801-826 | with sync on, an int typed into either rate is written as `str()` of that int into both; otherwise no field changes |
| Form.AimingEditKeepsDefaults | modules/config_interface.py:814-818 | an aiming edit adds no field |
| Form.ResetAll | modules/config_interface.py:932-940 | every field is set to what the reset gives for its key, in the same order |
| Form.ResetAllKeys | modules/config_interface.py:932-940 | resetting keeps the set and order of fields |
| Form.ApplyValueElsewhere | modules/config_interface.py:944-954 | one loaded value changes only its own field, never adds a field, and only `Aiming.SyncTurnRate` touches sync |
| Form.ApplyValueKeepsDefaults | modules/config_interface.py:944-954 | applying a loaded value adds no field |
| Form.ApplySectionKeys | modules/config_interface.py:943-954 | applying a section keeps the set of fields |
| Form.ApplySectionOther | modules/config_interface.py:943-954 | applying a section leaves alone every field it does not name |
| Form.ApplySectionSync | modules/config_interface.py:944-945 | a section without `Aiming.SyncTurnRate` leaves sync alone |
| Form.ApplyConfigElsewhere | modules/config_interface.py:942-954 | a field the config does not name keeps its value; the fields stay the same; sync changes only through `Aiming.SyncTurnRate` |
| Form.MentionsLast | modules/config_interface.py:942-943 | a key the config does not name is not named by its earlier sections or by its last one |
| Form.UpdateEntriesUntouched | modules/config_interface.py:931-954 | after `update_entries`, an entry the config does not name holds `str()` of its default, and the set of fields is unchanged |
| Form.ResetKeepsFields | modules/config_interface.py:932-940 | the reset form has the same fields, and each entry holds its default text |
| Form.ResetHasNoChanges | modules/config_interface.py:913-940 | after loading an empty config the form has changes exactly when the sync flag differs from its default |
| Form.CollectNext | modules/config_interface.py:965-983 | one more schema item is skipped, fails the section, or adds its value |
| Form.CollectFailsAt | modules/config_interface.py:974-983 | one unreadable included item fails the whole section |
| Form.CollectMeaning | modules/config_interface.py:964-983 | collection fails exactly when some item fails; otherwise a key is present exactly when one of its items is not skipped |
| Form.SectionValuesMeaning | modules/config_interface.py:964-983 | a section fails exactly when an included entry is no number; otherwise it holds exactly the included keys |
| Form.CurrentSectionsStep | modules/config_interface.py:962-985 | what one more schema section adds to the sections built so far |
| Form.CurrentSectionsShape | modules/config_interface.py:962-985 | no section of the result is empty, and none is Aiming |
| Form.CurrentSectionsFails | modules/config_interface.py:962-983 | the build fails exactly when some non-Aiming section has an included entry that is no number |
| Form.CurrentSectionsNext | modules/config_interface.py:962-985 | one more schema section: Aiming is skipped, otherwise the section's values decide |
| Form.SectionFailsAt | modules/config_interface.py:974-983 | one failing section fails the whole config |
| Form.SectionFailsAfter | modules/config_interface.py:979-983 | a build that fails at one section returns None as a whole |
| Form.CurrentSectionsFailStep | modules/config_interface.py:962-983 | the config fails exactly when the earlier sections fail or the last one does |
| Form.CurrentConfigShape | modules/config_interface.py:960-990 | Aiming is present exactly when sync is on, and then only as `SyncTurnRate = True`; no other section is empty |
| Form.CurrentConfig | modules/config_interface.py:960-990 | `get_current_config` on the form; `CurrentConfigShape` and `CurrentSectionsFails` state its result |
| Interface.ApplySchemaNumericMaxes | modules/config.py:139-146 | loading a schema file keeps every stored maximum a number |
| Interface.ReportEntries | modules/config_interface.py:887-911 | the loop of `has_invalid_entries` collects, in entry order, every message the report gives |
| Interface.ResetValues | modules/config_interface.py:932-940 | the first two loops of `update_entries` set each field to its reset value, in place and in order |
| Interface.ConfigInterface.constructor | modules/config_interface.py:10-32 | the window's form is taken as built; a recorded directory that still exists becomes the game directory and the mod flag is checked |
| Interface.ConfigInterface.HasInvalidEntries | modules/config_interface.py:886-911 | the messages are `InvalidMessages` of the entries, and the flag is true exactly when there is one |
| Interface.ConfigInterface.ValidateEntry | modules/config_interface.py:840-884 | the result is true exactly when the entry is valid |
| Interface.ConfigInterface.EntriesChanged | modules/config_interface.py:914-918 | true exactly when some entry's stripped text differs from `str()` of its default |
| Interface.ConfigInterface.ChecksChanged | modules/config_interface.py:920-924 | true exactly when some checkbox differs from its default |
| Interface.ConfigInterface.HasChanges | modules/config_interface.py:913-929 | the result is `Changed` of the form |
| Interface.ConfigInterface.CategoryEntriesChanged | modules/config_interface.py:136-161 | true exactly when some entry shown on the tab differs from its default |
| Interface.ConfigInterface.SectionChecksChanged | modules/config_interface.py:145-169 | true exactly when some checkbox of the section differs from its default |
| Interface.ConfigInterface.HasCategoryChanges | modules/config_interface.py:117-171 | the result is `CategoryChanged` of the form for that tab |
| Interface.ConfigInterface.AimingRateChanged | modules/config_interface.py:127-133 | true exactly when the rate is on the form and differs from its default |
| Interface.ConfigInterface.UpdateTabColors | modules/config_interface.py:173-192 | every tab is relabelled by `TabLabel` according to its own category's changes |
| Interface.ConfigInterface.ResetToDefault | modules/config_interface.py:194-217 | the new form is `ResetField` of the old one; nothing else changes |
| Interface.ConfigInterface.SyncSensitivityRates | modules/config_interface.py:783-799 | the new form is `SyncRates` of the old one |
| Interface.ConfigInterface.ValidateAimingEntry | modules/config_interface.py:801-838 | the new form is `AimingEdit` of the old one |
| Interface.ConfigInterface.ApplyLoadedValue | modules/config_interface.py:944-954 | the new form is `ApplyValue` of the old one |
| Interface.ConfigInterface.ApplyLoadedSection | modules/config_interface.py:943-954 | the new form is `ApplySection` of the old one |
| Interface.ConfigInterface.ResetFields | modules/config_interface.py:932-940 | every entry holds `str()` of its default and every checkbox its default; sync is unchanged |
| Interface.ConfigInterface.UpdateEntries | modules/config_interface.py:931-958 | the new form is `UpdateEntries` of the old one |
| Interface.ConfigInterface.ReadSectionValues | modules/config_interface.py:964-983 | one section's values as `SectionValues` defines them, stopping at the first entry that is no number |
| Interface.ConfigInterface.GetCurrentConfig | modules/config_interface.py:960-990 | the result is `CurrentConfig` of the form |
| Interface.ConfigInterface.CollectSection | modules/config_interface.py:963-985 | one pass of the section loop extends the sections built so far as `CurrentSections` defines it |
| Interface.ConfigInterface.CheckModExists | modules/config_interface.py:314-323 | the mod flag is true exactly when the game folder exists and either pak name is in its mods folder |
| Interface.ConfigInterface.ValidateGameDirectory | modules/config_interface.py:329-350 | success exactly when the search finds a directory; it is then taken and recorded and the mod flag rechecked; on failure nothing changes |
| Interface.ModsAnswer | modules/config_interface.py:428-443 | without a game directory, the working directory exactly when the user agrees to build locally; with one, the `~mods` folder of a game directory the search finds from it (the directory, an ancestor, or a walked folder), and a refusal exactly when it finds none |
| Interface.ConfigInterface.ValidateModsDirectory | modules/config_interface.py:428-443 | the answer is `ModsAnswer`; for the game's `~mods` the game directory has been corrected and recorded, the mod flag rechecked and `~mods` created when missing; otherwise nothing changes |
| Interface.ConfigInterface.RemoveMod | modules/config_interface.py:445-470 | without a usable directory nothing happens; otherwise both pak names are deleted, success means a pak was deleted and none failed, and after success no pak is left |
| GameDir.Parent | modules/config_interface.py:53 | the parent is a prefix of the path |
| GameDir.FirstGameDir | modules/config_interface.py:68-78 | the walk answers only a visited folder that is a game directory, and answers nothing exactly when no visited folder is one |
| GameDir.ClimbAfter | modules/config_interface.py:59-65 | the `~mods` climb answers only a game directory that is an ancestor of the selection |
| GameDir.ClimbParents | modules/config_interface.py:80-88 | the parent climb answers only a game directory that is an ancestor of the selection |
| GameDir.ClimbFrom | modules/config_interface.py:102-109 | one pattern's climb answers only a game directory on the selection's own path |
| GameDir.PatternSearch | modules/config_interface.py:90-109 | the pattern stage answers only a game directory on the selection's own path |
| GameDir.GameDirSearch | modules/config_interface.py:34-111 | no answer for an empty or missing selection; the selection itself when it is a game directory; otherwise only a game directory on the selection's path or among the walked folders |
| GameDir.ClimbFromAfterParents | modules/config_interface.py:80-109 | every folder a pattern climb checks above the selection was already checked by the parent climb |
| GameDir.PatternSearchFindsNothing | modules/config_interface.py:80-111 | once the selection and its parent climb have failed, the pattern stage finds nothing either |
| GameDir.GameDirSearchWithoutPatterns | modules/config_interface.py:34-111 | the search answers the same with its pattern stage removed |
| GameDir.ClimbAfterLoop | modules/config_interface.py:59-65 | the loop answers what `ClimbAfter` defines |
| GameDir.ClimbParentsLoop | modules/config_interface.py:80-88 | the loop answers what `ClimbParents` defines |
| GameDir.ClimbFromLoop | modules/config_interface.py:102-109 | the loop answers what `ClimbFrom` defines |
| GameDir.FindGameDirectory | modules/config_interface.py:34-111 | the staged search with early returns answers what `GameDirSearch` defines |
| GameDir.RemoveModFilesMeaning | modules/config_interface.py:445-470 | removal deletes no directory and no file but the two paks; when no delete failed neither pak is left, and something was removed exactly when a pak was there |
| GameDir.MakeModsFolder | modules/config_interface.py:438-441 | afterwards `~mods` exists, no file changes and no directory goes; an existing `~mods` leaves everything as it was |
| GameDir.MakeModsFolderCreates | modules/config_interface.py:438-441 | every directory created lies on the way from `Stalker2` down to `~mods` |
| InputIni.SmoothingStateMeaning | modules/config_interface.py:472-497 | the first readable candidate with the InputSettings header decides (smoothing is on unless both `=False` settings occur in it); with no such file smoothing counts as on |
| InputIni.MouseSmoothingState | modules/config_interface.py:472-497 | the loop over the candidates answers what `SmoothingState` defines |
| InputIni.RunAppend | modules/config_interface.py:533-543 | the first pass over two pieces of a file is the pass over the second piece continuing from the first |
| InputIni.RunWithoutHeader | modules/config_interface.py:533-543 | lines with no header among them leave the first pass where it started |
| InputIni.PreambleDropped | modules/config_interface.py:533-543 | lines before the first header do not reach the sections |
| InputIni.RunInv | modules/config_interface.py:533-543 | every kept line is a non-blank, non-header line of the file, and none kept under InputSettings names a mouse setting |
| InputIni.OrganizeLines | modules/config_interface.py:533-543 | a line kept under a section comes from the file, is neither blank nor a header, and under InputSettings names no mouse setting |
| InputIni.OrganizeKeys | modules/config_interface.py:533-543 | the sections come out once each, in the order their headers first appear in the file |
| InputIni.FirstSeenSnoc | modules/config_interface.py:535-537 | a new name goes at the end of the first-seen order; a repeated one leaves it as it was |
| InputIni.StepKeys | modules/config_interface.py:534-543 | a header adds its section at the end unless it is already there; no other line adds one |
| InputIni.StepLine | modules/config_interface.py:534-543 | the body of the first pass handles one line as `Step` defines it |
| InputIni.OrganizeSections | modules/config_interface.py:528-543 | the first pass over the file computes `Organize` of its lines |
| InputIni.AddOthers | modules/config_interface.py:563-569 | appending the other sections only extends what was written before |
| InputIni.DropTrailing | modules/config_interface.py:571-573 | popping keeps a prefix whose last line is not blank, and everything popped was blank |
| InputIni.StartContent | modules/config_interface.py:545-561 | the InputSettings block and, when disabling, the two `=False` settings, as `Head` and `MouseLines` define them |
| InputIni.AppendOthers | modules/config_interface.py:563-569 | the loop over the other sections computes `AddOthers` |
| InputIni.PopBlankLines | modules/config_interface.py:571-573 | the loop pops exactly the trailing blank lines |
| InputIni.ToggleRewrite | modules/config_interface.py:528-573 | the new file is `Rewrite` of the old lines for the new state |
| InputIni.Rewrite | modules/config_interface.py:528-573 | the new `Input.ini`; `DisableReadsBack` and `EnableHeadClean` state what it reads back as |
| InputIni.DropKeepsPrefix | modules/config_interface.py:571-573 | popping blank lines never reaches into a prefix ending in a non-blank line |
| InputIni.DisableReadsBack | modules/config_interface.py:545-561 | the file written when disabling reads back as smoothing off by the rule of `get_mouse_smoothing_state` |
| InputIni.EnableHeadClean | modules/config_interface.py:539-551 | when enabling, the InputSettings block names no mouse setting |
| InputIni.EnableClearsInputSettings | modules/config_interface.py:545-573 | after enabling, a line naming a mouse setting can only be a header or kept line of another section |
| InputIni.FirstExisting | modules/config_interface.py:518-523 | the index of the first candidate that exists, with every candidate before it missing; none exactly when all are missing |
| InputIni.ToggleMouseSmoothing | modules/config_interface.py:503-593 | the loop rewrites the first existing candidate for the flipped state, or falls back to the default file when none exists or it cannot be opened, as `ToggleFiles` defines |
| InputIni.ToggleOffReadsBack | modules/config_interface.py:472-593 | when smoothing was on and a file was rewritten, the next read of the state finds it off |
| InputIni.RewrittenDecides | modules/config_interface.py:483-494 | a rewritten file that has the header, behind only missing files, decides the state |
| ModBuild.ItemLines | modules/mod.py:187-188 | one line per setting |
| ModBuild.RenderItem | modules/mod.py:188 | the f-string line of one setting is `ItemLine` |
| ModBuild.AppendItemLines | modules/mod.py:187-188 | the loop appends the settings' lines, one per setting, in the section's order |
| ModBuild.RenderHoist | modules/mod.py:174 | the f-string safe-zone line is `HoistLine` |
| ModBuild.AppendOpening | modules/mod.py:170-174 | the text starts with the header and then the hoisted safe-zone line, if any |
| ModBuild.AppendBlock | modules/mod.py:177-189 | one section's block is appended from a copy of its settings, as `Block` defines it |
| ModBuild.GenerateCfgContent | modules/mod.py:169-194 | the text built is `CfgText` of the config |
| ModBuild.CfgText | modules/mod.py:169-194 | the text `_generate_cfg_content` builds; its shape is stated by `CfgStartsWithHeader`, `CfgEndsWithTrailer`, `HoistedOnce` and the block lemmas |
| ModBuild.AppendTrailer | modules/mod.py:191-193 | the closing line and the two comment lines are appended |
| ModBuild.ItemLinesAt | modules/mod.py:187-188 | the i-th line of a block is the i-th setting's line |
| ModBuild.BlocksIndented | modules/mod.py:185-189 | every line of every section block is indented |
| ModBuild.CfgStartsWithHeader | modules/mod.py:170 | the text opens with the `PlayerCustom` header line |
| ModBuild.HoistedOnce | modules/mod.py:172-182 | the safe-zone setting is hoisted exactly when the stamina section has it, right after the header, and it is the only piece starting with its name |
| ModBuild.StaminaBlock | modules/mod.py:178-185 | the stamina block holds exactly the section's other settings, and a section holding only the safe-zone setting gets no block |
| ModBuild.OtherSectionBlock | modules/mod.py:184-189 | any other section gets no block when empty and otherwise its opening, its lines and its closing |
| ModBuild.BlocksAppend | modules/mod.py:176-189 | one block per section, in the order of the sections |
| ModBuild.CfgEndsWithTrailer | modules/mod.py:191-194 | the text closes with `struct.end`, a blank line and the two comment lines |
| ModBuild.PakFilesMembers | modules/mod.py:63-70 | a walked path is found exactly when its name ends in `.pak` |
| ModBuild.FindPakFiles | modules/mod.py:63-70 | the loop finds `PakFiles` of the walk, in walk order |
| ModBuild.IncompatibleModsMeaning | modules/mod.py:72-91 | a name is reported exactly when the mods folder exists and a walked `.pak` file of that name holds one of the keywords |
| ModBuild.NamesMeaning | modules/mod.py:81-84 | a name is listed exactly when some pak has that name and it holds a keyword |
| ModBuild.CheckIncompatibleMods | modules/mod.py:72-91 | the loop lists `IncompatibleMods` |
| ModBuild.FindRepak | modules/mod.py:150-167 | the first of the three candidates that exists; none exactly when none exists |
| ModBuild.PackerFailureStrandsCwd | modules/mod.py:225-254 | a failing packer leaves the process in the build directory |
| ModBuild.RunRepakAsWritten | modules/mod.py:225-254 | the packer run as written: success exactly when the packer succeeds, and the working directory is restored only then; a failure leaves it in the build directory and changes no file |
| ModBuild.RunRepak | modules/mod.py:196-266 | the working directory is restored on every path, the run succeeds exactly when the packer does, no directory changes, and on success it agrees with the code as written |
| ModBuild.FirstMissing | modules/mod.py:119-122 | the first required key the settings lack; none exactly when all are there |
| ModBuild.FindMissingKey | modules/mod.py:119-122 | the loop finds `FirstMissing` of the required keys |
| ModBuild.RemoveTree | modules/mod.py:142-148 | nothing is left at or below the build directory |
| ModBuild.RemoveTreeUndoes | modules/mod.py:116-148 | removing the build tree undoes everything created below it |
| ModBuild.FreshKept | modules/mod.py:110-148 | deleting files, or adding one outside the build directory, leaves nothing below it |
| ModBuild.PackInTemp | modules/mod.py:127-148 | success exactly when the packer succeeds; of the build only the moved pak stays; the working directory is the one from before, because the packer run used is the corrected `RunRepak` (see Findings) |
| ModBuild.BuildInTemp | modules/mod.py:116-148 | a missing required key or a failed packer is the error; the config loses its Aiming section and its text is written unless a key was missing; only the moved pak stays; built on the corrected `RunRepak` |
| ModBuild.CreateMod | modules/mod.py:93-148 | warns about incompatible mods; without a packer, or when the old pak cannot be removed, nothing changes and that is the error; otherwise the old pak goes and the build goes as `BuildInTemp` says, with the corrected `RunRepak` |
| ModBuild.CreateModCleansUp | modules/mod.py:140-148 | whatever the outcome, nothing is left of the build directory and the directories are those from before |
| Localization.FormatBraceless | modules/localization/language_manager.py:270 | a text without braces formats to itself |
| Localization.FormatAfterBraceless | modules/localization/language_manager.py:270 | a braceless prefix is copied and the rest formatted after it |
| Localization.FormatField | modules/localization/language_manager.py:270 | a keyword field is replaced by its argument, or formatting fails naming the missing field |
| Localization.FormatMissing | modules/localization/language_manager.py:270 | a field reported missing really is absent from the arguments |
| Localization.FormatSameLookups | modules/localization/language_manager.py:270 | formatting depends on the arguments only through their lookups |
| Localization.Format | modules/localization/language_manager.py:270 | `str.format` with keyword arguments: a missing-field error names a field the arguments lack, and text without braces always formats |
| Localization.Formatted | modules/localization/language_manager.py:266-270 | a formatting getter never fails for `data_folder`, which it always supplies, and any field it reports missing is one the caller did not pass |
| Localization.T | modules/localization/language_manager.py:369-378 | only a label can fail to format, and a key no table knows is answered with itself |
| Localization.DataFolderName | modules/localization/language_manager.py:15-21 | the configured data folder name, or `data` when it cannot be imported |
| Localization.Lookup | modules/localization/language_manager.py:258-282 | `table.get(key, key)`: the stored text, or the key itself when the table lacks it |
| Localization.FormattedDataFolder | modules/localization/language_manager.py:266-318 | `data_folder` is always available to a formatted text, and a caller's own `data_folder` is overridden |
| Localization.FormattedUnknownKey | modules/localization/language_manager.py:266-318 | an unknown braceless key comes back unchanged from a formatting getter |
| Localization.Getter | modules/localization/language_manager.py:258-318 | a plain getter answers the table's text or the key, and fails only when given keyword arguments |
| Localization.FontOf | modules/localization/language_manager.py:320-324 | the named font, or ('Arial', 9) when the language has no font table or no such entry |
| Localization.AppTitle | modules/localization/language_manager.py:250-252 | the same English title whatever the language, ending in the version |
| Localization.Info | modules/localization/language_manager.py:256 | an `APP_INFO` entry, a KeyError naming the key when absent |
| Localization.CreditsText | modules/localization/language_manager.py:254-256 | a missing author, then a missing credits entry, is the error |
| Localization.VersionLine | modules/localization/language_manager.py:256 | a braceless lead followed by `{version}` formats to the lead and the version |
| Localization.CreditsShowVersion | modules/localization/language_manager.py:254-256 | author, credits and the formatted version line joined by " a pipe " separators |
| Localization.CategoryOf | modules/localization/language_manager.py:348-361 | only the twelve names of the method map name a category |
| Localization.GetText | modules/localization/language_manager.py:336-366 | an unknown category gives the key; a known one answers what its getter answers |
| Localization.TAgreesWithGetText | modules/localization/language_manager.py:369-378 | `t` answers what `get_text` answers for the first of buttons, labels and titles that holds the key, and the key when none does |
| Localization.DisplayName | modules/localization/language_manager.py:60-63 | a module without its own name entry is shown as the capitalized code |
| Localization.DiscoveredKeeps | modules/localization/language_manager.py:48-69 | discovery never drops a language it already has |
| Localization.DiscoveredFrom | modules/localization/language_manager.py:48-69 | every language discovery adds comes from a listed language file whose module loads |
| Localization.DiscoveredHasEnglish | modules/localization/language_manager.py:50 | English is always offered |
| Localization.Discovered | modules/localization/language_manager.py:55-65 | the discovery loop; what it keeps and adds is stated by `DiscoveredKeeps` and `DiscoveredFrom` |
| Localization.DiscoveredLanguages | modules/localization/language_manager.py:48-69 | `discover_languages`; that it offers English is `DiscoveredHasEnglish` |
| Localization.DiscoverLanguages | modules/localization/language_manager.py:48-69 | the loop answers `DiscoveredLanguages`, which offers English |
| Localization.SavedLanguage | modules/localization/language_manager.py:37-46 | `en` when the file is missing, unreadable or has no language |
| Localization.LanguageSaved | modules/localization/language_manager.py:71-84 | an unreadable or unwritable file is left as it was; otherwise the saved language reads back |
| Localization.LanguageSavedKeepsOthers | modules/localization/language_manager.py:71-84 | saving the language leaves every other preference as it was |
| Localization.Loading | modules/localization/language_manager.py:86-101 | English for `en` and for a code without a module; nothing exactly when the import raises otherwise |
| Localization.LanguageManager.constructor | modules/localization/language_manager.py:28-35 | the saved language, the discovered languages, and the tables `Loading` gives for the saved language; `startRaised` holds exactly when the saved language is not `en` and its module raises on import, the case in which `__init__` raises and no window opens |
| Localization.LanguageManager.CurrentTables | modules/localization/language_manager.py:326-333 | English when nothing was loaded |
| Localization.LanguageManager.LoadLanguage | modules/localization/language_manager.py:86-101 | the code is recorded; the tables change as `Loading` says, and a raising import leaves them as they were |
| Localization.LanguageManager.ChangeLanguage | modules/localization/language_manager.py:107-113 | only an available code is accepted, then saved and loaded; any other code changes nothing |
| Editor.SaveRefusal | modules/gui.py:379-390 | invalid entries are refused first with their messages, then no changes; saving goes on exactly when there are no invalid entries and something changed, whatever the force-defaults switch |
| Editor.BuildRefusal | modules/gui.py:436-461 | invalid entries first, then no changes unless defaults are forced; the build goes on exactly when the entries are valid, something changed or defaults are forced, a target was given, forcing was confirmed and the config is not empty |
| Editor.ParseNumberStrip | modules/config_interface.py:842-857 | the dot-rule reading ignores surrounding white space |
| Editor.UnreadableReported | modules/config_interface.py:886-911 | an entry with a numeric default that cannot be read as a number is reported |
| Editor.ValidatedFormBuilds | modules/gui.py:436-459 | when every entry has a numeric default and no entry is reported invalid, `get_current_config` gives a config |
| Editor.PresetNamesMeaning | modules/gui.py:298 | the listed names are exactly the `.ini` file names with every `.ini` removed |
| Editor.PresetNames | modules/gui.py:298 | the names `load_presets` lists; `PresetNamesMeaning` states which |
| Editor.RestoredForm | modules/gui.py:405-419 | `restore_last_settings` on the form; `RestoreAfterBuild` and `RestoreAfterClear` state it |
| Editor.LoadSavedPresetFile | modules/gui.py:323-330 | a preset saved by `new_preset` or `save_preset` and then loaded by name gives back its sections that have values |
| Editor.AfterPresetSaveReads | modules/gui.py:364-369 | after a preset save the stored preset is its name, there are no last settings, and every other preference is kept |
| Editor.RestoreAfterBuild | modules/gui.py:405-419 | settings stored by a successful build come back on the next start: the form is updated from the stored config and both switches are as they were |
| Editor.RestoreAfterClear | modules/gui.py:405-419 | cleared last settings restore nothing |
| Editor.ApplyConfigKeys | modules/config_interface.py:942-954 | applying a config keeps the set of fields |
| Editor.UpdateKeepsCovers | modules/config_interface.py:931-958 | `update_entries` keeps every field, so the form still covers the schema |
| Editor.MovementConfigEditor.constructor | modules/gui.py:58-207 | no preset chosen and defaults not forced; a game directory the search finds is taken and recorded, otherwise directory and record are kept; the mod flag is read for the resulting directory; then the preset list read and the last settings restored |
| Editor.MovementConfigEditor.EditGameDir | modules/gui.py:178-207 | typing a directory takes the one the search finds and records it, or keeps the typed text and the old record when it finds none; the mod flag is read for the resulting directory; the form is unchanged |
| Editor.MovementConfigEditor.SelectPreset | modules/gui.py:523-532 | the chosen name becomes the preset choice and, when not empty, is remembered as the last preset; nothing else changes |
| Editor.MovementConfigEditor.CurrentConfig | modules/config_interface.py:960-990 | the window's view of `get_current_config`, the config the build and save checks read |
| Editor.MovementConfigEditor.LoadPresets | modules/gui.py:295-304 | without the folder nothing changes; otherwise the names are listed and the last preset is chosen only when it is listed |
| Editor.MovementConfigEditor.RestoreLastSettings | modules/gui.py:405-419 | non-empty last settings update the form from their config, then set sync and the force switch when stored; nothing else changes |
| Editor.MovementConfigEditor.LoadDefault | modules/gui.py:306-311 | sync and force off, every field from the schema, the last settings cleared; the preset choice and the game directory and its record are kept |
| Editor.MovementConfigEditor.LoadBundled | modules/gui.py:313-321 | the bundled preset is applied to the form and the last settings cleared; the game directory and its record are kept |
| Editor.MovementConfigEditor.LoadCustomPreset | modules/gui.py:323-330 | with no preset chosen nothing changes; otherwise the preset file is applied and remembered as the last preset; the game directory and its record are kept |
| Editor.MovementConfigEditor.WritePreset | modules/gui.py:361-364 | the file is written exactly when the folder exists or may be created, holding the config's saved document |
| Editor.MovementConfigEditor.SaveCheck | modules/gui.py:339-350 | the refusal is `SaveRefusal` of the form's messages and changes |
| Editor.MovementConfigEditor.StoreNewPreset | modules/gui.py:361-369 | the file written, the list refreshed, the preset chosen and remembered, the last settings cleared |
| Editor.MovementConfigEditor.NewPreset | modules/gui.py:338-372 | the save checks, then an empty name changes nothing; a config of None makes the write raise after the Presets folder was created, so only the folder appears; a saved preset is written, listed, chosen and remembered, and the last settings are cleared |
| Editor.MovementConfigEditor.OverwritePreset | modules/gui.py:374-403 | the save checks, then an unconfirmed overwrite changes nothing; a saved preset is rewritten and remembered and the last settings are cleared |
| Editor.MovementConfigEditor.SavePreset | modules/gui.py:374-403 | without a chosen preset it is `new_preset`, otherwise the chosen preset is overwritten; anything but a save changes nothing, except that a crashing `new_preset` leaves the Presets folder created |
| Editor.MovementConfigEditor.RecordBuild | modules/gui.py:467-480 | the full config with both switches is stored when there is one, and the mod flag is read again |
| Editor.MovementConfigEditor.RunBuild | modules/gui.py:463-494 | the mod is built from the config into the target; a failed build reports its error and stores nothing; a successful one stores the last settings and reports whether the mod was updated or created; the working directory is restored because the build uses the corrected `RunRepak` |
| Editor.MovementConfigEditor.CreateMod | modules/gui.py:435-494 | invalid entries or no changes stop it before anything happens; otherwise `validate_mods_directory` runs, so the game directory may be corrected and recorded and `~mods` created even when a later check refuses; a refused build stores nothing; otherwise the mod is built from the form's config without its Aiming section into the answered folder |
| Editor.MovementConfigEditor.ValidateAndBuild | modules/gui.py:449-494 | the folder answer is `ModsAnswer` of the game directory; a game-folder answer corrects and records the directory and creates `~mods`; then the build goes as `BuildInto` says on the prepared file system |
| Editor.MovementConfigEditor.BuildInto | modules/gui.py:450-494 | no folder answer or an unconfirmed force cancels, an empty config builds nothing, all without changes; otherwise the mod is built into the answered folder and its outcome reported |
| Editor.MovementConfigEditor.RemoveMod | modules/gui.py:421-433 | without confirmation nothing changes; without a directory the search finds nothing else changes either; otherwise the directory is corrected and recorded, the file system is `RemoveModFiles` of it, success means a pak went and no delete failed, and a success clears the last settings and leaves no pak installed; the presets are kept |
| Editor.MovementConfigEditor.OnClosing | modules/gui.py:102-113 | a chosen preset is remembered; with none the preferences are unchanged |

## Behaviour worth knowing

- Reloading the schema resets the defaults, maximums and descriptions only for the sections the new file has. A section missing from the new file keeps its old contents (`modules/config.py:116-119`, `ConfigHandling.ApplySchemaKeeps`).
- Preset files do not round-trip every string. A string value that reads as a number comes back as that number, for example "7" comes back as the int 7 (`Values.StrOfDigitsBecomesInt`). The round trip is proved for configs of bools and numbers (`ConfigHandling.LoadSavedPreset`); configs that hold strings are outside that lemma.
- `load_default` sets sync off and then applies the schema. The schema's own `Aiming` `SyncTurnRate` then sets sync again, so sync ends at the schema default, not off (`Editor.MovementConfigEditor.LoadDefault`).
- A language module that raises anything other than ImportError ends language discovery. The languages found up to that point are kept (`Localization.Discovered`).

## Left out

- Widgets, message boxes, dialogs, the progress window, colours as styles and fonts. Each action ends in an `Outcome` value instead of a message box, and a dialog's answer is an input.
- `update_default_button_state` and `update_label_color` are views of the form. They are the predicate `Form.AtDefault` and the function `Form.LabelColor`, not methods of `ConfigInterface`.
- `get_mouse_smoothing_button_text`, `refresh_ui`, `show_language_selection`, `open_presets_folder` and `run` only redraw widgets, open a window or start the event loop.
- `update_mod_buttons` rereads the mod flag and validates a set game directory, which may correct and record it (`modules/gui.py:187-207`). It runs when the window is built (`Editor.MovementConfigEditor.constructor`) and from the `game_dir` trace when the directory entry is typed into (`Editor.MovementConfigEditor.EditGameDir`). Its other calls, after a removal, after a build, after `browse_directory` and from the trace that a validation's own write fires, follow a validation that has just taken a game folder; validating a game folder again gives that folder (`GameDir.GameDirSearch`), so those calls only redraw the buttons.
- `browse_directory` validates the folder the dialog returns; the folder is an input, and the rest is `Interface.ConfigInterface.ValidateGameDirectory`.
- `create_default_input_ini` (`modules/config_interface.py:595-644`) writes a copy of `Input.ini` into the program's own folder. The game does not read that copy. The toggle only reports, as `createDefault`, that this fallback runs.
- `validate_mods_directory` asks the build-locally question only when no game directory is set; that answer is the input `buildLocally`. The rest of it is modelled (`Interface.ConfigInterface.ValidateModsDirectory`).
- Interface.ConfigInterface.ValidateModsDirectory: a file named `Content` or `Paks` in the way makes `os.makedirs` raise in the code; the model creates the directories regardless.
- Editor.MovementConfigEditor.ValidateAndBuild: its build runs the corrected `ModBuild.RunRepak`, so it promises the working directory is restored even when the packer fails; as written the process stays in the build directory then.
- Editor.MovementConfigEditor.BuildInto: its build runs the corrected `ModBuild.RunRepak`, so it promises the working directory is restored even when the packer fails; as written the process stays in the build directory then.
- ModBuild.PackInTemp, ModBuild.BuildInTemp, ModBuild.CreateMod, Editor.MovementConfigEditor.RunBuild, Editor.MovementConfigEditor.CreateMod, Editor.MovementConfigEditor.ValidateAndBuild, Editor.MovementConfigEditor.BuildInto: these build on the corrected `ModBuild.RunRepak`, so they promise the working directory is restored even when the packer fails. As written, the process stays in the deleted build directory then; `ModBuild.RunRepakAsWritten` states that this is the only difference.
- Editor.MovementConfigEditor.CreateMod: the build directory `mkdtemp` makes is taken to be fresh and outside the game's folders (no `Stalker2` component).
- Text.Strip, Text.Lower: whitespace and case are ASCII only. Python's `str.strip()`, `int()` and `float()` also strip other Unicode white space (`\x1c`-`\x1f`, `\x85`, `\xa0`, `\u2000`-`\u200a`, `\u3000`), and `str.lower()` folds non-ASCII letters. An entry such as "5" followed by a no-break space is a number for the code, but `Form.EntryValidity` reports it as not a number.
- ConfigHandling.SchemaLanguage: a stored language that is not text falls back to the base schema file. The code builds a name such as `default_values_5.ini` from a number and would read it if such a file existed; a list or dict raises and falls back as modelled.
- Prefs: a preferences file whose JSON top level is not an object is not modelled. The getters of `modules/config.py` crash on `.get` there.
- `modules/updater.py` calls the network. It is not part of this model.
- The language modules' string tables are opaque inputs of type `Localization.Tables`.
- Directory listings and walks are inputs: the `os.walk` folders of the game-directory search, the walk of the mods folder, the Presets folder and the localization folder.
- The `Input.ini` candidates under `LOCALAPPDATA` are an input sequence of files.
- `_load_mod_config` reads JSON or SQLite. The mod settings it gives are an input.
- The packer is a `ModBuild.Pack` value: it fails, or it succeeds with or without writing the pak.
- `DATA_FOLDER_NAME` is imported from `modules/config.py`, which does not define it. It is a parameter.
- configparser and JSON are read as already split key/value sequences. Interpolation and continuation lines are not modelled. Keys keep their case, as the code sets `optionxform = str`.
- File writes other than the modelled preferences write are assumed to succeed. The preferences file can be marked unwritable.
- Python's `hasattr` checks on a language module are modelled only for the font table. The other tables always exist in `Localization.Tables`.
- Numbers.RenderFloat: floats are exact decimals. `str()` of a float is modelled in positional notation, with no exponent form and no binary rounding.
- Numbers.ParseInt and Numbers.ParseFloat accept ASCII digits, one optional sign and at most one decimal point. Exponents, underscores, `inf` and `nan` are not modelled.
- Localization.Format: `str.format` conversions (`!r`), format specs (`:>5`), attribute and index fields are reported as `Unsupported` rather than formatted. Positional fields are an error, as they are in Python for these calls.
- Localization.SavedLanguage: a stored language that is not text counts as `en`. The code would return that value as it is.
- GameDir.FirstGameDir: the depth limit of the walk is not modelled. The walked folders are the input, in walk order.

## Findings

| source | as written | input that shows it | evidently intended | confidence | as-written member | corrected member |
|---|---|---|---|---|---|---|
| modules/mod.py:225-254 | `os.chdir(original_cwd)` is skipped when the packer fails, because it is not in the `finally` block | a packer that exits with a non-zero status: the process stays in the build directory, which `create_mod` then deletes | the working directory is restored on every path, as the comment at line 253 says | not executed | ModBuild.RunRepakAsWritten, ModBuild.PackerFailureStrandsCwd | ModBuild.RunRepak |
