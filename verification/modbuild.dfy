/**
 * Building the mod (`modules/mod.py`): the game config text generated from
 * the settings, the scan of the mods folder for paks known to clash with
 * this mod, the lookup of the packer, and the order of the build steps with
 * the cleanup of the temporary build tree.
 */
module ModBuild {
  import opened Wrappers
  import opened Text
  import opened Dicts
  import opened Values
  import opened GameDir

  // ---------------------------------------------------------------------
  // The generated config text, as the pieces `content` is built from

  const PlayerStruct := "PlayerCustom"
  const CommentMark := "//"
  const Header := PlayerStruct + " : struct.begin {refurl=../../ObjPrototypes.cfg; refkey=Player}\n"
  const StaminaSection := "StaminaPerAction"
  const SafeZoneKey := "SpendStaminaInSafeZone"
  const BlockClose := "   struct.end\n"
  const Closing := "struct.end\n\n"
  const Credit := CommentMark + " Generated by SCAM (Stalker Character Adjustment Manager) by v3fish\n"
  const Notice := CommentMark + " Personal use only - redistribution requires author permission\n"

  /** What follows the last section block. */
  const Trailer: seq<string> := [Closing, Credit, Notice]

  function HoistLine(v: Value): string {
    SafeZoneKey + " = " + Str(v) + "\n"
  }

  function BlockOpen(section: string): string {
    "   " + section + " : struct.begin\n"
  }

  function ItemLine(key: string, v: Value): string {
    "      " + key + " = " + Str(v) + "\n"
  }

  /** The top-level safe-zone line, present when the stamina section holds that setting. */
  function Hoisted(config: Config): seq<string> {
    match Get(config, StaminaSection)
    case None => []
    case Some(stamina) =>
      match Get(stamina, SafeZoneKey)
      case None => []
      case Some(v) => [HoistLine(v)]
  }

  /**
   * The settings a section's block lists: a copy, without the hoisted
   * setting in the stamina section (popping a key that is not there
   * changes nothing, see `RemoveAbsent`).
   */
  function BlockItems(section: string, values: Section): Section {
    if section == StaminaSection then Remove(values, SafeZoneKey) else values
  }

  /** One line per setting, in the section's order. */
  function ItemLines(items: Section): (r: seq<string>)
    ensures |r| == |items|
    decreases |items|
  {
    if items == [] then []
    else
      var last := items[|items| - 1];
      ItemLines(items[..|items| - 1]) + [ItemLine(last.0, last.1)]
  }

  /** A section's block; a section left without settings has none. */
  function Block(section: string, values: Section): seq<string> {
    var items := BlockItems(section, values);
    if items == [] then [] else [BlockOpen(section)] + ItemLines(items) + [BlockClose]
  }

  function Blocks(config: Config): seq<string>
    decreases |config|
  {
    if config == [] then []
    else
      var last := config[|config| - 1];
      Blocks(config[..|config| - 1]) + Block(last.0, last.1)
  }

  /** Every piece `_generate_cfg_content` appends, in order. */
  function CfgPieces(config: Config): seq<string> {
    [Header] + Hoisted(config) + Blocks(config) + Trailer
  }

  function CfgText(config: Config): string {
    Concat(CfgPieces(config))
  }

  /** One setting's line, as the f-string renders it. */
  method RenderItem(key: string, value: Value) returns (line: string)
    ensures line == ItemLine(key, value)
  {
    line := "      " + key + " = " + Str(value) + "\n";
  }

  lemma ItemLinesSnoc(items: Section, j: int)
    requires 0 <= j < |items|
    ensures ItemLines(items[..j + 1]) == ItemLines(items[..j]) + [ItemLine(items[j].0, items[j].1)]
  {
    assert items[..j + 1][..j] == items[..j];
  }

  /** The settings' lines are appended to `start`, one per setting. */
  method AppendItemLines(start: string, items: Section) returns (content: string)
    ensures content == start + Concat(ItemLines(items))
  {
    content := start;
    ghost var done := [start];
    ConcatSnoc([], start);
    var j := 0;
    while j < |items|
      invariant 0 <= j <= |items|
      invariant done == [start] + ItemLines(items[..j])
      invariant content == Concat(done)
    {
      var line := RenderItem(items[j].0, items[j].1);
      ItemLinesSnoc(items, j);
      ConcatSnoc(done, line);
      content := content + line;
      done := done + [line];
      j := j + 1;
    }
    assert items[..j] == items;
    ConcatAppend([start], ItemLines(items));
  }

  /** The top-level safe-zone line, as the f-string renders it. */
  method RenderHoist(value: Value) returns (line: string)
    ensures line == HoistLine(value)
  {
    line := SafeZoneKey + " = " + Str(value) + "\n";
  }

  /** The header, then the hoisted safe-zone line if there is one. */
  method AppendOpening(config: Config) returns (content: string, ghost done: seq<string>)
    ensures content == Concat(done)
    ensures done == [Header] + Hoisted(config)
  {
    content := Header;
    done := [Header];
    ConcatSnoc([], Header);
    var stamina := Get(config, StaminaSection);
    if stamina.Some? {
      var safeZone := Get(stamina.value, SafeZoneKey);
      if safeZone.Some? {
        var line := RenderHoist(safeZone.value);
        ConcatSnoc(done, line);
        content := content + line;
        done := done + [line];
      }
    }
  }

  /** One section's block, from a copy of its settings. */
  method AppendBlock(start: string, ghost before: seq<string>, section: string, values: Section)
    returns (content: string, ghost done: seq<string>)
    requires start == Concat(before)
    ensures content == Concat(done)
    ensures done == before + Block(section, values)
  {
    var sectionValues := values;
    if section == StaminaSection && Has(sectionValues, SafeZoneKey) {
      sectionValues := Remove(sectionValues, SafeZoneKey);
    } else if section == StaminaSection {
      RemoveAbsent(sectionValues, SafeZoneKey);
    }
    assert sectionValues == BlockItems(section, values);
    content, done := start, before;
    if sectionValues != [] {
      var open := "   " + section + " : struct.begin\n";
      ConcatSnoc(done, open);
      content := content + open;
      done := done + [open];
      ConcatAppend(done, ItemLines(sectionValues));
      content := AppendItemLines(content, sectionValues);
      done := done + ItemLines(sectionValues);
      ConcatSnoc(done, BlockClose);
      content := content + BlockClose;
      done := done + [BlockClose];
      SeqAssoc(before, [open] + ItemLines(sectionValues), [BlockClose]);
      SeqAssoc(before, [open], ItemLines(sectionValues));
    }
  }

  /** `_generate_cfg_content` */
  method GenerateCfgContent(config: Config) returns (content: string)
    ensures content == CfgText(config)
  {
    ghost var done;
    content, done := AppendOpening(config);
    ghost var opening := done;
    var i := 0;
    while i < |config|
      invariant 0 <= i <= |config|
      invariant content == Concat(done)
      invariant done == opening + Blocks(config[..i])
    {
      content, done := AppendBlock(content, done, config[i].0, config[i].1);
      assert config[..i + 1][..i] == config[..i];
      SeqAssoc(opening, Blocks(config[..i]), Block(config[i].0, config[i].1));
      i := i + 1;
    }
    assert config[..i] == config;
    content, done := AppendTrailer(content, done);
  }

  method AppendTrailer(start: string, ghost before: seq<string>) returns (content: string, ghost done: seq<string>)
    requires start == Concat(before)
    ensures content == Concat(done)
    ensures done == before + Trailer
  {
    content, done := start, before;
    ConcatSnoc(done, Closing);
    content := content + Closing;
    done := done + [Closing];
    ConcatSnoc(done, Credit);
    content := content + Credit;
    done := done + [Credit];
    ConcatSnoc(done, Notice);
    content := content + Notice;
    done := done + [Notice];
  }

  predicate Indented(line: string) {
    line != [] && line[0] == ' '
  }

  /** The lines of a block are its settings' lines, one per setting, in the section's order. */
  lemma {:induction false} ItemLinesAt(items: Section, i: int)
    requires 0 <= i < |items|
    ensures ItemLines(items)[i] == ItemLine(items[i].0, items[i].1)
    decreases |items|
  {
    var front := items[..|items| - 1];
    if i < |items| - 1 {
      ItemLinesAt(front, i);
    }
  }

  lemma BlockIndented(section: string, values: Section)
    ensures forall i :: 0 <= i < |Block(section, values)| ==> Indented(Block(section, values)[i])
  {
    var items := BlockItems(section, values);
    var b := Block(section, values);
    forall i | 0 <= i < |b| ensures Indented(b[i]) {
      if i == 0 {
        assert b[i] == BlockOpen(section);
      } else if i < |b| - 1 {
        ItemLinesAt(items, i - 1);
        assert b[i] == ItemLine(items[i - 1].0, items[i - 1].1);
      } else {
        assert b[i] == BlockClose;
      }
    }
  }

  lemma {:induction false} BlocksIndented(config: Config)
    ensures forall i :: 0 <= i < |Blocks(config)| ==> Indented(Blocks(config)[i])
    decreases |config|
  {
    if config != [] {
      var front, last := config[..|config| - 1], config[|config| - 1];
      BlocksIndented(front);
      BlockIndented(last.0, last.1);
      var x, y := Blocks(front), Block(last.0, last.1);
      assert Blocks(config) == x + y;
      forall i | 0 <= i < |x + y| ensures Indented((x + y)[i]) {
        if i >= |x| {
          assert (x + y)[i] == y[i - |x|];
        }
      }
    }
  }

  /** The text opens with the `PlayerCustom` header line. */
  lemma CfgStartsWithHeader(config: Config)
    ensures CfgPieces(config)[0] == Header
    ensures StartsWith(CfgText(config), Header)
  {
    var h, b := Hoisted(config), Blocks(config);
    SeqAssoc([Header] + h, b, Trailer);
    SeqAssoc([Header], h, b + Trailer);
    ConcatStartsWith(Header, h + (b + Trailer));
  }

  /**
   * The safe-zone setting of the stamina section becomes the one unindented
   * line starting with its name, right after the header and so before every
   * block; without that setting no piece starts with its name.
   */
  lemma HoistedOnce(config: Config)
    ensures Hoisted(config) != [] <==> Get(config, StaminaSection).Some? && Has(Get(config, StaminaSection).value, SafeZoneKey)
    ensures Hoisted(config) != [] ==>
      CfgPieces(config)[1] == HoistLine(Get(Get(config, StaminaSection).value, SafeZoneKey).value)
    ensures forall i :: 0 <= i < |CfgPieces(config)| && StartsWith(CfgPieces(config)[i], SafeZoneKey) ==>
      i == 1 && Hoisted(config) != []
  {
    var h, b := Hoisted(config), Blocks(config);
    var pieces := [Header] + h + b + Trailer;
    assert pieces == CfgPieces(config);
    BlocksIndented(config);
    FirstChars();
    forall i | 0 <= i < |pieces| && StartsWith(pieces[i], SafeZoneKey)
      ensures i == 1 && h != []
    {
      assert pieces[i][0] == SafeZoneKey[0];
    }
  }

  lemma FirstChars()
    ensures Header[0] == 'P' && SafeZoneKey[0] == 'S'
    ensures Closing[0] == 's' && Credit[0] == '/' && Notice[0] == '/'
  {
  }

  /**
   * The stamina block lists every setting of the section but the hoisted
   * one, in the section's order, and disappears when that was the only
   * setting; other sections keep all their settings.
   */
  lemma StaminaBlock(values: Section, p: (string, Value))
    ensures p in BlockItems(StaminaSection, values) <==> p in values && p.0 != SafeZoneKey
    ensures !Has(BlockItems(StaminaSection, values), SafeZoneKey)
    ensures (forall q :: q in values ==> q.0 == SafeZoneKey) ==> Block(StaminaSection, values) == []
  {
    var items := BlockItems(StaminaSection, values);
    RemoveMembers(values, SafeZoneKey, p);
    if Has(items, SafeZoneKey) {
      var i :| 0 <= i < |items| && items[i].0 == SafeZoneKey;
      RemoveMembers(values, SafeZoneKey, items[i]);
    }
    if items != [] && (forall q :: q in values ==> q.0 == SafeZoneKey) {
      RemoveMembers(values, SafeZoneKey, items[0]);
    }
  }

  lemma OtherSectionBlock(section: string, values: Section)
    requires section != StaminaSection
    ensures values == [] ==> Block(section, values) == []
    ensures values != [] ==> Block(section, values) == [BlockOpen(section)] + ItemLines(values) + [BlockClose]
  {
  }

  /** One block per section, in the order of the sections. */
  lemma {:induction false} BlocksAppend(a: Config, b: Config)
    ensures Blocks(a + b) == Blocks(a) + Blocks(b)
    decreases |b|
  {
    if b == [] {
      assert a + b == a;
    } else {
      var front, last := b[..|b| - 1], b[|b| - 1];
      assert (a + b)[..|a + b| - 1] == a + front;
      BlocksAppend(a, front);
      var x, y, z := Blocks(a), Blocks(front), Block(last.0, last.1);
      assert Blocks(a + b) == (x + y) + z;
      assert Blocks(b) == y + z;
      SeqAssoc(x, y, z);
    }
  }

  lemma SeqAssoc(x: seq<string>, y: seq<string>, z: seq<string>)
    ensures (x + y) + z == x + (y + z)
  {
  }

  lemma TrailerText()
    ensures Concat(Trailer) == Closing + Credit + Notice
  {
    ConcatSnoc([], Closing);
    ConcatSnoc([Closing], Credit);
    ConcatSnoc([Closing, Credit], Notice);
    assert [Closing] + [Credit] == [Closing, Credit];
    assert [Closing, Credit] + [Notice] == Trailer;
  }

  /** The text closes with `struct.end`, a blank line and the two comment lines. */
  lemma CfgEndsWithTrailer(config: Config)
    ensures EndsWith(CfgText(config), Closing + Credit + Notice)
  {
    var front := [Header] + Hoisted(config) + Blocks(config);
    assert CfgPieces(config) == front + Trailer;
    ConcatEndsWith(front, Trailer);
    TrailerText();
  }

  // ---------------------------------------------------------------------
  // Paks that clash with this mod

  /** `find_pak_files`: the walked files whose name ends in `.pak`, in walk order. */
  function PakFiles(listing: seq<Path>): seq<Path>
    decreases |listing|
  {
    if listing == [] then []
    else
      var last := listing[|listing| - 1];
      PakFiles(listing[..|listing| - 1]) + (if EndsWith(BaseName(last), ".pak") then [last] else [])
  }

  lemma {:induction false} PakFilesMembers(listing: seq<Path>, p: Path)
    ensures p in PakFiles(listing) <==> p in listing && EndsWith(BaseName(p), ".pak")
    decreases |listing|
  {
    if listing != [] {
      var front := listing[..|listing| - 1];
      PakFilesMembers(front, p);
      assert listing == front + [listing[|listing| - 1]];
    }
  }

  method FindPakFiles(listing: seq<Path>) returns (paks: seq<Path>)
    ensures paks == PakFiles(listing)
  {
    paks := [];
    var i := 0;
    while i < |listing|
      invariant 0 <= i <= |listing|
      invariant paks == PakFiles(listing[..i])
    {
      assert listing[..i + 1][..i] == listing[..i];
      if EndsWith(BaseName(listing[i]), ".pak") {
        paks := paks + [listing[i]];
      }
      i := i + 1;
    }
    assert listing[..i] == listing;
  }

  const IncompatibleKeywords: seq<string> := ["FluidMovementAim", "FMAO"]

  predicate Incompatible(name: string) {
    exists k :: k in IncompatibleKeywords && Contains(name, k)
  }

  /** The names of the given paks that hold one of the keywords, in order. */
  function IncompatibleNames(paks: seq<Path>): seq<string>
    decreases |paks|
  {
    if paks == [] then []
    else
      var name := BaseName(paks[|paks| - 1]);
      IncompatibleNames(paks[..|paks| - 1]) + (if Incompatible(name) then [name] else [])
  }

  /** What the warning lists: nothing when the mods folder is missing. */
  function IncompatibleMods(fs: FileSystem, modsPath: Path, listing: seq<Path>): seq<string> {
    if fs.Exists(modsPath) then IncompatibleNames(PakFiles(listing)) else []
  }

  /** Exactly the names of the walked `.pak` files that hold a keyword are reported. */
  lemma {:induction false} IncompatibleModsMeaning(fs: FileSystem, modsPath: Path, listing: seq<Path>, name: string)
    ensures name in IncompatibleMods(fs, modsPath, listing) <==>
      fs.Exists(modsPath) &&
      exists p :: p in listing && EndsWith(BaseName(p), ".pak") && BaseName(p) == name && Incompatible(name)
  {
    if fs.Exists(modsPath) {
      NamesMeaning(PakFiles(listing), name);
      if name in IncompatibleMods(fs, modsPath, listing) {
        var p :| p in PakFiles(listing) && BaseName(p) == name && Incompatible(name);
        PakFilesMembers(listing, p);
      }
      if exists p :: p in listing && EndsWith(BaseName(p), ".pak") && BaseName(p) == name && Incompatible(name) {
        var p :| p in listing && EndsWith(BaseName(p), ".pak") && BaseName(p) == name && Incompatible(name);
        PakFilesMembers(listing, p);
      }
    }
  }

  lemma {:induction false} NamesMeaning(paks: seq<Path>, name: string)
    ensures name in IncompatibleNames(paks) <==> exists p :: p in paks && BaseName(p) == name && Incompatible(name)
    decreases |paks|
  {
    if paks != [] {
      var front := paks[..|paks| - 1];
      NamesMeaning(front, name);
      assert paks == front + [paks[|paks| - 1]];
    }
  }

  /** `check_incompatible_mods`: the names the warning shows (none means no warning). */
  method CheckIncompatibleMods(fs: FileSystem, modsPath: Path, listing: seq<Path>) returns (found: seq<string>)
    ensures found == IncompatibleMods(fs, modsPath, listing)
  {
    if !fs.Exists(modsPath) {
      return [];
    }
    found := [];
    var paks := FindPakFiles(listing);
    var i := 0;
    while i < |paks|
      invariant 0 <= i <= |paks|
      invariant found == IncompatibleNames(paks[..i])
    {
      assert paks[..i + 1][..i] == paks[..i];
      var name := BaseName(paks[i]);
      if Contains(name, IncompatibleKeywords[0]) || Contains(name, IncompatibleKeywords[1]) {
        found := found + [name];
      }
      i := i + 1;
    }
    assert paks[..i] == paks;
  }

  // ---------------------------------------------------------------------
  // The packer

  /** Where `_find_repak` looks, in order; the data folder's name is a parameter. */
  function RepakCandidates(exeDir: Path, basePath: Path, dataFolder: string): seq<Path> {
    [exeDir + [dataFolder, "repak", "repak.exe"], basePath + ["repak", "repak.exe"], exeDir + ["repak", "repak.exe"]]
  }

  /** `_find_repak`: the first candidate that exists. */
  function FindRepak(fs: FileSystem, exeDir: Path, basePath: Path, dataFolder: string): (r: Option<Path>)
    ensures r.None? <==> forall i :: 0 <= i < 3 ==> !fs.Exists(RepakCandidates(exeDir, basePath, dataFolder)[i])
    ensures r.Some? ==>
      (exists i :: 0 <= i < 3 && r.value == RepakCandidates(exeDir, basePath, dataFolder)[i]
         && fs.Exists(r.value)
         && forall j :: 0 <= j < i ==> !fs.Exists(RepakCandidates(exeDir, basePath, dataFolder)[j]))
  {
    var candidates := RepakCandidates(exeDir, basePath, dataFolder);
    if fs.Exists(candidates[0]) then Some(candidates[0])
    else if fs.Exists(candidates[1]) then Some(candidates[1])
    else if fs.Exists(candidates[2]) then Some(candidates[2])
    else None
  }

  /** The file system and the process's working directory. */
  datatype World = World(fs: FileSystem, cwd: Path)

  /** What the packer does: it fails, or it succeeds and has or has not left the pak in the build directory. */
  datatype Pack = PackerFailed | Packed(wrotePak: bool)

  /** `shutil.move` of a pak the packer wrote into the mods folder. */
  function Moved(fs: FileSystem, modsPath: Path, pakName: string, wrotePak: bool): FileSystem {
    if wrotePak then fs.(files := fs.files + {modsPath + [pakName]}) else fs
  }

  /**
   * `_run_repak` as written: it changes into the build directory and goes
   * back only after the packer succeeded, so a failing packer leaves the
   * process in the build directory. The flag says whether it succeeded.
   */
  function RunRepakAsWritten(w: World, modsPath: Path, temp: Path, pakName: string, pack: Pack): (r: (World, bool))
    ensures r.1 <==> pack.Packed?
    ensures r.0.cwd == if pack.Packed? then w.cwd else temp
    ensures r.0.fs.dirs == w.fs.dirs
    ensures pack.PackerFailed? ==> r.0.fs == w.fs
  {
    var inTemp := w.(cwd := temp);
    match pack
    case PackerFailed => (inTemp, false)
    case Packed(wrote) => (World(Moved(inTemp.fs, modsPath, pakName, wrote), w.cwd), true)
  }

  /** A failing packer strands the process in the build directory, which the cleanup then deletes. */
  lemma PackerFailureStrandsCwd(w: World, modsPath: Path, temp: Path, pakName: string)
    requires w.cwd != temp
    ensures RunRepakAsWritten(w, modsPath, temp, pakName, PackerFailed).0.cwd == temp
    ensures RunRepakAsWritten(w, modsPath, temp, pakName, PackerFailed).0.cwd != w.cwd
  {
  }

  /** `_run_repak` with the directory restored on every path, as its own comment intends. */
  function RunRepak(w: World, modsPath: Path, temp: Path, pakName: string, pack: Pack): (r: (World, bool))
    ensures r.0.cwd == w.cwd
    ensures r.1 <==> pack.Packed?
    ensures r.0.fs.dirs == w.fs.dirs
    ensures pack.Packed? ==> r.0 == RunRepakAsWritten(w, modsPath, temp, pakName, pack).0
  {
    var r := RunRepakAsWritten(w, modsPath, temp, pakName, pack);
    (r.0.(cwd := w.cwd), r.1)
  }

  // ---------------------------------------------------------------------
  // The build

  const RequiredKeys: seq<string> := ["mod_folder_name", "cfg_folder_name", "cfg_file_name"]

  /** The first of `keys` the mod settings lack. */
  function FirstMissing(keys: seq<string>, settings: Dict<string, string>): (r: Option<string>)
    ensures r.None? <==> forall i :: 0 <= i < |keys| ==> Has(settings, keys[i])
    ensures r.Some? ==>
      (exists i :: 0 <= i < |keys| && keys[i] == r.value && !Has(settings, r.value)
         && forall j :: 0 <= j < i ==> Has(settings, keys[j]))
    decreases |keys|
  {
    if keys == [] then None
    else if !Has(settings, keys[0]) then Some(keys[0])
    else
      var r := FirstMissing(keys[1..], settings);
      if r.Some? then
        var i :| 0 <= i < |keys| - 1 && keys[1..][i] == r.value && !Has(settings, r.value)
          && forall j :: 0 <= j < i ==> Has(settings, keys[1..][j]);
        assert keys[i + 1] == r.value;
        r
      else r
  }

  method FindMissingKey(settings: Dict<string, string>) returns (missing: Option<string>)
    ensures missing == FirstMissing(RequiredKeys, settings)
  {
    var i := 0;
    while i < |RequiredKeys|
      invariant 0 <= i <= |RequiredKeys|
      invariant FirstMissing(RequiredKeys, settings) == FirstMissing(RequiredKeys[i..], settings)
    {
      if !Has(settings, RequiredKeys[i]) {
        return Some(RequiredKeys[i]);
      }
      assert RequiredKeys[i..][1..] == RequiredKeys[i + 1..];
      i := i + 1;
    }
    return None;
  }

  /** The name `_run_repak` gives the pak: the mod folder's, with the default the source falls back to. */
  function PakName(settings: Dict<string, string>): string {
    Get(settings, "mod_folder_name").GetOr("z_SCAM_P") + ".pak"
  }

  function OldPak(modsPath: Path): Path {
    modsPath + [OldModFile]
  }

  /** The old pak deleted if it is a file; a directory under its name makes `os.remove` raise. */
  function WithoutOldPak(fs: FileSystem, modsPath: Path): FileSystem {
    fs.(files := fs.files - {OldPak(modsPath)})
  }

  /** The directory the config file goes to inside the build directory. */
  function ModPath(temp: Path, modFolder: string, cfgFolder: string): Path {
    temp + [modFolder, "Stalker2", "Content", "GameLite", "GameData", "ObjPrototypes", cfgFolder]
  }

  /** Nothing exists at or below `root`. */
  ghost predicate Fresh(fs: FileSystem, root: Path) {
    forall p :: fs.Exists(p) ==> !(root <= p)
  }

  /** `shutil.rmtree(root)`: everything at or below `root` goes. */
  function RemoveTree(fs: FileSystem, root: Path): (r: FileSystem)
    ensures Fresh(r, root)
  {
    FileSystem(set p | p in fs.dirs && !(root <= p), set p | p in fs.files && !(root <= p))
  }

  /** Removing the build tree undoes everything created below it. */
  lemma RemoveTreeUndoes(fs: FileSystem, root: Path, dirs: set<Path>, files: set<Path>)
    requires Fresh(fs, root)
    requires forall p :: p in dirs ==> root <= p
    requires forall p :: p in files ==> root <= p
    ensures RemoveTree(FileSystem(fs.dirs + dirs, fs.files + files), root) == fs
  {
    var r := RemoveTree(FileSystem(fs.dirs + dirs, fs.files + files), root);
    forall p | p in fs.dirs || p in fs.files ensures !(root <= p) {
      assert fs.Exists(p);
    }
    assert r.dirs == fs.dirs;
    assert r.files == fs.files;
  }

  /** Deleting a file or adding one outside `root` keeps `root` fresh. */
  lemma FreshKept(fs: FileSystem, root: Path, after: FileSystem, added: set<Path>)
    requires Fresh(fs, root) && forall p :: p in added ==> !(root <= p)
    requires after.dirs <= fs.dirs && after.files <= fs.files + added
    ensures Fresh(after, root)
  {
    forall p | after.Exists(p) ensures !(root <= p) {
      if p !in added {
        assert fs.Exists(p);
      }
    }
  }

  /** The directories `mkdir` creates for the config file all lie below the build directory. */
  lemma MadeBelow(root: Path, p: Path, q: Path)
    requires root <= p
    requires q in (set k | |root| < k <= |p| :: p[..k])
    ensures root <= q
  {
    var k :| |root| < k <= |p| && q == p[..k];
    assert q[..|root|] == root;
  }

  /** `del config['Aiming']` when it is there. */
  function WithoutAiming(config: Config): Config {
    if Has(config, "Aiming") then Remove(config, "Aiming") else config
  }

  datatype BuildError = RepakNotFound(folder: Path) | RemoveFailed | MissingKey(key: string) | PackFailed

  /**
   * What a build leaves: its error if it raised, the world after it, the
   * caller's config as the build leaves it, the config text it wrote, and
   * the names the incompatibility warning showed.
   */
  datatype Build = Build(error: Option<BuildError>, world: World, config: Config, cfg: Option<string>, warned: seq<string>)

  /**
   * The packing inside the build directory `temp` (made by `mkdtemp` on
   * `fs`): the config directories and file are created, the packer runs,
   * and the build tree is removed. Of all of it only the moved pak stays,
   * unless it was moved into the build tree itself.
   */
  method PackInTemp(fs: FileSystem, cwd: Path, temp: Path, modPath: Path, cfgFile: string,
                    modsPath: Path, pakName: string, pack: Pack)
    returns (after: World, packed: bool)
    requires Fresh(fs, temp) && temp <= modPath
    ensures packed <==> pack.Packed?
    ensures after.cwd == cwd
    ensures after.fs == if pack.Packed? && !(temp <= modsPath + [pakName])
                        then Moved(fs, modsPath, pakName, pack.wrotePak) else fs
  {
    var made := set k | |temp| < k <= |modPath| :: modPath[..k];
    var f := fs.(dirs := fs.dirs + {temp});
    f := MakeDirs(f, temp, modPath);
    f := f.(files := f.files + {modPath + [cfgFile]});
    var run := RunRepak(World(f, cwd), modsPath, temp, pakName, pack);
    after := World(RemoveTree(run.0.fs, temp), run.0.cwd);
    packed := run.1;
    forall q | q in made ensures temp <= q {
      MadeBelow(temp, modPath, q);
    }
    var base := if pack.Packed? && !(temp <= modsPath + [pakName]) then Moved(fs, modsPath, pakName, pack.wrotePak) else fs;
    FreshKept(fs, temp, base, if temp <= modsPath + [pakName] then {} else {modsPath + [pakName]});
    var extra := if pack.Packed? && pack.wrotePak && temp <= modsPath + [pakName] then {modsPath + [pakName]} else {};
    assert run.0.fs == FileSystem(base.dirs + ({temp} + made), base.files + ({modPath + [cfgFile]} + extra));
    RemoveTreeUndoes(base, temp, {temp} + made, {modPath + [cfgFile]} + extra);
  }

  /** The build steps from `mkdtemp` on. */
  method BuildInTemp(fs: FileSystem, cwd: Path, config: Config, settings: Dict<string, string>, modsPath: Path,
                     temp: Path, pack: Pack)
    returns (error: Option<BuildError>, after: World, left: Config, cfg: Option<string>)
    requires Fresh(fs, temp)
    ensures after.cwd == cwd
    ensures error == match FirstMissing(RequiredKeys, settings)
                     case Some(k) => Some(MissingKey(k))
                     case None => if pack.PackerFailed? then Some(PackFailed) else None
    ensures after.fs == if error.None? && !(temp <= modsPath + [PakName(settings)])
                        then Moved(fs, modsPath, PakName(settings), pack.wrotePak) else fs
    ensures error.Some? && error.value.MissingKey? ==> left == config && cfg.None?
    ensures !(error.Some? && error.value.MissingKey?) ==> left == WithoutAiming(config) && cfg == Some(CfgText(left))
  {
    var missing := FindMissingKey(settings);
    if missing.Some? {
      RemoveTreeUndoes(fs, temp, {temp}, {});
      var f := RemoveTree(fs.(dirs := fs.dirs + {temp}), temp);
      return Some(MissingKey(missing.value)), World(f, cwd), config, None;
    }
    var modFolder := Get(settings, "mod_folder_name").value;
    var cfgFolder := Get(settings, "cfg_folder_name").value;
    var cfgFile := Get(settings, "cfg_file_name").value;
    var modPath := ModPath(temp, modFolder, cfgFolder);
    left := WithoutAiming(config);
    var text := GenerateCfgContent(left);
    cfg := Some(text);
    var packed;
    after, packed := PackInTemp(fs, cwd, temp, modPath, cfgFile, modsPath, PakName(settings), pack);
    error := if packed then None else Some(PackFailed);
  }

  /** `create_mod` */
  method CreateMod(w: World, config: Config, settings: Dict<string, string>, modsPath: Path,
                   exeDir: Path, basePath: Path, dataFolder: string, listing: seq<Path>,
                   temp: Path, pack: Pack)
    returns (b: Build)
    requires Fresh(w.fs, temp)
    ensures b.warned == IncompatibleMods(w.fs, modsPath, listing)
    ensures b.world.cwd == w.cwd
    ensures FindRepak(w.fs, exeDir, basePath, dataFolder).None? ==>
      b.error == Some(RepakNotFound(exeDir + [dataFolder, "repak"])) && b.world == w && b.config == config && b.cfg.None?
    ensures FindRepak(w.fs, exeDir, basePath, dataFolder).Some? && OldPak(modsPath) in w.fs.dirs ==>
      b.error == Some(RemoveFailed) && b.world == w && b.config == config && b.cfg.None?
    ensures FindRepak(w.fs, exeDir, basePath, dataFolder).Some? && OldPak(modsPath) !in w.fs.dirs ==>
      b.error == (match FirstMissing(RequiredKeys, settings)
                  case Some(k) => Some(MissingKey(k))
                  case None => if pack.PackerFailed? then Some(PackFailed) else None)
      && b.world.fs == (if b.error.None? && !(temp <= modsPath + [PakName(settings)])
                        then Moved(WithoutOldPak(w.fs, modsPath), modsPath, PakName(settings), pack.wrotePak)
                        else WithoutOldPak(w.fs, modsPath))
      && (FirstMissing(RequiredKeys, settings).Some? ==> b.config == config && b.cfg.None?)
      && (FirstMissing(RequiredKeys, settings).None? ==>
            b.config == WithoutAiming(config) && b.cfg == Some(CfgText(WithoutAiming(config))))
  {
    var warned := CheckIncompatibleMods(w.fs, modsPath, listing);
    var repak := FindRepak(w.fs, exeDir, basePath, dataFolder);
    if repak.None? {
      return Build(Some(RepakNotFound(exeDir + [dataFolder, "repak"])), w, config, None, warned);
    }
    var fs := w.fs;
    var oldPak := OldPak(modsPath);
    if fs.Exists(oldPak) {
      var removal := RemovePath(fs, oldPak);
      if removal.failed {
        return Build(Some(RemoveFailed), w, config, None, warned);
      }
      fs := removal.fs;
    }
    assert fs == WithoutOldPak(w.fs, modsPath);
    FreshKept(w.fs, temp, fs, {});
    var error, after, left, cfg := BuildInTemp(fs, w.cwd, config, settings, modsPath, temp, pack);
    b := Build(error, after, left, cfg, warned);
  }

  /**
   * Whatever the outcome, no trace of the build directory is left, and the
   * directories are those from before the build.
   */
  lemma CreateModCleansUp(w: World, settings: Dict<string, string>, modsPath: Path, temp: Path, pack: Pack, after: FileSystem)
    requires Fresh(w.fs, temp)
    requires after == w.fs || after == WithoutOldPak(w.fs, modsPath)
      || (pack.Packed? && !(temp <= modsPath + [PakName(settings)])
          && after == Moved(WithoutOldPak(w.fs, modsPath), modsPath, PakName(settings), pack.wrotePak))
    ensures Fresh(after, temp)
    ensures after.dirs == w.fs.dirs
  {
    var dst := modsPath + [PakName(settings)];
    FreshKept(w.fs, temp, after, if temp <= dst then {} else {dst});
  }
}
