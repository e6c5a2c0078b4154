/**
 * The game directory (`modules/config_interface.py`): correcting a folder
 * the user picked to the directory that holds `Stalker2`, and finding the
 * mod's pak files below it. The filesystem is a value: the set of
 * directories and the set of files, each a path of components.
 */
module GameDir {
  import opened Wrappers
  import opened Text

  /** A path as its components; `[]` is the empty selection, a one-component path a root. */
  type Path = seq<string>

  datatype FileSystem = FileSystem(dirs: set<Path>, files: set<Path>) {
    /** `os.path.exists` */
    predicate Exists(p: Path) {
      p in dirs || p in files
    }
  }

  /** `os.path.dirname`: a root is its own parent. */
  function Parent(p: Path): (r: Path)
    ensures r <= p
  {
    if |p| <= 1 then p else p[..|p| - 1]
  }

  /** `os.path.basename` of the path without trailing separators. */
  function BaseName(p: Path): string {
    if p == [] then "" else p[|p| - 1]
  }

  /** The path as text, with `/` between components. */
  function PathText(p: Path): string
    decreases |p|
  {
    if p == [] then ""
    else if |p| == 1 then p[0]
    else PathText(p[..|p| - 1]) + "/" + p[|p| - 1]
  }

  const GameFolder := "Stalker2"

  /** `is_valid_game_dir`: the path holds a `Stalker2` directory. */
  predicate IsGameDir(fs: FileSystem, p: Path) {
    p + [GameFolder] in fs.dirs
  }

  /** Folder names that suggest a game install somewhere above. */
  const CommonPatterns: seq<string> := ["steamapps/common", "XboxGames", "S.T.A.L.K.E.R. 2", "Stalker 2", "Heart of Chornobyl"]

  /** The `~mods` climb: up to `levels` steps up, each parent checked. */
  function ClimbAfter(fs: FileSystem, p: Path, levels: nat): (r: Option<Path>)
    ensures r.Some? ==> IsGameDir(fs, r.value) && r.value <= p
    decreases levels
  {
    if levels == 0 then None
    else
      var q := Parent(p);
      if IsGameDir(fs, q) then Some(q) else ClimbAfter(fs, q, levels - 1)
  }

  /** The parent climb: up to `levels` parents, stopping at a root. */
  function ClimbParents(fs: FileSystem, p: Path, levels: nat): (r: Option<Path>)
    ensures r.Some? ==> IsGameDir(fs, r.value) && r.value <= p
    decreases levels
  {
    if levels == 0 then None
    else
      var q := Parent(p);
      if q == p then None
      else if IsGameDir(fs, q) then Some(q)
      else ClimbParents(fs, q, levels - 1)
  }

  /** The pattern climb: the path itself and then its parents, `levels` paths in all, stopping at a root. */
  function ClimbFrom(fs: FileSystem, p: Path, levels: nat): (r: Option<Path>)
    ensures r.Some? ==> IsGameDir(fs, r.value) && r.value <= p
    decreases levels
  {
    if levels == 0 then None
    else if IsGameDir(fs, p) then Some(p)
    else
      var q := Parent(p);
      if q == p then None else ClimbFrom(fs, q, levels - 1)
  }

  /** The first candidate that is a game directory. */
  function FirstGameDir(fs: FileSystem, candidates: seq<Path>): (r: Option<Path>)
    ensures r.Some? ==> IsGameDir(fs, r.value) && r.value in candidates
    ensures r.None? <==> forall i :: 0 <= i < |candidates| ==> !IsGameDir(fs, candidates[i])
  {
    if candidates == [] then None
    else if IsGameDir(fs, candidates[0]) then Some(candidates[0])
    else
      var r := FirstGameDir(fs, candidates[1..]);
      assert forall i :: 1 <= i < |candidates| ==> candidates[i] == candidates[1..][i - 1];
      r
  }

  /** The pattern stage: each pattern found in the path (ignoring case) climbs from the path. */
  function PatternSearch(fs: FileSystem, selected: Path, patterns: seq<string>): (r: Option<Path>)
    ensures r.Some? ==> IsGameDir(fs, r.value) && r.value <= selected
  {
    if patterns == [] then None
    else
      var hit := if Contains(Lower(PathText(selected)), Lower(patterns[0])) then ClimbFrom(fs, selected, 4) else None;
      if hit.Some? then hit else PatternSearch(fs, selected, patterns[1..])
  }

  /** Falls through to `later` when `first` found nothing. */
  function OrElse(first: Option<Path>, later: Option<Path>): Option<Path> {
    if first.Some? then first else later
  }

  /**
   * `find_correct_game_directory(selected)`. `walkRoots` are the folders
   * the bounded subdirectory walk visits, in its order; a root that holds
   * a `Stalker2` directory is taken. No answer for an empty or missing
   * selection, the selection itself when it is already right, and
   * otherwise only a game directory: the selection, one of its ancestors,
   * or a folder the walk visited.
   */
  function GameDirSearch(fs: FileSystem, selected: Path, walkRoots: seq<Path>): (r: Option<Path>)
    ensures selected == [] || !fs.Exists(selected) ==> r.None?
    ensures selected != [] && fs.Exists(selected) && IsGameDir(fs, selected) ==> r == Some(selected)
    ensures r.Some? ==> IsGameDir(fs, r.value) && (r.value <= selected || r.value in walkRoots)
  {
    if selected == [] || !fs.Exists(selected) then None
    else if IsGameDir(fs, selected) then Some(selected)
    else if BaseName(selected) == GameFolder && IsGameDir(fs, Parent(selected)) then Some(Parent(selected))
    else
      OrElse(if BaseName(selected) == "~mods" then ClimbAfter(fs, selected, 4) else None,
      OrElse(FirstGameDir(fs, walkRoots),
      OrElse(ClimbParents(fs, selected, 3),
             PatternSearch(fs, selected, CommonPatterns))))
  }

  /** Every path the pattern climb checks above `p` was already checked by the parent climb from `p`. */
  lemma {:induction false} ClimbFromAfterParents(fs: FileSystem, p: Path, levels: nat)
    requires ClimbParents(fs, p, levels).None? && Parent(p) != p
    ensures ClimbFrom(fs, Parent(p), levels).None?
    decreases levels
  {
    if levels > 0 {
      var q := Parent(p);
      if Parent(q) != q {
        ClimbFromAfterParents(fs, q, levels - 1);
      }
    }
  }

  /** The pattern stage never finds anything: each climb repeats the parent climb that already failed. */
  lemma {:induction false} PatternSearchFindsNothing(fs: FileSystem, selected: Path, patterns: seq<string>)
    requires !IsGameDir(fs, selected) && ClimbParents(fs, selected, 3).None?
    ensures PatternSearch(fs, selected, patterns).None?
    decreases |patterns|
  {
    if patterns != [] {
      if Parent(selected) != selected {
        ClimbFromAfterParents(fs, selected, 3);
      }
      PatternSearchFindsNothing(fs, selected, patterns[1..]);
    }
  }

  /** The search is the same without its pattern stage. */
  lemma GameDirSearchWithoutPatterns(fs: FileSystem, selected: Path, walkRoots: seq<Path>)
    ensures GameDirSearch(fs, selected, walkRoots)
         == if selected == [] || !fs.Exists(selected) then None
            else if IsGameDir(fs, selected) then Some(selected)
            else if BaseName(selected) == GameFolder && IsGameDir(fs, Parent(selected)) then Some(Parent(selected))
            else OrElse(if BaseName(selected) == "~mods" then ClimbAfter(fs, selected, 4) else None,
                 OrElse(FirstGameDir(fs, walkRoots), ClimbParents(fs, selected, 3)))
  {
    if selected != [] && fs.Exists(selected) && !IsGameDir(fs, selected) && ClimbParents(fs, selected, 3).None? {
      PatternSearchFindsNothing(fs, selected, CommonPatterns);
    }
  }

  /** The loop of the `~mods` climb. */
  method ClimbAfterLoop(fs: FileSystem, start: Path, levels: nat) returns (r: Option<Path>)
    ensures r == ClimbAfter(fs, start, levels)
  {
    var current := start;
    var i := 0;
    while i < levels
      invariant 0 <= i <= levels
      invariant ClimbAfter(fs, start, levels) == ClimbAfter(fs, current, levels - i)
    {
      current := Parent(current);
      if IsGameDir(fs, current) {
        return Some(current);
      }
      i := i + 1;
    }
    return None;
  }

  /** The loop of the parent climb. */
  method ClimbParentsLoop(fs: FileSystem, start: Path, levels: nat) returns (r: Option<Path>)
    ensures r == ClimbParents(fs, start, levels)
  {
    var current := start;
    var i := 0;
    while i < levels
      invariant 0 <= i <= levels
      invariant ClimbParents(fs, start, levels) == ClimbParents(fs, current, levels - i)
    {
      var parent := Parent(current);
      if parent == current {
        break;
      }
      if IsGameDir(fs, parent) {
        return Some(parent);
      }
      current := parent;
      i := i + 1;
    }
    return None;
  }

  /** The loop of one pattern's climb. */
  method ClimbFromLoop(fs: FileSystem, start: Path, levels: nat) returns (r: Option<Path>)
    ensures r == ClimbFrom(fs, start, levels)
  {
    var test := start;
    var i := 0;
    while i < levels
      invariant 0 <= i <= levels
      invariant ClimbFrom(fs, start, levels) == ClimbFrom(fs, test, levels - i)
    {
      if IsGameDir(fs, test) {
        return Some(test);
      }
      var parent := Parent(test);
      if parent == test {
        break;
      }
      test := parent;
      i := i + 1;
    }
    return None;
  }

  /** `find_correct_game_directory`, stage by stage with early returns. */
  method FindGameDirectory(fs: FileSystem, selected: Path, walkRoots: seq<Path>) returns (r: Option<Path>)
    ensures r == GameDirSearch(fs, selected, walkRoots)
  {
    if selected == [] || !fs.Exists(selected) {
      return None;
    }
    if IsGameDir(fs, selected) {
      return Some(selected);
    }
    if BaseName(selected) == GameFolder {
      var parent := Parent(selected);
      if IsGameDir(fs, parent) {
        return Some(parent);
      }
    }
    if BaseName(selected) == "~mods" {
      r := ClimbAfterLoop(fs, selected, 4);
      if r.Some? {
        return;
      }
    }
    var w := 0;
    while w < |walkRoots|
      invariant 0 <= w <= |walkRoots|
      invariant FirstGameDir(fs, walkRoots) == FirstGameDir(fs, walkRoots[w..])
    {
      if IsGameDir(fs, walkRoots[w]) {
        return Some(walkRoots[w]);
      }
      assert walkRoots[w..][1..] == walkRoots[w + 1..];
      w := w + 1;
    }
    r := ClimbParentsLoop(fs, selected, 3);
    if r.Some? {
      return;
    }
    var p := 0;
    while p < |CommonPatterns|
      invariant 0 <= p <= |CommonPatterns|
      invariant PatternSearch(fs, selected, CommonPatterns) == PatternSearch(fs, selected, CommonPatterns[p..])
    {
      if Contains(Lower(PathText(selected)), Lower(CommonPatterns[p])) {
        r := ClimbFromLoop(fs, selected, 4);
        if r.Some? {
          return;
        }
      }
      assert CommonPatterns[p..][1..] == CommonPatterns[p + 1..];
      p := p + 1;
    }
    return None;
  }

  // ---------------------------------------------------------------------
  // The mod's pak files

  const ModsFolder: seq<string> := ["Stalker2", "Content", "Paks", "~mods"]
  const OldModFile := "z_SCAMMovementAiming_P.pak"
  const NewModFile := "z_SCAM_P.pak"

  function ModFile(gameDir: Path, name: string): Path {
    gameDir + ModsFolder + [name]
  }

  /** The game's `~mods` folder. */
  function ModsPath(gameDir: Path): Path {
    gameDir + ModsFolder
  }

  /** `os.makedirs(p)` below an existing `root`: every path from `root` down to `p` is a directory. */
  function MakeDirs(fs: FileSystem, root: Path, p: Path): FileSystem {
    fs.(dirs := fs.dirs + set k | |root| < k <= |p| :: p[..k])
  }

  /**
   * The `~mods` folder made ready, as `validate_mods_directory` does: when
   * nothing exists under its name, it and the folders above it are created
   * below `Stalker2`. It then exists and no file changes.
   */
  function MakeModsFolder(fs: FileSystem, gameDir: Path): (r: FileSystem)
    ensures r.Exists(ModsPath(gameDir))
    ensures r.files == fs.files && fs.dirs <= r.dirs
    ensures fs.Exists(ModsPath(gameDir)) ==> r == fs
  {
    if fs.Exists(ModsPath(gameDir)) then fs
    else
      var r := MakeDirs(fs, gameDir + [GameFolder], ModsPath(gameDir));
      assert ModsPath(gameDir)[..|ModsPath(gameDir)|] == ModsPath(gameDir);
      r
  }

  /** Every directory the `~mods` preparation creates lies on the way from `Stalker2` down to `~mods`. */
  lemma MakeModsFolderCreates(fs: FileSystem, gameDir: Path, p: Path)
    requires p in MakeModsFolder(fs, gameDir).dirs && p !in fs.dirs
    ensures |gameDir| + 1 < |p| && p <= ModsPath(gameDir)
  {
  }

  /** `_check_mod_exists`: a usable directory that holds the pak under either name. */
  predicate ModInstalled(fs: FileSystem, gameDir: Path) {
    gameDir != [] && fs.Exists(gameDir) && fs.Exists(gameDir + [GameFolder])
    && (fs.Exists(ModFile(gameDir, OldModFile)) || fs.Exists(ModFile(gameDir, NewModFile)))
  }

  /** The outcome of deleting the paks: whether one went, whether a delete failed, and the filesystem after. */
  datatype Removal = Removal(removed: bool, failed: bool, fs: FileSystem)

  /** `os.remove` of an existing path: a file goes, a directory raises. */
  function RemovePath(fs: FileSystem, p: Path): Removal
    requires fs.Exists(p)
  {
    if p in fs.dirs then Removal(false, true, fs)
    else Removal(true, false, fs.(files := fs.files - {p}))
  }

  /** The old name first, then the new one; the first failure ends the removal. */
  function RemoveModFiles(fs: FileSystem, gameDir: Path): Removal {
    var oldPak := ModFile(gameDir, OldModFile);
    var newPak := ModFile(gameDir, NewModFile);
    var first := if fs.Exists(oldPak) then RemovePath(fs, oldPak) else Removal(false, false, fs);
    if first.failed then first
    else if first.fs.Exists(newPak) then
      var second := RemovePath(first.fs, newPak);
      Removal(first.removed || second.removed, second.failed, second.fs)
    else first
  }

  /**
   * Removal deletes only the two pak files and no directory; when nothing
   * failed, neither pak is left and something was removed exactly when a
   * pak was there.
   */
  lemma RemoveModFilesMeaning(fs: FileSystem, gameDir: Path)
    ensures RemoveModFiles(fs, gameDir).fs.dirs == fs.dirs
    ensures RemoveModFiles(fs, gameDir).fs.files <= fs.files
    ensures fs.files - RemoveModFiles(fs, gameDir).fs.files <= {ModFile(gameDir, OldModFile), ModFile(gameDir, NewModFile)}
    ensures !RemoveModFiles(fs, gameDir).failed
        ==> !RemoveModFiles(fs, gameDir).fs.Exists(ModFile(gameDir, OldModFile))
            && !RemoveModFiles(fs, gameDir).fs.Exists(ModFile(gameDir, NewModFile))
            && (RemoveModFiles(fs, gameDir).removed <==> fs.Exists(ModFile(gameDir, OldModFile)) || fs.Exists(ModFile(gameDir, NewModFile)))
  {
    assert ModFile(gameDir, OldModFile) != ModFile(gameDir, NewModFile) by {
      var a, b := ModFile(gameDir, OldModFile), ModFile(gameDir, NewModFile);
      assert a[|a| - 1] == OldModFile && b[|b| - 1] == NewModFile;
      assert OldModFile[6] != NewModFile[6];
    }
  }
}
