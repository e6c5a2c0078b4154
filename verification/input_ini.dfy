/**
 * The Input.ini handling behind the mouse-smoothing button
 * (`modules/config_interface.py`): the state is read from the first
 * candidate file that has an InputSettings section, and the toggle
 * rewrites the first candidate file that exists. The rewrite regroups the
 * file by section, drops the two mouse settings from the InputSettings
 * section and, when smoothing is being disabled, writes them back as
 * `=False`.
 */
module InputIni {
  import opened Wrappers
  import opened Text
  import opened Dicts

  const InputSettings := "[/Script/Engine.InputSettings]"
  const AccelKey := "bViewAccelerationEnabled"
  const SmoothKey := "bEnableMouseSmoothing"
  const AccelOff := "bViewAccelerationEnabled=False"
  const SmoothOff := "bEnableMouseSmoothing=False"

  /** A file as `readlines()` returns it: every line keeps its line break. */
  type Lines = seq<string>

  /** Stripped header line to the lines kept under it, in first-seen order. */
  type Sections = Dict<string, Lines>

  /** A text holds whatever its middle part starts with. */
  lemma ContainsLineStart(a: string, line: string, b: string, sub: string)
    requires StartsWith(line, sub)
    ensures Contains(a + line + b, sub)
  {
    assert (a + line + b)[|a|..|a| + |sub|] == sub;
    assert OccursAt(a + line + b, sub, |a|);
  }

  // ---------------------------------------------------------------------
  // Reading the state: get_mouse_smoothing_state

  /** A candidate Input.ini: absent, present but failing to open, or its lines. */
  datatype IniFile = Missing | Unreadable | Present(lines: Lines)

  /**
   * What one readable file says: nothing without the InputSettings header,
   * otherwise smoothing is on unless both `=False` settings occur in it.
   */
  function FileSmoothing(lines: Lines): Option<bool> {
    var content := Concat(lines);
    if Contains(content, InputSettings) then Some(!(Contains(content, AccelOff) && Contains(content, SmoothOff)))
    else None
  }

  /** The file is readable and has the InputSettings header. */
  predicate Decides(f: IniFile) {
    f.Present? && FileSmoothing(f.lines).Some?
  }

  /** `get_mouse_smoothing_state` over the candidate files in order. */
  function SmoothingState(files: seq<IniFile>): bool {
    if files == [] then true
    else if Decides(files[0]) then FileSmoothing(files[0].lines).value
    else SmoothingState(files[1..])
  }

  predicate FirstDecider(files: seq<IniFile>, i: int) {
    0 <= i < |files| && Decides(files[i]) && forall j :: 0 <= j < i ==> !Decides(files[j])
  }

  /**
   * The first file with the header decides; with no such file smoothing
   * counts as on.
   */
  lemma {:induction false} SmoothingStateMeaning(files: seq<IniFile>, i: int)
    ensures FirstDecider(files, i) ==> SmoothingState(files) == FileSmoothing(files[i].lines).value
    ensures (forall j :: 0 <= j < |files| ==> !Decides(files[j])) ==> SmoothingState(files)
    decreases |files|
  {
    if files != [] && !Decides(files[0]) {
      SmoothingStateMeaning(files[1..], i - 1);
      if FirstDecider(files, i) {
        assert FirstDecider(files[1..], i - 1) by {
          forall j | 0 <= j < i - 1 ensures !Decides(files[1..][j]) {
            assert files[1..][j] == files[j + 1];
          }
        }
      }
      if forall j :: 0 <= j < |files| ==> !Decides(files[j]) {
        forall j | 0 <= j < |files[1..]| ensures !Decides(files[1..][j]) {
          assert files[1..][j] == files[j + 1];
        }
      }
    }
  }

  method MouseSmoothingState(files: seq<IniFile>) returns (enabled: bool)
    ensures enabled == SmoothingState(files)
  {
    var i := 0;
    while i < |files|
      invariant 0 <= i <= |files|
      invariant SmoothingState(files) == SmoothingState(files[i..])
    {
      if files[i].Present? {
        var content := Concat(files[i].lines);
        if Contains(content, InputSettings) {
          return !(Contains(content, AccelOff) && Contains(content, SmoothOff));
        }
      }
      assert files[i..][1..] == files[i + 1..];
      i := i + 1;
    }
    return true;
  }

  // ---------------------------------------------------------------------
  // The first pass of the rewrite: lines grouped by section

  /** The line names either mouse setting. */
  predicate MentionsMouseKey(line: string) {
    Contains(line, AccelKey) || Contains(line, SmoothKey)
  }

  predicate IsHeader(line: string) {
    StartsWith(Strip(line), "[")
  }

  /** The section being read and the sections so far. */
  datatype Pass = Pass(current: Option<string>, sections: Sections)

  const Start := Pass(None, [])

  /**
   * One line: a header opens its section afresh (a repeated header empties
   * it but keeps its place); a non-blank line after a header is kept under
   * it, except an InputSettings line naming a mouse setting.
   */
  function Step(p: Pass, line: string): Pass {
    var stripped := Strip(line);
    if StartsWith(stripped, "[") then Pass(Some(stripped), Put(p.sections, stripped, []))
    else if p.current.None? || stripped == [] then p
    else if p.current.value == InputSettings && MentionsMouseKey(line) then p
    else Pass(p.current, Put(p.sections, p.current.value, Get(p.sections, p.current.value).GetOr([]) + [line]))
  }

  function Run(p: Pass, lines: Lines): Pass
    decreases |lines|
  {
    if lines == [] then p else Step(Run(p, lines[..|lines| - 1]), lines[|lines| - 1])
  }

  function Organize(lines: Lines): Sections {
    Run(Start, lines).sections
  }

  lemma RunNext(p: Pass, lines: Lines, i: nat)
    requires i < |lines|
    ensures Run(p, lines[..i + 1]) == Step(Run(p, lines[..i]), lines[i])
  {
    assert lines[..i + 1][..i] == lines[..i];
  }

  lemma {:induction false} RunAppend(p: Pass, a: Lines, b: Lines)
    ensures Run(p, a + b) == Run(Run(p, a), b)
    decreases |b|
  {
    if b == [] {
      assert a + b == a;
    } else {
      var n := |b|;
      assert (a + b)[..|a + b| - 1] == a + b[..n - 1];
      assert (a + b)[|a + b| - 1] == b[n - 1];
      RunAppend(p, a, b[..n - 1]);
    }
  }

  lemma {:induction false} RunWithoutHeader(a: Lines)
    requires forall i :: 0 <= i < |a| ==> !IsHeader(a[i])
    ensures Run(Start, a) == Start
    decreases |a|
  {
    if a != [] {
      RunWithoutHeader(a[..|a| - 1]);
    }
  }

  /** Lines before the first header are dropped. */
  lemma PreambleDropped(preamble: Lines, rest: Lines)
    requires forall i :: 0 <= i < |preamble| ==> !IsHeader(preamble[i])
    ensures Organize(preamble + rest) == Organize(rest)
  {
    RunAppend(Start, preamble, rest);
    RunWithoutHeader(preamble);
  }

  /** A line the first pass may keep under `section`. */
  predicate Kept(lines: Lines, section: string, l: string) {
    l in lines && Strip(l) != [] && !IsHeader(l) && (section == InputSettings ==> !MentionsMouseKey(l))
  }

  ghost predicate PassInv(lines: Lines, p: Pass) {
    (p.current.Some? ==> Has(p.sections, p.current.value))
    && Unique(p.sections)
    && forall s :: Get(p.sections, s).Some? ==> forall l :: l in Get(p.sections, s).value ==> Kept(lines, s, l)
  }

  /** The last line keeps the invariant of the lines before it. */
  lemma StepInv(lines: Lines, p: Pass)
    requires lines != [] && PassInv(lines[..|lines| - 1], p)
    ensures PassInv(lines, Step(p, lines[|lines| - 1]))
  {
    var prefix := lines[..|lines| - 1];
    var line := lines[|lines| - 1];
    var q := Step(p, line);
    var stripped := Strip(line);
    assert forall l :: l in prefix ==> l in lines;
    if StartsWith(stripped, "[") {
      PutUnique(p.sections, stripped, []);
      PutGet(p.sections, stripped, [], stripped);
      forall s | Get(q.sections, s).Some? ensures forall l :: l in Get(q.sections, s).value ==> Kept(lines, s, l) {
        PutGet(p.sections, stripped, [], s);
      }
    } else if q != p {
      var cur := p.current.value;
      var block := Get(p.sections, cur).GetOr([]) + [line];
      assert Kept(lines, cur, line);
      PutUnique(p.sections, cur, block);
      PutGet(p.sections, cur, block, cur);
      forall s | Get(q.sections, s).Some? ensures forall l :: l in Get(q.sections, s).value ==> Kept(lines, s, l) {
        PutGet(p.sections, cur, block, s);
      }
    }
  }

  lemma RunStepInv(lines: Lines)
    requires lines != [] && PassInv(lines[..|lines| - 1], Run(Start, lines[..|lines| - 1]))
    ensures PassInv(lines, Run(Start, lines))
  {
    StepInv(lines, Run(Start, lines[..|lines| - 1]));
  }

  lemma {:induction false} RunInv(lines: Lines)
    ensures PassInv(lines, Run(Start, lines))
    decreases |lines|
  {
    if lines != [] {
      var n := |lines|;
      var prefix := lines[..n - 1];
      RunInv(prefix);
      RunStepInv(lines);
    }
  }

  /**
   * Every kept line is a non-blank, non-header line of the file, and no
   * line kept under InputSettings names a mouse setting.
   */
  lemma OrganizeLines(lines: Lines, section: string, l: string)
    requires Get(Organize(lines), section).Some? && l in Get(Organize(lines), section).value
    ensures l in lines && Strip(l) != [] && !IsHeader(l)
    ensures section == InputSettings ==> !MentionsMouseKey(l)
  {
    RunInv(lines);
  }

  /** The stripped header lines, in file order. */
  function Headers(lines: Lines): seq<string>
    decreases |lines|
  {
    if lines == [] then []
    else Headers(lines[..|lines| - 1]) + if IsHeader(lines[|lines| - 1]) then [Strip(lines[|lines| - 1])] else []
  }

  /** Each name once, where it first appears. */
  function FirstSeen(names: seq<string>): seq<string>
    decreases |names|
  {
    if names == [] then []
    else
      var earlier := FirstSeen(names[..|names| - 1]);
      if names[|names| - 1] in earlier then earlier else earlier + [names[|names| - 1]]
  }

  /** Sections come out in the order their headers first appear. */
  lemma {:induction false} OrganizeKeys(lines: Lines)
    ensures Keys(Organize(lines)) == FirstSeen(Headers(lines))
    decreases |lines|
  {
    if lines != [] {
      var n := |lines|;
      var prefix := lines[..n - 1];
      OrganizeKeys(prefix);
      RunInv(prefix);
      OrganizeKeysStep(lines);
    }
  }

  lemma {:induction false} OrganizeKeysStep(lines: Lines)
    requires lines != [] && Keys(Organize(lines[..|lines| - 1])) == FirstSeen(Headers(lines[..|lines| - 1]))
    requires Run(Start, lines[..|lines| - 1]).current.Some?
             ==> Has(Run(Start, lines[..|lines| - 1]).sections, Run(Start, lines[..|lines| - 1]).current.value)
    ensures Keys(Organize(lines)) == FirstSeen(Headers(lines))
  {
    var prefix, line := lines[..|lines| - 1], lines[|lines| - 1];
    OrganizeKeysLast(lines);
    HeadersLast(lines);
    FirstSeenStep(Keys(Organize(prefix)), Headers(prefix), Keys(Organize(lines)), Headers(lines), IsHeader(line), Strip(line));
  }

  /** The sections after the last line, in terms of those before it. */
  lemma OrganizeKeysLast(lines: Lines)
    requires lines != []
    requires Run(Start, lines[..|lines| - 1]).current.Some?
             ==> Has(Run(Start, lines[..|lines| - 1]).sections, Run(Start, lines[..|lines| - 1]).current.value)
    ensures Keys(Organize(lines))
         == if !IsHeader(lines[|lines| - 1]) then Keys(Organize(lines[..|lines| - 1]))
            else if Strip(lines[|lines| - 1]) in Keys(Organize(lines[..|lines| - 1])) then Keys(Organize(lines[..|lines| - 1]))
            else Keys(Organize(lines[..|lines| - 1])) + [Strip(lines[|lines| - 1])]
  {
    StepKeys(Run(Start, lines[..|lines| - 1]), lines[|lines| - 1]);
  }

  lemma HeadersLast(lines: Lines)
    requires lines != []
    ensures Headers(lines)
         == Headers(lines[..|lines| - 1]) + if IsHeader(lines[|lines| - 1]) then [Strip(lines[|lines| - 1])] else []
  {
  }

  /** Keys and first-seen headers move together when one line is added. */
  lemma FirstSeenStep(keys: seq<string>, headers: seq<string>, keys': seq<string>, headers': seq<string>, isHeader: bool, name: string)
    requires keys == FirstSeen(headers)
    requires keys' == if !isHeader then keys else if name in keys then keys else keys + [name]
    requires headers' == headers + if isHeader then [name] else []
    ensures keys' == FirstSeen(headers')
  {
    if isHeader {
      FirstSeenSnoc(headers, name);
    } else {
      assert headers + [] == headers;
    }
  }

  lemma FirstSeenSnoc(names: seq<string>, x: string)
    ensures FirstSeen(names + [x]) == if x in FirstSeen(names) then FirstSeen(names) else FirstSeen(names) + [x]
  {
    assert (names + [x])[..|names|] == names;
  }

  /** A header adds its section at the end unless it is already there; no other line adds one. */
  lemma StepKeys(p: Pass, line: string)
    requires p.current.Some? ==> Has(p.sections, p.current.value)
    ensures Keys(Step(p, line).sections)
         == if !IsHeader(line) then Keys(p.sections)
            else if Strip(line) in Keys(p.sections) then Keys(p.sections)
            else Keys(p.sections) + [Strip(line)]
  {
    var stripped := Strip(line);
    if StartsWith(stripped, "[") {
      PutKeys(p.sections, stripped, []);
      HasKeys(p.sections, stripped);
    } else if Step(p, line) != p {
      PutKeys(p.sections, p.current.value, Get(p.sections, p.current.value).GetOr([]) + [line]);
    }
  }

  /** The body of the first pass for one line. */
  method StepLine(current: Option<string>, sections: Sections, line: string)
    returns (current': Option<string>, sections': Sections)
    ensures Pass(current', sections') == Step(Pass(current, sections), line)
  {
    current', sections' := current, sections;
    var stripped := Strip(line);
    if StartsWith(stripped, "[") {
      current' := Some(stripped);
      sections' := Put(sections, stripped, []);
    } else if current.Some? && stripped != [] {
      if current.value != InputSettings || !(Contains(line, AccelKey) || Contains(line, SmoothKey)) {
        sections' := Put(sections, current.value, Get(sections, current.value).GetOr([]) + [line]);
      }
    }
  }

  method OrganizeSections(lines: Lines) returns (sections: Sections)
    ensures sections == Organize(lines)
  {
    var current: Option<string> := None;
    sections := [];
    var i := 0;
    while i < |lines|
      invariant 0 <= i <= |lines|
      invariant Run(Start, lines[..i]) == Pass(current, sections)
    {
      RunNext(Start, lines, i);
      current, sections := StepLine(current, sections, lines[i]);
      i := i + 1;
    }
    assert lines[..|lines|] == lines;
  }

  // ---------------------------------------------------------------------
  // The second pass: the file put back together

  /** The InputSettings block: header and kept lines, or the bare header when disabling. */
  function Head(sections: Sections, newState: bool): Lines {
    var block := Get(sections, InputSettings).GetOr([]);
    if block != [] then
      [InputSettings + "\n"] + block + if !newState && !EndsWith(block[|block| - 1], "\n") then ["\n"] else []
    else if !newState then [InputSettings + "\n"]
    else []
  }

  /** The settings written when smoothing is disabled. */
  function MouseLines(newState: bool): Lines {
    if newState then [] else [AccelOff + "\n", SmoothOff + "\n"]
  }

  /** The other sections in dict order, each after a blank line unless it comes first. */
  function AddOthers(acc: Lines, sections: Sections): (r: Lines)
    ensures acc <= r
    decreases |sections|
  {
    if sections == [] then acc
    else
      var prev := AddOthers(acc, sections[..|sections| - 1]);
      var (name, block) := sections[|sections| - 1];
      if name == InputSettings then prev
      else prev + (if prev != [] then ["\n"] else []) + [name + "\n"] + block
  }

  /** A line that strips to nothing. */
  const Blank: string -> bool := l => Strip(l) == []

  /** Trailing lines that `blank` holds of are popped. */
  function DropTrailing(lines: Lines, blank: string -> bool): (r: Lines)
    ensures r <= lines
    ensures r == [] || !blank(r[|r| - 1])
    ensures forall i :: |r| <= i < |lines| ==> blank(lines[i])
    decreases |lines|
  {
    if lines != [] && blank(lines[|lines| - 1]) then DropTrailing(lines[..|lines| - 1], blank) else lines
  }

  /** Trailing lines that strip to nothing are popped. */
  function DropTrailingBlank(lines: Lines): Lines {
    DropTrailing(lines, Blank)
  }

  /** The new file for the new smoothing state. */
  function Rewrite(lines: Lines, newState: bool): Lines {
    var sections := Organize(lines);
    DropTrailingBlank(AddOthers(Head(sections, newState) + MouseLines(newState), sections))
  }

  /** The InputSettings block and, when disabling, the two settings. */
  method StartContent(sections: Sections, newState: bool) returns (out: Lines)
    ensures out == Head(sections, newState) + MouseLines(newState)
  {
    out := [];
    var block := Get(sections, InputSettings);
    if block.Some? && block.value != [] {
      out := out + [InputSettings + "\n"];
      out := out + block.value;
      if !newState && !EndsWith(out[|out| - 1], "\n") {
        out := out + ["\n"];
      }
    } else if !newState {
      out := out + [InputSettings + "\n"];
    }
    if !newState {
      out := out + [AccelOff + "\n"];
      out := out + [SmoothOff + "\n"];
    }
  }

  method AppendOthers(start: Lines, sections: Sections) returns (out: Lines)
    ensures out == AddOthers(start, sections)
  {
    out := start;
    var i := 0;
    while i < |sections|
      invariant 0 <= i <= |sections|
      invariant out == AddOthers(start, sections[..i])
    {
      assert sections[..i + 1][..i] == sections[..i];
      var (name, lines) := sections[i];
      if name != InputSettings {
        if out != [] {
          out := out + ["\n"];
        }
        out := out + [name + "\n"];
        out := out + lines;
      }
      i := i + 1;
    }
    assert sections[..|sections|] == sections;
  }

  method PopBlankLines(lines: Lines) returns (out: Lines)
    ensures out == DropTrailingBlank(lines)
  {
    out := lines;
    while out != [] && Strip(out[|out| - 1]) == []
      invariant DropTrailingBlank(out) == DropTrailingBlank(lines)
      decreases |out|
    {
      out := out[..|out| - 1];
    }
  }

  method ToggleRewrite(lines: Lines, newState: bool) returns (out: Lines)
    ensures out == Rewrite(lines, newState)
  {
    var sections := OrganizeSections(lines);
    out := StartContent(sections, newState);
    out := AppendOthers(out, sections);
    out := PopBlankLines(out);
  }

  lemma StartsWithAppend(a: string, b: string)
    ensures StartsWith(a + b, a)
  {
    assert (a + b)[..|a|] == a;
  }

  lemma ConcatAround(a: Lines, line: string, b: Lines)
    ensures Concat(a + [line] + b) == Concat(a) + line + Concat(b)
  {
    ConcatAppend(a + [line], b);
    ConcatSnoc(a, line);
  }

  /** The file text holds whatever one of its lines starts with. */
  lemma ConcatContainsLine(lines: Lines, i: int, sub: string)
    requires 0 <= i < |lines| && StartsWith(lines[i], sub)
    ensures Contains(Concat(lines), sub)
  {
    assert lines == lines[..i] + [lines[i]] + lines[i + 1..];
    ConcatAround(lines[..i], lines[i], lines[i + 1..]);
    ContainsLineStart(Concat(lines[..i]), lines[i], Concat(lines[i + 1..]), sub);
  }

  /** Popping blank lines never reaches into a prefix that ends in a non-blank line. */
  lemma DropKeepsPrefix(x: Lines, p: Lines)
    requires p <= x && p != [] && Strip(p[|p| - 1]) != []
    ensures p <= DropTrailingBlank(x)
  {
  }

  /** When disabling, the new file starts with the header and ends its first part with the two settings. */
  lemma DisableStart(s: Sections)
    ensures var hm := Head(s, false) + MouseLines(false);
      |hm| >= 3 && hm[0] == InputSettings + "\n" && hm[|hm| - 2] == AccelOff + "\n" && hm[|hm| - 1] == SmoothOff + "\n"
  {
  }

  /** After disabling, the file reads back as smoothing off. */
  lemma DisableReadsBack(lines: Lines)
    ensures FileSmoothing(Rewrite(lines, false)) == Some(false)
  {
    var s := Organize(lines);
    var hm := Head(s, false) + MouseLines(false);
    var out := Rewrite(lines, false);
    DisableStart(s);
    var n := |hm|;
    NotBlank(SmoothOff + "\n", 'b');
    DropKeepsPrefix(AddOthers(hm, s), hm);
    assert out[0] == hm[0] && out[n - 2] == hm[n - 2] && out[n - 1] == hm[n - 1];
    StartsWithAppend(InputSettings, "\n");
    StartsWithAppend(AccelOff, "\n");
    StartsWithAppend(SmoothOff, "\n");
    ConcatContainsLine(out, 0, InputSettings);
    ConcatContainsLine(out, n - 2, AccelOff);
    ConcatContainsLine(out, n - 1, SmoothOff);
  }

  /** A line added by `AddOthers` is a separator, a header or a kept line of a section other than InputSettings. */
  lemma {:induction false} AddOthersLines(acc: Lines, sections: Sections, l: string)
    requires l in AddOthers(acc, sections)
    ensures l in acc || l == "\n"
            || exists j :: 0 <= j < |sections| && sections[j].0 != InputSettings && (l == sections[j].0 + "\n" || l in sections[j].1)
    decreases |sections|
  {
    if sections != [] {
      var n := |sections|;
      var prefix := sections[..n - 1];
      var prev := AddOthers(acc, prefix);
      if l in prev {
        AddOthersLines(acc, prefix, l);
        if exists j :: 0 <= j < |prefix| && prefix[j].0 != InputSettings && (l == prefix[j].0 + "\n" || l in prefix[j].1) {
          var j :| 0 <= j < |prefix| && prefix[j].0 != InputSettings && (l == prefix[j].0 + "\n" || l in prefix[j].1);
          assert sections[j] == prefix[j];
        }
      }
    }
  }

  /** Both setting names start with `b`. */
  lemma WithoutB(l: string)
    requires 'b' !in l
    ensures !MentionsMouseKey(l)
  {
    if Contains(l, AccelKey) { ContainsFirst(l, AccelKey); }
    if Contains(l, SmoothKey) { ContainsFirst(l, SmoothKey); }
  }

  /** When enabling, the InputSettings block names no mouse setting. */
  lemma EnableHeadClean(lines: Lines, l: string)
    requires l in Head(Organize(lines), true)
    ensures !MentionsMouseKey(l)
  {
    var block := Get(Organize(lines), InputSettings).GetOr([]);
    HeadEnabled(block, Organize(lines), l);
    if l == InputSettings + "\n" {
      HeaderNamesNoSetting();
    } else {
      OrganizeLines(lines, InputSettings, l);
    }
  }

  lemma HeadEnabled(block: Lines, sections: Sections, l: string)
    requires block == Get(sections, InputSettings).GetOr([]) && l in Head(sections, true)
    ensures l == InputSettings + "\n" || (Get(sections, InputSettings).Some? && l in block)
  {
  }

  /** The InputSettings header names no mouse setting. */
  lemma HeaderNamesNoSetting()
    ensures !MentionsMouseKey(InputSettings + "\n")
  {
    assert 'b' !in InputSettings + "\n";
    WithoutB(InputSettings + "\n");
  }

  /**
   * After enabling, a line naming a mouse setting can only be a header or a
   * kept line of some other section: none is left in InputSettings.
   */
  lemma EnableClearsInputSettings(lines: Lines, l: string)
    requires l in Rewrite(lines, true) && MentionsMouseKey(l)
    ensures exists j :: 0 <= j < |Organize(lines)| && Organize(lines)[j].0 != InputSettings
                        && (l == Organize(lines)[j].0 + "\n" || l in Organize(lines)[j].1)
  {
    var s := Organize(lines);
    var h := Head(s, true);
    assert h + MouseLines(true) == h;
    assert l in AddOthers(h, s);
    AddOthersLines(h, s, l);
    if l in h {
      EnableHeadClean(lines, l);
    } else if l == "\n" {
      WithoutB(l);
    }
  }

  // ---------------------------------------------------------------------
  // The toggle: toggle_mouse_smoothing

  /**
   * The candidate files afterwards, the state written, and whether the
   * default-file fallback runs (no file to rewrite, or it failed to open).
   */
  datatype Toggled = Toggled(files: seq<IniFile>, newState: bool, createDefault: bool)

  /** Index of the first candidate file that exists. */
  function FirstExisting(files: seq<IniFile>): (r: Option<nat>)
    ensures r.Some? ==> r.value < |files| && !files[r.value].Missing?
                        && forall j :: 0 <= j < r.value ==> files[j].Missing?
    ensures r.None? ==> forall j :: 0 <= j < |files| ==> files[j].Missing?
  {
    if files == [] then None
    else if !files[0].Missing? then Some(0)
    else
      match FirstExisting(files[1..])
      case None => None
      case Some(i) => Some(i + 1)
  }

  function ToggleFiles(files: seq<IniFile>): Toggled {
    var newState := !SmoothingState(files);
    match FirstExisting(files)
    case None => Toggled(files, newState, true)
    case Some(i) =>
      if files[i].Unreadable? then Toggled(files, newState, true)
      else Toggled(files[i := Present(Rewrite(files[i].lines, newState))], newState, false)
  }

  lemma {:induction false} FirstExistingAt(files: seq<IniFile>, i: int)
    requires 0 <= i <= |files| && forall j :: 0 <= j < i ==> files[j].Missing?
    ensures i < |files| && !files[i].Missing? ==> FirstExisting(files) == Some(i)
    ensures i == |files| ==> FirstExisting(files).None?
    decreases i
  {
    if i > 0 {
      FirstExistingAt(files[1..], i - 1);
      assert forall j :: 0 <= j < i - 1 ==> files[1..][j] == files[j + 1];
    }
  }

  method ToggleMouseSmoothing(files: seq<IniFile>) returns (t: Toggled)
    ensures t == ToggleFiles(files)
  {
    var current := MouseSmoothingState(files);
    var newState := !current;
    var i := 0;
    while i < |files|
      invariant 0 <= i <= |files|
      invariant forall j :: 0 <= j < i ==> files[j].Missing?
    {
      if files[i].Present? {
        FirstExistingAt(files, i);
        var rewritten := ToggleRewrite(files[i].lines, newState);
        return Toggled(files[i := Present(rewritten)], newState, false);
      } else if files[i].Unreadable? {
        FirstExistingAt(files, i);
        break;
      }
      i := i + 1;
    }
    FirstExistingAt(files, i);
    return Toggled(files, newState, true);
  }

  /** Disabling smoothing is what the next read of the state sees. */
  lemma ToggleOffReadsBack(files: seq<IniFile>)
    requires SmoothingState(files) && !ToggleFiles(files).createDefault
    ensures !SmoothingState(ToggleFiles(files).files)
  {
    var i := FirstExisting(files).value;
    var out := Rewrite(files[i].lines, false);
    assert ToggleFiles(files).files == files[i := Present(out)];
    DisableReadsBack(files[i].lines);
    RewrittenDecides(files, i, out);
  }

  /** A file rewritten with the header, behind only missing files, decides the state. */
  lemma RewrittenDecides(files: seq<IniFile>, i: nat, out: Lines)
    requires i < |files| && forall j :: 0 <= j < i ==> files[j].Missing?
    requires FileSmoothing(out).Some?
    ensures SmoothingState(files[i := Present(out)]) == FileSmoothing(out).value
  {
    var after := files[i := Present(out)];
    assert FirstDecider(after, i);
    SmoothingStateMeaning(after, i);
  }
}
