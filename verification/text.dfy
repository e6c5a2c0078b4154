/**
 * The few Python string operations the program relies on: strip, lower,
 * `in`, startswith/endswith, split on the first separator, replace and
 * capitalize. Whitespace and case are the ASCII ones.
 */
module Text {
  import opened Wrappers

  predicate IsSpace(c: char) {
    c == ' ' || c == '\t' || c == '\n' || c == '\r' || c == '\U{000B}' || c == '\U{000C}'
  }

  predicate IsDigit(c: char) {
    '0' <= c <= '9'
  }

  predicate AllDigits(s: string) {
    forall i :: 0 <= i < |s| ==> IsDigit(s[i])
  }

  /** `s.lstrip()` */
  function TrimLeft(s: string): (r: string)
    ensures |r| <= |s| && r == s[|s| - |r|..]
    ensures r != [] ==> !IsSpace(r[0])
    ensures forall i :: 0 <= i < |s| - |r| ==> IsSpace(s[i])
  {
    if s != [] && IsSpace(s[0]) then TrimLeft(s[1..]) else s
  }

  /** `s.rstrip()` */
  function TrimRight(s: string): (r: string)
    ensures |r| <= |s| && r == s[..|r|]
    ensures r != [] ==> !IsSpace(r[|r| - 1])
    ensures forall i :: |r| <= i < |s| ==> IsSpace(s[i])
  {
    if s != [] && IsSpace(s[|s| - 1]) then TrimRight(s[..|s| - 1]) else s
  }

  /** `s.strip()`: the text between the first and the last non-space character. */
  function Strip(s: string): (r: string)
    ensures r != [] ==> !IsSpace(r[0]) && !IsSpace(r[|r| - 1])
  {
    TrimLeft(TrimRight(s))
  }

  /** Strip removes whitespace only. */
  lemma StripKeeps(s: string, c: char)
    requires c in s && !IsSpace(c)
    ensures c in Strip(s)
  {
    var m := TrimRight(s);
    var r := TrimLeft(m);
    var i :| 0 <= i < |s| && s[i] == c;
    assert m[i] == c;
    assert r[i - (|m| - |r|)] == c;
  }

  /** Strip adds no character. */
  lemma StripWithin(s: string, c: char)
    requires c in Strip(s)
    ensures c in s
  {
    var m := TrimRight(s);
    var r := TrimLeft(m);
    var i :| 0 <= i < |r| && r[i] == c;
    assert m[i + (|m| - |r|)] == c;
    assert s[i + (|m| - |r|)] == c;
  }

  /** Text that neither starts nor ends with a space is its own strip. */
  lemma StripNoSpace(s: string)
    requires s != [] ==> !IsSpace(s[0]) && !IsSpace(s[|s| - 1])
    ensures Strip(s) == s
  {
  }

  /** Stripping is idempotent. */
  lemma StripStrip(s: string)
    ensures Strip(Strip(s)) == Strip(s)
  {
    StripNoSpace(Strip(s));
  }

  function LowerChar(c: char): (r: char)
    ensures IsDigit(c) ==> r == c
    ensures 'A' <= c <= 'Z' || r == c
  {
    if 'A' <= c <= 'Z' then (c as int - 'A' as int + 'a' as int) as char else c
  }

  function UpperChar(c: char): char {
    if 'a' <= c <= 'z' then (c as int - 'a' as int + 'A' as int) as char else c
  }

  /** `s.lower()` */
  function Lower(s: string): (r: string)
    ensures |r| == |s|
    ensures forall i :: 0 <= i < |s| ==> r[i] == LowerChar(s[i])
  {
    seq(|s|, i requires 0 <= i < |s| => LowerChar(s[i]))
  }

  /** `s.capitalize()`: first character upper case, the rest lower case. */
  function Capitalize(s: string): (r: string)
    ensures |r| == |s|
  {
    if s == [] then [] else [UpperChar(s[0])] + Lower(s[1..])
  }

  predicate StartsWith(s: string, prefix: string) {
    |prefix| <= |s| && s[..|prefix|] == prefix
  }

  predicate EndsWith(s: string, suffix: string) {
    |suffix| <= |s| && s[|s| - |suffix|..] == suffix
  }

  /** `sub` occurs in `s` starting at index `i`. */
  predicate OccursAt(s: string, sub: string, i: int) {
    0 <= i && i + |sub| <= |s| && s[i..i + |sub|] == sub
  }

  /** `sub in s` */
  predicate Contains(s: string, sub: string) {
    exists i :: 0 <= i <= |s| && OccursAt(s, sub, i)
  }

  /** A text contains each of its parts. */
  lemma ContainsConcat(a: string, b: string, sub: string)
    requires Contains(b, sub)
    ensures Contains(a + b, sub)
    ensures Contains(b + a, sub)
  {
    var i :| 0 <= i <= |b| && OccursAt(b, sub, i);
    assert (a + b)[|a| + i..|a| + i + |sub|] == sub;
    assert OccursAt(a + b, sub, |a| + i);
    assert (b + a)[i..i + |sub|] == sub;
    assert OccursAt(b + a, sub, i);
  }

  /** A text without the first character of `sub` does not contain `sub`. */
  lemma ContainsFirst(s: string, sub: string)
    requires sub != [] && Contains(s, sub)
    ensures sub[0] in s
  {
    var i :| 0 <= i <= |s| && OccursAt(s, sub, i);
    assert s[i] == s[i..i + |sub|][0];
  }

  /** A text holding a non-space character is not blank. */
  lemma NotBlank(s: string, c: char)
    requires c in s && !IsSpace(c)
    ensures Strip(s) != []
  {
    StripKeeps(s, c);
  }

  /** The lines joined with nothing between them: `f.read()` of a file read as `lines`, or a text built line by line. */
  function Concat(lines: seq<string>): string
    decreases |lines|
  {
    if lines == [] then [] else Concat(lines[..|lines| - 1]) + lines[|lines| - 1]
  }

  lemma ConcatSnoc(lines: seq<string>, line: string)
    ensures Concat(lines + [line]) == Concat(lines) + line
  {
    assert (lines + [line])[..|lines|] == lines;
  }

  lemma {:induction false} ConcatAppend(a: seq<string>, b: seq<string>)
    ensures Concat(a + b) == Concat(a) + Concat(b)
    decreases |b|
  {
    if b == [] {
      assert a + b == a;
    } else {
      var init, last := b[..|b| - 1], b[|b| - 1];
      assert (a + b)[..|a + b| - 1] == a + init;
      assert (a + b)[|a + b| - 1] == last;
      ConcatAppend(a, init);
      calc {
        Concat(a + b);
        Concat(a + init) + last;
        (Concat(a) + Concat(init)) + last;
        { assert (Concat(a) + Concat(init)) + last == Concat(a) + (Concat(init) + last); }
        Concat(a) + (Concat(init) + last);
      }
    }
  }
  /** Joined parts open with the first part. */
  lemma ConcatStartsWith(first: string, rest: seq<string>)
    ensures StartsWith(Concat([first] + rest), first)
  {
    ConcatAppend([first], rest);
    ConcatSnoc([], first);
    var whole := Concat([first] + rest);
    assert whole == first + Concat(rest);
    assert whole[..|first|] == first;
  }

  /** Joined parts close with the joined last parts. */
  lemma ConcatEndsWith(front: seq<string>, back: seq<string>)
    ensures EndsWith(Concat(front + back), Concat(back))
  {
    ConcatAppend(front, back);
    var whole := Concat(front + back);
    assert whole == Concat(front) + Concat(back);
    assert whole[|whole| - |Concat(back)|..] == Concat(back);
  }


  /** Index of the first occurrence of `c`, if any. */
  function IndexOf(s: string, c: char): (r: Option<nat>)
    ensures r.None? <==> c !in s
    ensures r.Some? ==> r.value < |s| && s[r.value] == c && c !in s[..r.value]
  {
    if s == [] then None
    else if s[0] == c then Some(0)
    else
      match IndexOf(s[1..], c)
      case None => None
      case Some(i) =>
        assert s[..i + 1] == [s[0]] + s[1..][..i];
        Some(i + 1)
  }

  /**
   * `s.split(c, 1)`: the text before the first `c` and, when there is one,
   * the text after it.
   */
  function SplitFirst(s: string, c: char): (r: (string, Option<string>))
    ensures c !in r.0
    ensures r.1.None? ==> r.0 == s
    ensures r.1.Some? ==> s == r.0 + [c] + r.1.value
  {
    match IndexOf(s, c)
    case None => (s, None)
    case Some(i) =>
      assert s == s[..i] + [c] + s[i + 1..];
      (s[..i], Some(s[i + 1..]))
  }

  /** `s.replace(pattern, replacement)`: left to right, non-overlapping. */
  function ReplaceAll(s: string, pattern: string, replacement: string): (r: string)
    requires pattern != []
    ensures replacement == [] ==> |r| <= |s|
    decreases |s|
  {
    if |s| < |pattern| then s
    else if StartsWith(s, pattern) then replacement + ReplaceAll(s[|pattern|..], pattern, replacement)
    else [s[0]] + ReplaceAll(s[1..], pattern, replacement)
  }

  /** Text without the pattern is left as it is. */
  lemma {:induction false} ReplaceAbsent(s: string, pattern: string, replacement: string)
    requires pattern != [] && !Contains(s, pattern)
    ensures ReplaceAll(s, pattern, replacement) == s
    decreases |s|
  {
    if |s| >= |pattern| {
      assert !StartsWith(s, pattern) by {
        if StartsWith(s, pattern) { assert OccursAt(s, pattern, 0); }
      }
      assert !Contains(s[1..], pattern) by {
        if Contains(s[1..], pattern) {
          var i :| 0 <= i <= |s[1..]| && OccursAt(s[1..], pattern, i);
          assert s[i + 1..i + 1 + |pattern|] == pattern;
          assert OccursAt(s, pattern, i + 1);
        }
      }
      ReplaceAbsent(s[1..], pattern, replacement);
    }
  }

  /** Splitting on the first separator undoes a join when the left part lacks it. */
  lemma SplitAt(a: string, b: string, c: char)
    requires c !in a
    ensures SplitFirst(a + [c] + b, c) == (a, Some(b))
  {
    var s := a + [c] + b;
    assert s[|a|] == c;
    var i := IndexOf(s, c).value;
    assert forall j :: 0 <= j < |a| ==> s[j] == a[j];
    assert forall j :: 0 <= j < i ==> s[..i][j] == s[j];
    assert i == |a|;
    assert s[..|a|] == a && s[|a| + 1..] == b;
  }
}
