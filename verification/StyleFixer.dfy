/**
 The line-by-line part of utils/check-style-clang-format.py: `check_manually_file` with the checks
 `check_tabs_line` and `check_whitespace_line`. A file is the text that Python reads in text mode; the
 messages for the user are left out.
 */
module StyleFixer {
  import opened Sequences

  const TAB_SIZE: nat := 4

  const FORMAT_GUARD_ON: seq<string> := ["// clang-format on", "# cmake-format: on", "# fmt: on"]

  const FORMAT_GUARD_OFF: seq<string> := ["// clang-format off", "# cmake-format: off", "# fmt: off"]

  // ----- Strings -----

  /** The characters that Python's `strip` removes. */
  predicate IsSpace(c: char) {
    || '\t' <= c <= '\r' || '\U{1C}' <= c <= ' ' || c == '\U{85}' || c == '\U{A0}' || c == '\U{1680}'
    || '\U{2000}' <= c <= '\U{200A}' || c == '\U{2028}' || c == '\U{2029}' || c == '\U{202F}'
    || c == '\U{205F}' || c == '\U{3000}'
  }

  predicate AllSpace(s: string) {
    forall i :: 0 <= i < |s| ==> IsSpace(s[i])
  }

  function RStrip(s: string): string {
    if s == "" then "" else if IsSpace(s[|s| - 1]) then RStrip(s[..|s| - 1]) else s
  }

  function LStrip(s: string): string {
    if s == "" then "" else if IsSpace(s[0]) then LStrip(s[1..]) else s
  }

  function Strip(s: string): string {
    LStrip(RStrip(s))
  }

  /** No space at either end. */
  predicate Trimmed(s: string) {
    s != "" ==> !IsSpace(s[0]) && !IsSpace(s[|s| - 1])
  }

  lemma {:induction false} RStripParts(s: string) returns (tail: string)
    ensures s == RStrip(s) + tail && AllSpace(tail)
    ensures RStrip(s) != "" ==> !IsSpace(RStrip(s)[|RStrip(s)| - 1])
  {
    if s == "" || !IsSpace(s[|s| - 1]) {
      tail := "";
    } else {
      tail := RStripParts(s[..|s| - 1]);
      assert s == RStrip(s) + (tail + [s[|s| - 1]]);
      tail := tail + [s[|s| - 1]];
    }
  }

  lemma {:induction false} LStripParts(s: string) returns (head: string)
    ensures s == head + LStrip(s) && AllSpace(head)
    ensures LStrip(s) != "" ==> !IsSpace(LStrip(s)[0])
  {
    if s == "" || !IsSpace(s[0]) {
      head := "";
    } else {
      head := LStripParts(s[1..]);
      assert s == ([s[0]] + head) + LStrip(s);
      head := [s[0]] + head;
    }
  }

  lemma {:induction false} RStripSpaces(s: string, tail: string)
    requires AllSpace(tail)
    ensures RStrip(s + tail) == RStrip(s)
  {
    if tail == "" {
      assert s + tail == s;
    } else {
      var n := |tail| - 1;
      assert (s + tail)[..|s + tail| - 1] == s + tail[..n];
      RStripSpaces(s, tail[..n]);
    }
  }

  lemma {:induction false} LStripSpaces(head: string, s: string)
    requires AllSpace(head)
    ensures LStrip(head + s) == LStrip(s)
  {
    if head == "" {
      assert head + s == s;
    } else {
      assert (head + s)[1..] == head[1..] + s;
      LStripSpaces(head[1..], s);
    }
  }

  lemma StripParts(s: string) returns (head: string, tail: string)
    ensures s == head + Strip(s) + tail && AllSpace(head) && AllSpace(tail) && Trimmed(Strip(s))
  {
    tail := RStripParts(s);
    head := LStripParts(RStrip(s));
    assert RStrip(s) == head + Strip(s);
    assert Strip(s) != "" ==> Strip(s)[|Strip(s)| - 1] == RStrip(s)[|RStrip(s)| - 1];
  }

  /** Spaces around a trimmed string are all that `Strip` takes away. */
  lemma StripUndoesPadding(head: string, core: string, tail: string)
    requires AllSpace(head) && AllSpace(tail) && Trimmed(core) && core != ""
    ensures Strip(head + core + tail) == core
  {
    RStripSpaces(head + core, tail);
    assert (head + core)[|head + core| - 1] == core[|core| - 1];
    LStripSpaces(head, core);
  }

  // ----- Tab expansion -----

  /** The display column after a text: tabs go to the next tab stop, a line end back to the first column. */
  function ColumnAfter(s: string): nat {
    if s == "" then 0
    else
      var column, c := ColumnAfter(s[..|s| - 1]), s[|s| - 1];
      if c == '\t' then column + TAB_SIZE - column % TAB_SIZE
      else if c == '\n' || c == '\r' then 0
      else column + 1
  }

  function Spaces(n: nat): (s: string)
    ensures |s| == n
    ensures forall i :: 0 <= i < n ==> s[i] == ' '
  {
    seq(n, _ => ' ')
  }

  function ExpandTabs(s: string): string {
    if s == "" then ""
    else
      var front, c := s[..|s| - 1], s[|s| - 1];
      ExpandTabs(front) + if c == '\t' then Spaces(TAB_SIZE - ColumnAfter(front) % TAB_SIZE) else [c]
  }

  lemma ExpandLast(s: string, c: char)
    ensures ExpandTabs(s + [c]) ==
      ExpandTabs(s) + if c == '\t' then Spaces(TAB_SIZE - ColumnAfter(s) % TAB_SIZE) else [c]
  {
    assert (s + [c])[..|s|] == s;
  }

  /** A line end takes the column back, so what stands behind it is expanded as if it stood alone. */
  lemma {:induction false} ExpandAfterLineEnd(s: string, c: char, t: string)
    requires c == '\n' || c == '\r'
    ensures ColumnAfter(s + [c] + t) == ColumnAfter(t)
    ensures ExpandTabs(s + [c] + t) == ExpandTabs(s) + [c] + ExpandTabs(t)
  {
    if t == "" {
      assert s + [c] + t == s + [c];
      ExpandLast(s, c);
      ExpandNothing();
      assert ExpandTabs(s) + [c] + "" == ExpandTabs(s) + [c];
    } else {
      var front, last := t[..|t| - 1], t[|t| - 1];
      ExpandAfterLineEnd(s, c, front);
      assert s + [c] + t == s + [c] + front + [last] && t == front + [last];
      ExpandLast(s + [c] + front, last);
      ExpandLast(front, last);
    }
  }

  lemma {:induction false} ExpandLeavesNoTab(s: string)
    ensures '\t' !in ExpandTabs(s)
  {
    if s != "" {
      ExpandLeavesNoTab(s[..|s| - 1]);
    }
  }

  lemma {:induction false} ExpandKeepsText(s: string, t: string)
    requires '\t' !in t
    ensures ExpandTabs(s + t) == ExpandTabs(s) + t
  {
    hide ExpandTabs, ColumnAfter;
    if t == "" {
      assert s + t == s;
      assert ExpandTabs(s) + t == ExpandTabs(s);
    } else {
      var n := |t| - 1;
      var front, c := t[..n], t[n];
      ExpandKeepsText(s, front);
      ExpandLast(s + front, c);
      assert t == front + [c];
      ConcatAssociative(s, front, [c]);
      ConcatAssociative(ExpandTabs(s), front, [c]);
    }
  }

  lemma {:induction false} ExpandKeepsSpaces(s: string, t: string) returns (u: string)
    requires AllSpace(t)
    ensures ExpandTabs(s + t) == ExpandTabs(s) + u && AllSpace(u)
  {
    hide ExpandTabs, ColumnAfter;
    if t == "" {
      assert s + t == s;
      u := "";
      assert ExpandTabs(s) + u == ExpandTabs(s);
    } else {
      var n := |t| - 1;
      var front, c := t[..n], t[n];
      var v := ExpandKeepsSpaces(s, front);
      ExpandLast(s + front, c);
      assert t == front + [c];
      ConcatAssociative(s, front, [c]);
      var last := if c == '\t' then Spaces(TAB_SIZE - ColumnAfter(s + front) % TAB_SIZE) else [c];
      ConcatAssociative(ExpandTabs(s), v, last);
      u := v + last;
    }
  }

  predicate NoLineEnd(s: string) {
    '\n' !in s && '\r' !in s
  }

  lemma {:induction false} ExpandedLength(s: string)
    requires NoLineEnd(s)
    ensures |ExpandTabs(s)| == ColumnAfter(s)
  {
    if s != "" {
      ExpandedLength(s[..|s| - 1]);
    }
  }

  lemma {:induction false} ExpandPrefix(s: string, i: nat)
    requires i <= |s|
    ensures ExpandTabs(s[..i]) <= ExpandTabs(s)
  {
    if i == |s| {
      assert s[..i] == s;
    } else {
      assert s[..|s| - 1][..i] == s[..i];
      ExpandPrefix(s[..|s| - 1], i);
    }
  }

  /** Every character other than a tab stays in its display column. */
  lemma ExpandKeepsColumns(s: string, i: nat)
    requires i < |s| && s[i] != '\t' && NoLineEnd(s[..i])
    ensures ColumnAfter(s[..i]) < |ExpandTabs(s)| && ExpandTabs(s)[ColumnAfter(s[..i])] == s[i]
  {
    ExpandedLength(s[..i]);
    ExpandLast(s[..i], s[i]);
    assert s[..i + 1] == s[..i] + [s[i]];
    ExpandPrefix(s, i + 1);
  }

  /** And all that is in the other columns of the expanded line are spaces. */
  lemma {:induction false} ExpandFillsWithSpaces(s: string, p: nat)
    requires NoLineEnd(s) && p < |ExpandTabs(s)|
    ensures ExpandTabs(s)[p] == ' ' || exists i :: 0 <= i < |s| && s[i] != '\t' && p == ColumnAfter(s[..i])
  {
    var n := |s| - 1;
    var front := s[..n];
    ExpandedLength(front);
    if p < |ExpandTabs(front)| {
      ExpandFillsWithSpaces(front, p);
      if i :| 0 <= i < |front| && front[i] != '\t' && p == ColumnAfter(front[..i]) {
        assert front[..i] == s[..i];
      }
    } else if s[n] != '\t' {
      assert p == ColumnAfter(s[..n]);
    }
  }

  // ----- The checks of a line -----

  /** What a check says about a line: whether it is compliant, and the line as it should be. */
  type LineCheck = string -> (bool, string)

  function CheckTabsLine(line: string): (bool, string) {
    if '\t' in line then (false, ExpandTabs(line)) else (true, line)
  }

  function CheckWhitespaceLine(line: string): (bool, string) {
    var fixed := RStrip(line) + "\n";
    (fixed == line, fixed)
  }

  // ----- The file -----

  predicate IsGuardOn(line: string) {
    Strip(line) in FORMAT_GUARD_ON
  }

  predicate IsGuardOff(line: string) {
    !IsGuardOn(line) && Strip(line) in FORMAT_GUARD_OFF
  }

  /** Whether formatting is enabled after the first n lines. */
  function EnabledAfter(lines: seq<string>, n: nat): bool
    requires n <= |lines|
  {
    if n == 0 then true
    else if IsGuardOn(lines[n - 1]) then true
    else if IsGuardOff(lines[n - 1]) then false
    else EnabledAfter(lines, n - 1)
  }

  predicate IsGuard(line: string) {
    IsGuardOn(line) || IsGuardOff(line)
  }

  /** The last guard in front of line n is one that switches formatting off. */
  ghost predicate IsSwitchedOff(lines: seq<string>, n: nat)
    requires n <= |lines|
  {
    exists j :: 0 <= j < n && IsGuardOff(lines[j]) && forall k :: j < k < n ==> !IsGuard(lines[k])
  }

  /** Whether a line is looked at: unless guards are respected, it is none, and formatting is switched off there. */
  ghost predicate IsChecked(lines: seq<string>, respectGuards: bool, i: nat)
    requires i < |lines|
  {
    !(respectGuards && !IsGuard(lines[i]) && IsSwitchedOff(lines, i))
  }

  lemma {:induction false} EnabledUnlessSwitchedOff(lines: seq<string>, n: nat)
    requires n <= |lines|
    ensures EnabledAfter(lines, n) <==> !IsSwitchedOff(lines, n)
  {
    hide IsGuardOn;
    if n > 0 {
      EnabledUnlessSwitchedOff(lines, n - 1);
      if IsSwitchedOff(lines, n - 1) && !IsGuard(lines[n - 1]) {
        var j :| 0 <= j < n - 1 && IsGuardOff(lines[j]) && forall k :: j < k < n - 1 ==> !IsGuard(lines[k]);
        assert IsSwitchedOff(lines, n);
      }
      if IsGuardOff(lines[n - 1]) {
        assert IsSwitchedOff(lines, n);
      }
    }
  }

  /** The flag that is kept from line to line says which lines are looked at. */
  lemma CheckedIffEnabled(lines: seq<string>, respectGuards: bool, i: nat)
    requires i < |lines|
    ensures IsChecked(lines, respectGuards, i) <==> !respectGuards || IsGuard(lines[i]) || EnabledAfter(lines, i + 1)
  {
    EnabledUnlessSwitchedOff(lines, i);
    hide IsGuardOn, IsSwitchedOff;
  }

  lemma EveryCheckedIffEnabled(lines: seq<string>, respectGuards: bool)
    ensures forall i :: 0 <= i < |lines| ==>
      (IsChecked(lines, respectGuards, i) <==> !respectGuards || IsGuard(lines[i]) || EnabledAfter(lines, i + 1))
  {
    forall i | 0 <= i < |lines|
      ensures IsChecked(lines, respectGuards, i) <==> !respectGuards || IsGuard(lines[i]) || EnabledAfter(lines, i + 1)
    {
      CheckedIffEnabled(lines, respectGuards, i);
    }
  }

  ghost predicate Compliant(lines: seq<string>, respectGuards: bool, check: LineCheck) {
    forall i :: 0 <= i < |lines| && IsChecked(lines, respectGuards, i) ==> check(lines[i]).0
  }

  ghost function Fixed(lines: seq<string>, respectGuards: bool, check: LineCheck): (r: seq<string>)
    ensures |r| == |lines|
    ensures forall i :: 0 <= i < |r| ==>
      r[i] == if IsChecked(lines, respectGuards, i) && !check(lines[i]).0 then check(lines[i]).1 else lines[i]
  {
    seq(|lines|, i requires 0 <= i < |lines| =>
      if IsChecked(lines, respectGuards, i) && !check(lines[i]).0 then check(lines[i]).1 else lines[i])
  }

  /**
   The verdict is that of a full scan although a check that neither fixes nor reports stops at the first
   bad line; the file is rewritten only to fix it, and then every bad line that is looked at is replaced.
   */
  method CheckManuallyFile(lines: seq<string>, fix: bool, verbose: bool, respectGuards: bool, check: LineCheck)
    returns (isFileCompliant: bool, written: seq<string>)
    ensures isFileCompliant <==> Compliant(lines, respectGuards, check)
    ensures written == if fix then Fixed(lines, respectGuards, check) else lines
  {
    EveryCheckedIffEnabled(lines, respectGuards);
    hide IsGuardOn, IsGuardOff, IsChecked;
    isFileCompliant := true;
    var clangFormatEnabled := true;
    var fileLines := lines;
    var i := 0;
    while i < |lines|
      invariant 0 <= i <= |lines| == |fileLines|
      invariant clangFormatEnabled == (!respectGuards || EnabledAfter(lines, i))
      invariant isFileCompliant <==> forall k :: 0 <= k < i && IsChecked(lines, respectGuards, k) ==> check(lines[k]).0
      invariant isFileCompliant ==> fileLines == lines
      invariant forall k :: 0 <= k < i ==> fileLines[k] == Fixed(lines, respectGuards, check)[k]
      invariant forall k :: i <= k < |lines| ==> fileLines[k] == lines[k]
    {
      var line := lines[i];
      if respectGuards {
        if IsGuardOn(line) {
          clangFormatEnabled := true;
        } else if IsGuardOff(line) {
          clangFormatEnabled := false;
        }
        if !clangFormatEnabled && !(IsGuardOn(line) || IsGuardOff(line)) {
          i := i + 1;
          continue;
        }
      }
      var (isLineCompliant, lineFixed) := check(line);
      if !isLineCompliant {
        isFileCompliant := false;
        fileLines := fileLines[i := lineFixed];
        if !fix && !verbose {
          break;
        }
      }
      i := i + 1;
    }
    if fix && !isFileCompliant {
      written := fileLines;
    } else {
      written := lines;
    }
  }

  // ----- Files as text -----

  /** Where the first line of a text ends. */
  function LineLength(text: string): (n: nat)
    requires text != ""
    ensures 0 < n <= |text|
    ensures '\n' !in text[..n - 1]
    ensures n < |text| ==> text[n - 1] == '\n'
  {
    if text[0] == '\n' || |text| == 1 then 1
    else
      var n := LineLength(text[1..]);
      assert text[..n] == [text[0]] + text[1..][..n - 1];
      n + 1
  }

  /** The lines of a text, each with the line end it has. */
  function ReadLines(text: string): seq<string> {
    if text == "" then [] else [text[..LineLength(text)]] + ReadLines(text[LineLength(text)..])
  }

  function WriteLines(lines: seq<string>): string {
    if lines == [] then "" else lines[0] + WriteLines(lines[1..])
  }

  ghost predicate IsLine(line: string) {
    line != "" && '\n' !in line[..|line| - 1]
  }

  ghost predicate EndsLine(line: string) {
    line != "" && line[|line| - 1] == '\n'
  }

  /** Each entry is a line, and only the last may lack its line end. */
  ghost predicate AreLines(lines: seq<string>) {
    && (forall i :: 0 <= i < |lines| ==> IsLine(lines[i]))
    && (forall i :: 0 <= i < |lines| - 1 ==> EndsLine(lines[i]))
  }

  lemma OneMoreLine(line: string, rest: seq<string>)
    requires IsLine(line) && AreLines(rest) && (rest != [] ==> EndsLine(line))
    ensures AreLines([line] + rest)
  {
    hide IsLine, EndsLine;
    var lines := [line] + rest;
    forall i | 0 <= i < |lines| ensures IsLine(lines[i]) {
      assert i > 0 ==> lines[i] == rest[i - 1];
    }
    forall i | 0 <= i < |lines| - 1 ensures EndsLine(lines[i]) {
      assert i > 0 ==> lines[i] == rest[i - 1];
    }
  }

  lemma CutLine(text: string)
    requires text != ""
    ensures var n := LineLength(text);
      0 < n <= |text| && IsLine(text[..n]) && (text[n..] != "" ==> EndsLine(text[..n]))
  {
    var n := LineLength(text);
    assert text[..n][..n - 1] == text[..n - 1];
  }

  lemma {:induction false} ReadLinesAreLines(text: string)
    ensures AreLines(ReadLines(text)) && WriteLines(ReadLines(text)) == text
    decreases |text|
  {
    if text != "" {
      CutLine(text);
      hide LineLength, AreLines, IsLine, EndsLine;
      var n := LineLength(text);
      ReadLinesAreLines(text[n..]);
      var rest := ReadLines(text[n..]);
      OneMoreLine(text[..n], rest);
      assert ([text[..n]] + rest)[1..] == rest;
      assert text == text[..n] + text[n..];
    } else {
      assert AreLines([]);
    }
  }

  lemma FirstLine(line: string, rest: string)
    requires IsLine(line) && (rest != "" ==> EndsLine(line))
    ensures LineLength(line + rest) == |line|
  {
    var text := line + rest;
    var n := LineLength(text);
    assert forall k :: 0 <= k < |line| - 1 ==> line[..|line| - 1][k] == line[k];
    assert forall k :: 0 <= k < n - 1 ==> text[..n - 1][k] == text[k];
    assert text[|line| - 1] == line[|line| - 1];
  }

  lemma FewerLines(lines: seq<string>)
    requires AreLines(lines) && lines != []
    ensures AreLines(lines[1..]) && IsLine(lines[0])
    ensures WriteLines(lines[1..]) != "" ==> EndsLine(lines[0])
  {
    hide IsLine, EndsLine;
    var rest := lines[1..];
    forall i | 0 <= i < |rest| ensures IsLine(rest[i]) {
      assert rest[i] == lines[i + 1];
    }
    forall i | 0 <= i < |rest| - 1 ensures EndsLine(rest[i]) {
      assert rest[i] == lines[i + 1];
    }
  }

  lemma ReadFirst(line: string, rest: string)
    requires IsLine(line) && (rest != "" ==> EndsLine(line))
    ensures ReadLines(line + rest) == [line] + ReadLines(rest)
  {
    FirstLine(line, rest);
    hide IsLine, EndsLine, LineLength;
    assert (line + rest)[..|line|] == line && (line + rest)[|line|..] == rest;
  }

  /** Written lines are read back as they were. */
  lemma {:induction false} ReadBack(lines: seq<string>)
    requires AreLines(lines)
    ensures ReadLines(WriteLines(lines)) == lines
  {
    if lines != [] {
      FewerLines(lines);
      assert WriteLines(lines) == lines[0] + WriteLines(lines[1..]);
      hide *;
      ReadBack(lines[1..]);
      ReadFirst(lines[0], WriteLines(lines[1..]));
      assert lines == [lines[0]] + lines[1..];
    }
  }

  /** The text of a file after a run that fixes it. */
  ghost function FixText(text: string, respectGuards: bool, check: LineCheck): string {
    var lines := ReadLines(text);
    if Compliant(lines, respectGuards, check) then text else WriteLines(Fixed(lines, respectGuards, check))
  }

  lemma FixTextLines(text: string, respectGuards: bool, check: LineCheck)
    requires AreLines(Fixed(ReadLines(text), respectGuards, check))
    ensures ReadLines(FixText(text, respectGuards, check)) == Fixed(ReadLines(text), respectGuards, check)
  {
    var lines := ReadLines(text);
    if Compliant(lines, respectGuards, check) {
      assert Fixed(lines, respectGuards, check) == lines;
    } else {
      ReadBack(Fixed(lines, respectGuards, check));
    }
  }

  // ----- Fixing keeps lines lines -----

  lemma ExpandKeepsLine(line: string)
    requires IsLine(line)
    ensures IsLine(ExpandTabs(line))
    ensures EndsLine(line) ==> EndsLine(ExpandTabs(line))
  {
    var n := |line| - 1;
    var front := line[..n];
    ExpandNoNewline(front);
    assert line == front + [line[n]];
    ExpandLast(front, line[n]);
    var last := if line[n] == '\t' then Spaces(TAB_SIZE - ColumnAfter(front) % TAB_SIZE) else [line[n]];
    var expanded := ExpandTabs(front) + last;
    assert ExpandTabs(line) == expanded && |last| > 0;
    if line[n] == '\t' {
      assert '\n' !in last;
    } else {
      assert expanded[..|expanded| - 1] == ExpandTabs(front);
    }
  }

  lemma {:induction false} ExpandNoNewline(s: string)
    requires '\n' !in s
    ensures '\n' !in ExpandTabs(s)
  {
    if s != "" {
      ExpandNoNewline(s[..|s| - 1]);
    }
  }

  lemma TabsFixedAreLines(lines: seq<string>, respectGuards: bool)
    requires AreLines(lines)
    ensures AreLines(Fixed(lines, respectGuards, CheckTabsLine))
  {
    forall i | 0 <= i < |lines|
      ensures IsLine(ExpandTabs(lines[i])) && (EndsLine(lines[i]) ==> EndsLine(ExpandTabs(lines[i])))
    {
      ExpandKeepsLine(lines[i]);
    }
  }

  lemma WhitespaceFixedLine(line: string)
    requires IsLine(line)
    ensures IsLine(RStrip(line) + "\n") && EndsLine(RStrip(line) + "\n")
  {
    var tail := RStripParts(line);
    var core := RStrip(line);
    assert (core + "\n")[..|core + "\n"| - 1] == core;
    forall k | 0 <= k < |core| ensures core[k] != '\n' {
      assert k < |line| - 1 ==> core[k] == line[..|line| - 1][k];
    }
  }

  lemma WhitespaceFixedAreLines(lines: seq<string>)
    requires AreLines(lines)
    ensures AreLines(Fixed(lines, false, CheckWhitespaceLine))
  {
    forall i | 0 <= i < |lines|
      ensures IsLine(RStrip(lines[i]) + "\n") && EndsLine(RStrip(lines[i]) + "\n")
    {
      WhitespaceFixedLine(lines[i]);
    }
  }

  // ----- Guards and tabs -----

  lemma GuardText(core: string)
    requires core in FORMAT_GUARD_OFF
    ensures '\t' !in core && core != "" && core !in FORMAT_GUARD_ON
  {
    assert |FORMAT_GUARD_ON[0]| == 18 && |FORMAT_GUARD_ON[1]| == 18 && |FORMAT_GUARD_ON[2]| == 9;
    assert |FORMAT_GUARD_OFF[0]| == 19 && |FORMAT_GUARD_OFF[1]| == 19 && |FORMAT_GUARD_OFF[2]| == 10;
  }

  lemma GuardOnText(core: string)
    requires core in FORMAT_GUARD_ON
    ensures '\t' !in core && core != ""
  {
  }

  /** Expanding tabs around a text without any does not change what remains when the line is stripped. */
  lemma StripOfExpanded(line: string)
    requires Strip(line) != "" && '\t' !in Strip(line)
    ensures Strip(ExpandTabs(line)) == Strip(line)
  {
    var core := Strip(line);
    hide ExpandTabs, Strip, IsSpace;
    var head, tail := StripParts(line);
    var h := ExpandKeepsSpaces("", head);
    assert "" + head == head;
    assert ExpandTabs("") + h == h by {
      ExpandNothing();
    }
    ExpandKeepsText(head, core);
    var t := ExpandKeepsSpaces(head + core, tail);
    StripUndoesPadding(h, core, t);
  }

  /** A guard that switches formatting off still does so when its tabs are expanded. */
  lemma GuardOffStaysOff(line: string)
    requires IsGuardOff(line)
    ensures IsGuardOff(ExpandTabs(line))
  {
    hide ExpandTabs, Strip, FORMAT_GUARD_OFF, FORMAT_GUARD_ON;
    GuardText(Strip(line));
    StripOfExpanded(line);
  }

  /** And one that switches it on still does. */
  lemma GuardOnStaysOn(line: string)
    requires IsGuardOn(line)
    ensures IsGuardOn(ExpandTabs(line))
  {
    hide ExpandTabs, Strip, FORMAT_GUARD_OFF, FORMAT_GUARD_ON;
    GuardOnText(Strip(line));
    StripOfExpanded(line);
  }

  lemma ExpandNothing()
    ensures ExpandTabs("") == ""
  {
  }

  /**
   Where formatting is enabled after the tabs have been expanded, it was enabled before. When the converse
   holds is said below.
   */
  lemma {:induction false} EnabledOnlyWhereBefore(lines: seq<string>, n: nat)
    requires n <= |lines|
    ensures EnabledAfter(Fixed(lines, true, CheckTabsLine), n) ==> EnabledAfter(lines, n)
  {
    hide IsGuardOn, IsGuardOff, CheckTabsLine;
    if n > 0 {
      EnabledOnlyWhereBefore(lines, n - 1);
      if IsGuardOff(lines[n - 1]) {
        FixedGuardOff(lines, n - 1);
      } else if !EnabledAfter(lines, n) {
        DisabledLinesUntouched(lines, CheckTabsLine, n - 1);
      }
    }
  }

  lemma FixedGuardOff(lines: seq<string>, i: nat)
    requires i < |lines| && IsGuardOff(lines[i])
    ensures IsGuardOff(Fixed(lines, true, CheckTabsLine)[i]) && !IsGuardOn(Fixed(lines, true, CheckTabsLine)[i])
  {
    GuardOffStaysOff(lines[i]);
    hide Strip;
  }

  /** Expanding the tabs of a line that is looked at makes it a guard that switches formatting off. */
  ghost predicate MakesGuard(lines: seq<string>, i: nat)
    requires i < |lines|
  {
    && EnabledAfter(lines, i + 1) && !IsGuardOn(lines[i])
    && IsGuardOff(Fixed(lines, true, CheckTabsLine)[i])
  }

  lemma FixedGuardOn(lines: seq<string>, i: nat)
    requires i < |lines| && IsGuardOn(lines[i])
    ensures IsGuardOn(Fixed(lines, true, CheckTabsLine)[i])
  {
    GuardOnStaysOn(lines[i]);
    hide Strip;
  }

  lemma {:induction false} EnabledWhereBefore(lines: seq<string>, n: nat)
    requires n <= |lines| && forall i :: 0 <= i < n ==> !MakesGuard(lines, i)
    ensures EnabledAfter(lines, n) ==> EnabledAfter(Fixed(lines, true, CheckTabsLine), n)
  {
    hide IsGuardOn, IsGuardOff, CheckTabsLine;
    if n > 0 {
      EnabledWhereBefore(lines, n - 1);
      assert !MakesGuard(lines, n - 1);
      if IsGuardOn(lines[n - 1]) {
        FixedGuardOn(lines, n - 1);
      }
    }
  }

  /** Fixing tabs leaves formatting on and off where it was if and only if it makes no new guard. */
  lemma GuardsAgreeIffNoneIsMade(lines: seq<string>)
    ensures (forall n :: 0 <= n <= |lines| ==>
              EnabledAfter(Fixed(lines, true, CheckTabsLine), n) == EnabledAfter(lines, n))
      <==> forall i :: 0 <= i < |lines| ==> !MakesGuard(lines, i)
  {
    hide *;
    var fixed := Fixed(lines, true, CheckTabsLine);
    if forall i :: 0 <= i < |lines| ==> !MakesGuard(lines, i) {
      forall n | 0 <= n <= |lines| ensures EnabledAfter(fixed, n) == EnabledAfter(lines, n) {
        EnabledOnlyWhereBefore(lines, n);
        EnabledWhereBefore(lines, n);
      }
    } else {
      var i :| 0 <= i < |lines| && MakesGuard(lines, i);
      MadeGuardDisagrees(lines, i);
      assert EnabledAfter(fixed, i + 1) != EnabledAfter(lines, i + 1);
    }
  }

  lemma MadeGuardDisagrees(lines: seq<string>, i: nat)
    requires i < |lines| && MakesGuard(lines, i)
    ensures EnabledAfter(lines, i + 1) && !EnabledAfter(Fixed(lines, true, CheckTabsLine), i + 1)
  {
    hide CheckTabsLine, Strip;
  }

  lemma TabsFixedIsCompliant(lines: seq<string>)
    ensures Compliant(Fixed(lines, true, CheckTabsLine), true, CheckTabsLine)
  {
    hide IsGuardOn, IsGuardOff, EnabledAfter, ExpandTabs, IsChecked;
    var fixed := Fixed(lines, true, CheckTabsLine);
    EveryCheckedIffEnabled(lines, true);
    EveryCheckedIffEnabled(fixed, true);
    forall i | 0 <= i < |fixed| && IsChecked(fixed, true, i) ensures CheckTabsLine(fixed[i]).0 {
      EnabledOnlyWhereBefore(lines, i + 1);
      ExpandLeavesNoTab(lines[i]);
    }
  }

  /** A file whose tabs have been fixed passes the tab check when it is read again, and is not changed further. */
  lemma FixingTabsIsFinal(text: string)
    ensures var fixed := FixText(text, true, CheckTabsLine);
      Compliant(ReadLines(fixed), true, CheckTabsLine) && FixText(fixed, true, CheckTabsLine) == fixed
  {
    ReadLinesAreLines(text);
    TabsFixedAreLines(ReadLines(text), true);
    FixTextLines(text, true, CheckTabsLine);
    TabsFixedIsCompliant(ReadLines(text));
  }

  /** Lines where formatting is off are left as they are, guards excepted. */
  lemma DisabledLinesUntouched(lines: seq<string>, check: LineCheck, i: nat)
    requires i < |lines| && !EnabledAfter(lines, i + 1) && !IsGuardOff(lines[i])
    ensures Fixed(lines, true, check)[i] == lines[i]
  {
    CheckedIffEnabled(lines, true, i);
    hide IsChecked, IsGuardOn;
  }

  /** The same by the guards in front of a line. */
  lemma SwitchedOffLinesUntouched(lines: seq<string>, check: LineCheck, i: nat)
    requires i < |lines| && !IsGuard(lines[i]) && IsSwitchedOff(lines, i)
    ensures Fixed(lines, true, check)[i] == lines[i]
  {
    hide IsGuard, IsSwitchedOff;
  }

  /** A file that is never switched off gets the same verdict and fixes whether or not guards are respected. */
  lemma WithoutGuards(lines: seq<string>, check: LineCheck)
    requires forall i :: 0 <= i < |lines| ==> !IsGuardOff(lines[i])
    ensures Compliant(lines, true, check) <==> Compliant(lines, false, check)
    ensures Fixed(lines, true, check) == Fixed(lines, false, check)
  {
    forall i | 0 <= i < |lines| ensures IsChecked(lines, true, i) && IsChecked(lines, false, i) {
      NotSwitchedOff(lines, i);
    }
    hide IsChecked, IsGuard;
  }

  lemma NotSwitchedOff(lines: seq<string>, n: nat)
    requires n <= |lines| && forall i :: 0 <= i < |lines| ==> !IsGuardOff(lines[i])
    ensures !IsSwitchedOff(lines, n)
  {
    hide IsGuardOn;
  }

  /** The tab check rewrites a line with a leading tab, to four spaces. */
  lemma LeadingTab()
    ensures CheckTabsLine("\tint x;\n") == (false, "    int x;\n")
  {
    var after := "int x;\n";
    assert "" + ['\t'] + after == "\tint x;\n";
    ExpandOneTab("", after);
    assert Spaces(4) == "    ";
    assert "" + "    " + after == "    int x;\n";
    assert "\tint x;\n"[0] == '\t';
    hide ExpandTabs;
  }

  /** So that line alone in a file does not pass and is fixed, whether or not guards are respected. */
  lemma LeadingTabIsFixed(respectGuards: bool)
    ensures !Compliant(["\tint x;\n"], respectGuards, CheckTabsLine)
    ensures Fixed(["\tint x;\n"], respectGuards, CheckTabsLine) == ["    int x;\n"]
  {
    LeadingTab();
    hide IsGuard, CheckTabsLine;
    assert IsChecked(["\tint x;\n"], respectGuards, 0);
  }

  /** A line is a guard by what is left of it between its spaces. */
  lemma AroundGuard(head: string, core: string, tail: string)
    requires AllSpace(head) && AllSpace(tail) && Trimmed(core) && core != ""
    ensures IsGuardOff(head + core + tail) <==> core in ["// clang-format off", "# cmake-format: off", "# fmt: off"]
    ensures IsGuardOn(head + core + tail) <==> core in ["// clang-format on", "# cmake-format: on", "# fmt: on"]
  {
    if core in FORMAT_GUARD_OFF {
      GuardText(core);
    }
    hide Strip;
    StripUndoesPadding(head, core, tail);
  }

  /** The characters that count as spaces. */
  lemma SpacesAre(c: char)
    ensures IsSpace(c) <==>
      || c == ' ' || c == '\t' || c == '\n' || c == '\U{B}' || c == '\U{C}' || c == '\r'
      || c == '\U{1C}' || c == '\U{1D}' || c == '\U{1E}' || c == '\U{1F}' || c == '\U{85}' || c == '\U{A0}'
      || c == '\U{1680}' || c == '\U{2000}' || c == '\U{2001}' || c == '\U{2002}' || c == '\U{2003}'
      || c == '\U{2004}' || c == '\U{2005}' || c == '\U{2006}' || c == '\U{2007}' || c == '\U{2008}'
      || c == '\U{2009}' || c == '\U{200A}' || c == '\U{2028}' || c == '\U{2029}' || c == '\U{202F}'
      || c == '\U{205F}' || c == '\U{3000}'
  {
  }

  lemma ExpandWithoutTabs(s: string)
    requires NoLineEnd(s) && '\t' !in s
    ensures ExpandTabs(s) == s && ColumnAfter(s) == |s|
  {
    ExpandKeepsText("", s);
    ExpandNothing();
    assert "" + s == s;
    ExpandedLength(s);
  }

  lemma ExpandOneTab(before: string, after: string)
    requires NoLineEnd(before) && '\t' !in before && '\t' !in after
    ensures ExpandTabs(before + ['\t'] + after) == before + Spaces(TAB_SIZE - |before| % TAB_SIZE) + after
  {
    ExpandWithoutTabs(before);
    ExpandLast(before, '\t');
    hide *;
    ExpandKeepsText(before + ['\t'], after);
  }

  /** A line with a tab in it can be an ordinary line before it is fixed and a guard afterwards. */
  lemma FixCanMakeGuard()
    ensures var line := "// clang-format" + "\t" + "off";
      !IsGuardOn(line) && !IsGuardOff(line) && IsGuardOff(CheckTabsLine(line).1)
  {
    var line, fixed := "// clang-format" + "\t" + "off", "// clang-format" + " " + "off";
    ExpandOneTab("// clang-format", "off");
    assert Spaces(1) == " ";
    assert line[15] == '\t' && fixed == FORMAT_GUARD_OFF[0];
    TrimmedStays(line);
    TrimmedStays(fixed);
    GuardText(fixed);
    hide ExpandTabs, Strip;
    assert |line| == 19 && FORMAT_GUARD_OFF[0][15] == ' ' && FORMAT_GUARD_OFF[1][0] == '#';
  }

  lemma TrimmedStays(s: string)
    requires Trimmed(s) && s != ""
    ensures Strip(s) == s
  {
    assert "" + s + "" == s;
    StripUndoesPadding("", s, "");
  }

  // ----- What the checks of a line say -----

  /** The tab check accepts exactly the lines without a tab, and leaves them as they are. */
  lemma TabsVerdict(line: string)
    ensures CheckTabsLine(line).0 <==> '\t' !in line
    ensures CheckTabsLine(line).0 ==> CheckTabsLine(line).1 == line
    ensures '\t' !in CheckTabsLine(line).1
  {
    ExpandLeavesNoTab(line);
    hide ExpandTabs;
  }

  /** The whitespace check accepts exactly the lines that end in one line feed with no other space in front of it. */
  lemma WhitespaceVerdict(line: string)
    ensures CheckWhitespaceLine(line).0 <==>
      line != "" && line[|line| - 1] == '\n' && (|line| > 1 ==> !IsSpace(line[|line| - 2]))
  {
    var tail := RStripParts(line);
    var core := RStrip(line);
    if line == core + "\n" {
      assert |line| > 1 ==> line[|line| - 2] == core[|core| - 1];
    }
    if line != "" && line[|line| - 1] == '\n' && (|line| > 1 ==> !IsSpace(line[|line| - 2])) {
      var front := line[..|line| - 1];
      assert line == front + "\n";
      RStripSpaces(front, "\n");
    }
  }

  /** What it takes away is whitespace at the end of the line, and what it adds is a line feed. */
  lemma WhitespaceFix(line: string) returns (core: string, tail: string)
    ensures line == core + tail && AllSpace(tail) && (core != "" ==> !IsSpace(core[|core| - 1]))
    ensures CheckWhitespaceLine(line).1 == core + "\n"
  {
    core := RStrip(line);
    tail := RStripParts(line);
  }

  // ----- Both passes -----

  /** Expanding tabs does not bring trailing whitespace back. */
  lemma ExpandKeepsWhitespaceOk(line: string)
    requires CheckWhitespaceLine(line).0
    ensures CheckWhitespaceLine(ExpandTabs(line)).0
  {
    var core := RStrip(line);
    var tail := RStripParts(line);
    assert line == core + "\n";
    ExpandKeepsText(core, "\n");
    if core != "" {
      var n := |core| - 1;
      assert core == core[..n] + [core[n]];
      ExpandLast(core[..n], core[n]);
    }
    RStripSpaces(ExpandTabs(core), "\n");
  }

  lemma RStripTwice(line: string)
    ensures RStrip(RStrip(line) + "\n") == RStrip(line)
  {
    var tail := RStripParts(line);
    RStripSpaces(RStrip(line), "\n");
  }

  lemma WhitespaceFixedIsCompliant(lines: seq<string>)
    ensures Compliant(Fixed(lines, false, CheckWhitespaceLine), false, CheckWhitespaceLine)
  {
    forall i | 0 <= i < |lines| ensures CheckWhitespaceLine(RStrip(lines[i]) + "\n").0 {
      RStripTwice(lines[i]);
    }
  }

  /** After the whitespace pass and then the tab pass a file passes both checks. */
  lemma WhitespaceThenTabs(text: string)
    ensures var fixed := FixText(FixText(text, false, CheckWhitespaceLine), true, CheckTabsLine);
      && Compliant(ReadLines(fixed), false, CheckWhitespaceLine)
      && Compliant(ReadLines(fixed), true, CheckTabsLine)
  {
    hide ReadLines, FixText, Fixed, Compliant, AreLines;
    var between := FixText(text, false, CheckWhitespaceLine);
    var fixed := FixText(between, true, CheckTabsLine);
    ReadLinesAreLines(text);
    WhitespaceFixedAreLines(ReadLines(text));
    FixTextLines(text, false, CheckWhitespaceLine);
    WhitespaceFixedIsCompliant(ReadLines(text));
    FixingTabsIsFinal(between);
    ReadLinesAreLines(between);
    TabsFixedAreLines(ReadLines(between), true);
    FixTextLines(between, true, CheckTabsLine);
    TabsKeepWhitespaceOk(ReadLines(between));
  }

  lemma TabsKeepWhitespaceOk(lines: seq<string>)
    requires Compliant(lines, false, CheckWhitespaceLine)
    ensures Compliant(Fixed(lines, true, CheckTabsLine), false, CheckWhitespaceLine)
  {
    hide CheckWhitespaceLine;
    forall i | 0 <= i < |lines|
      ensures CheckWhitespaceLine(Fixed(lines, true, CheckTabsLine)[i]).0
    {
      assert IsChecked(lines, false, i);
      ExpandKeepsWhitespaceOk(lines[i]);
    }
  }
}
