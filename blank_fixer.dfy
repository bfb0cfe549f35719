// The line normaliser of the blank-line fixer tool: every line of a file is
// right-trimmed and has its tabs expanded, the blank lines at the end are dropped,
// and the file is written back ending in a single line feed.
module BlankFixer {
  import opened PhpStrings

  // ---------------------------------------------------------------- reading lines

  /** The length of the first line `fgets` returns: up to and including the first
      line feed, or the whole rest. */
  function LineLength(content: string): (n: nat)
    requires content != ""
    ensures 0 < n <= |content|
    ensures forall i :: 0 <= i < n - 1 ==> content[i] != '\n'
    ensures n < |content| ==> content[n - 1] == '\n'
  {
    if content[0] == '\n' || |content| == 1 then 1 else 1 + LineLength(content[1..])
  }

  /** The lines successive `fgets` calls return until the end of the file. */
  function FgetsLines(content: string): seq<string>
    decreases |content|
  {
    if content == "" then []
    else
      var n := LineLength(content);
      [content[..n]] + FgetsLines(content[n..])
  }

  /** The lines laid end to end. */
  function Concat(lines: seq<string>): string {
    if lines == [] then "" else lines[0] + Concat(lines[1..])
  }

  /** Reading line by line loses nothing: the lines put together are the file. */
  lemma {:induction false} FgetsLinesCover(content: string)
    ensures Concat(FgetsLines(content)) == content
    decreases |content|
  {
    if content != "" {
      var n := LineLength(content);
      FgetsLinesCover(content[n..]);
      assert content[..n] + content[n..] == content;
    }
  }

  /** Every line read is non-empty, and a line feed can only be its last character. */
  lemma {:induction false} FgetsLinesShape(content: string)
    ensures forall k :: 0 <= k < |FgetsLines(content)| ==>
      FgetsLines(content)[k] != "" &&
      forall i :: 0 <= i < |FgetsLines(content)[k]| - 1 ==> FgetsLines(content)[k][i] != '\n'
    decreases |content|
  {
    if content != "" {
      var n := LineLength(content);
      FgetsLinesShape(content[n..]);
      var lines := FgetsLines(content);
      forall k | 0 <= k < |lines|
        ensures lines[k] != "" && forall i :: 0 <= i < |lines[k]| - 1 ==> lines[k][i] != '\n'
      {
        if k > 0 {
          assert lines[k] == FgetsLines(content[n..])[k - 1];
        }
      }
    }
  }

  // ---------------------------------------------------------------- one line

  /** One line as the fixer keeps it: right-trimmed, then each tab made four spaces;
      what is left has no tab and does not end in white space. */
  function Normalise(line: string): (r: string)
    ensures forall i :: 0 <= i < |r| ==> r[i] != '\t'
    ensures r == "" || r[|r| - 1] !in Whitespace
  {
    var t := RTrim(line);
    ExpandTabsLeavesNoTab(t);
    if t == "" then
      assert ReplaceAll(t, "\t", "    ") == "";
      ""
    else
      ExpandTabsKeepsLast(t);
      ReplaceAll(t, "\t", "    ")
  }

  /** Expanding tabs keeps the last character when it is not a tab. */
  lemma {:induction false} ExpandTabsKeepsLast(s: string)
    requires s != "" && s[|s| - 1] != '\t'
    ensures var r := ReplaceAll(s, "\t", "    ");
      r != "" && r[|r| - 1] == s[|s| - 1]
    decreases |s|
  {
    if s[..1] == "\t" {
      assert s[0] == '\t';
      ExpandTabsKeepsLast(s[1..]);
    } else if |s| > 1 {
      ExpandTabsKeepsLast(s[1..]);
    }
  }

  /** Expanding tabs leaves none. */
  lemma {:induction false} ExpandTabsLeavesNoTab(s: string)
    ensures forall i :: 0 <= i < |ReplaceAll(s, "\t", "    ")| ==> ReplaceAll(s, "\t", "    ")[i] != '\t'
    decreases |s|
  {
    if |s| >= 1 {
      ExpandTabsLeavesNoTab(s[1..]);
      assert s[..1] == [s[0]];
    }
  }

  /** Every line read, normalised. */
  function NormaliseAll(raw: seq<string>): seq<string> {
    seq(|raw|, i requires 0 <= i < |raw| => Normalise(raw[i]))
  }

  // ---------------------------------------------------------------- trailing blanks

  /** How many lines at the end are PHP-empty (`""` or `"0"`), counted from the last
      one back to the first that is not. */
  function TrailingEmpty(lines: seq<string>): (n: nat)
    ensures n <= |lines|
    decreases |lines|
  {
    if lines == [] || !PhpEmpty(lines[|lines| - 1]) then 0
    else 1 + TrailingEmpty(lines[..|lines| - 1])
  }

  /** The trailing count is the length of the longest run of PHP-empty lines at the end:
      all of those lines are empty and the line before them is not. */
  lemma {:induction false} TrailingEmptyIsLongestRun(lines: seq<string>)
    ensures var n := TrailingEmpty(lines);
      (forall i :: |lines| - n <= i < |lines| ==> PhpEmpty(lines[i])) &&
      (n < |lines| ==> !PhpEmpty(lines[|lines| - n - 1]))
    decreases |lines|
  {
    if lines != [] && PhpEmpty(lines[|lines| - 1]) {
      var init := lines[..|lines| - 1];
      TrailingEmptyIsLongestRun(init);
      var n := TrailingEmpty(lines);
      forall i | |lines| - n <= i < |lines|
        ensures PhpEmpty(lines[i])
      {
        if i < |lines| - 1 {
          assert lines[i] == init[i];
        }
      }
      if n < |lines| {
        assert lines[|lines| - n - 1] == init[|init| - (n - 1) - 1];
      }
    }
  }

  /** The lines kept: everything before the trailing run of empty ones. */
  function Kept(lines: seq<string>): seq<string> {
    lines[..|lines| - TrailingEmpty(lines)]
  }

  /** Only the end is trimmed: the kept lines are a prefix of the lines, so every blank
      line with a non-empty line after it stays where it was, and the last kept line is
      not empty. */
  lemma KeptKeepsInterior(lines: seq<string>)
    ensures var kept := Kept(lines);
      kept <= lines &&
      (forall i, j :: 0 <= i < j < |lines| && !PhpEmpty(lines[j]) ==> i < |kept| && kept[i] == lines[i]) &&
      (kept != [] ==> !PhpEmpty(kept[|kept| - 1])) &&
      (kept == [] <==> forall i :: 0 <= i < |lines| ==> PhpEmpty(lines[i]))
  {
    TrailingEmptyIsLongestRun(lines);
  }

  // ---------------------------------------------------------------- the whole file

  /** What the fixer writes back for a file: the appended empty element makes it every
      kept line followed by a line feed. */
  function FixedContents(content: string): (r: string)
    ensures r == Terminated("\n", Kept(NormaliseAll(FgetsLines(content))))
  {
    var kept := Kept(NormaliseAll(FgetsLines(content)));
    ImplodeIsTerminated("\n", kept + [""]);
    assert (kept + [""])[..|kept|] == kept;
    Implode("\n", kept + [""])
  }

  /** Terminating a non-empty list of lines ends with the last line and a line feed. */
  lemma {:induction false} TerminatedEnds(lines: seq<string>)
    requires lines != []
    ensures var t := Terminated("\n", lines);
      var last := lines[|lines| - 1];
      |t| >= |last| + 1 && t[|t| - 1] == '\n' && t[|t| - 1 - |last|..|t| - 1] == last
    decreases |lines|
  {
    if |lines| > 1 {
      TerminatedEnds(lines[1..]);
      var t := Terminated("\n", lines);
      assert t == lines[0] + "\n" + Terminated("\n", lines[1..]);
    }
  }

  /** Lines that do not end in white space, joined with a terminating line feed each,
      end in a single line feed after a character that is not white space. */
  lemma KeptJoinedEnds(lines: seq<string>)
    requires forall i :: 0 <= i < |lines| ==> lines[i] == "" || lines[i][|lines[i]| - 1] !in Whitespace
    ensures var r := Terminated("\n", Kept(lines));
      (Kept(lines) != [] ==> |r| >= 2 && r[|r| - 1] == '\n' && r[|r| - 2] !in Whitespace) &&
      (Kept(lines) == [] ==> r == "")
  {
    var kept := Kept(lines);
    KeptKeepsInterior(lines);
    if kept != [] {
      var last := kept[|kept| - 1];
      assert last == lines[|kept| - 1];
      TerminatedEnds(kept);
      var r := Terminated("\n", kept);
      assert r[|r| - 2] == r[|r| - 1 - |last|..|r| - 1][|last| - 1];
    }
  }

  /** A file with a line worth keeping comes back ending in exactly one line feed: the
      last character is a line feed and the one before it is not white space. A file of
      blank lines only comes back empty. */
  lemma FixedEndsWithSingleNewline(content: string)
    ensures var r := FixedContents(content);
      var lines := NormaliseAll(FgetsLines(content));
      ((exists i :: 0 <= i < |lines| && !PhpEmpty(lines[i])) ==>
        |r| >= 2 && r[|r| - 1] == '\n' && r[|r| - 2] !in Whitespace) &&
      ((forall i :: 0 <= i < |lines| ==> PhpEmpty(lines[i])) ==> r == "")
  {
    var raw := FgetsLines(content);
    var lines := NormaliseAll(raw);
    forall i | 0 <= i < |lines|
      ensures lines[i] == "" || lines[i][|lines[i]| - 1] !in Whitespace
    {
      assert lines[i] == Normalise(raw[i]);
    }
    KeptJoinedEnds(lines);
    KeptKeepsInterior(lines);
  }

  // ---------------------------------------------------------------- the imperative fixer

  /** The read loop: each line `fgets` returns, right-trimmed and with its tabs
      expanded, is appended. */
  method ReadNormalisedLines(content: string) returns (lines: seq<string>)
    ensures lines == NormaliseAll(FgetsLines(content))
  {
    lines := [];
    var rest := content;
    ghost var read: seq<string> := [];
    while rest != ""
      invariant FgetsLines(content) == read + FgetsLines(rest)
      invariant lines == NormaliseAll(read)
      decreases |rest|
    {
      var n := LineLength(rest);
      var line := rest[..n];
      assert FgetsLines(rest) == [line] + FgetsLines(rest[n..]);
      read := read + [line];
      rest := rest[n..];
      line := RTrim(line);
      line := ReplaceAll(line, "\t", "    ");
      lines := lines + [line];
    }
  }

  /** The backward loop: counts the PHP-empty lines at the end, stopping at the first
      that is not. */
  method CountTrailingEmpty(lines: seq<string>) returns (emptyLines: nat)
    ensures emptyLines == TrailingEmpty(lines)
  {
    emptyLines := 0;
    var n := |lines| - 1;
    assert lines[..n + 1] == lines;
    while n >= 0
      invariant -1 <= n < |lines|
      invariant TrailingEmpty(lines) == emptyLines + TrailingEmpty(lines[..n + 1])
      decreases n + 1
    {
      if PhpEmpty(lines[n]) {
        assert lines[..n + 1][..n] == lines[..n];
        emptyLines := emptyLines + 1;
      } else {
        break;
      }
      n := n - 1;
    }
  }

  /** How a file ends up: written with the fixed contents, or written and then reported
      as a failed write (the tool throws, and no later file is fixed). */
  datatype FixOutcome = Written(contents: string) | ReportedFailure(contents: string)

  /** The write's result as the tool reads it: a write of no bytes counts as a failure. */
  function WriteOutcome(contents: string): (r: FixOutcome)
    ensures r.contents == contents
    ensures r.ReportedFailure? <==> contents == ""
  {
    if contents == "" then ReportedFailure(contents) else Written(contents)
  }

  /** Fixes one file: reads and normalises its lines, drops the trailing empty ones,
      appends the final empty element, joins with line feeds and writes. */
  method FixFile(content: string) returns (r: FixOutcome)
    ensures r == WriteOutcome(FixedContents(content))
  {
    var lines := ReadNormalisedLines(content);
    var emptyLines := CountTrailingEmpty(lines);
    lines := lines[..|lines| - emptyLines];
    lines := lines + [""];
    var contents := Implode("\n", lines);
    if contents == "" {
      return ReportedFailure(contents);
    }
    r := Written(contents);
  }

  /** The loop over the files: each is fixed in turn, and the first write reported as
      failed (an all-blank file, now emptied) ends the run, so every file before it was
      written with content and none after it is touched. */
  method FixFiles(files: seq<string>) returns (written: seq<string>, failed: bool)
    ensures |written| <= |files|
    ensures forall j :: 0 <= j < |written| ==> written[j] == FixedContents(files[j])
    ensures forall j :: 0 <= j < |written| - 1 ==> written[j] != ""
    ensures failed <==> written != [] && written[|written| - 1] == ""
    ensures !failed ==> |written| == |files|
  {
    ghost var fixed := seq(|files|, j requires 0 <= j < |files| => FixedContents(files[j]));
    written := [];
    var i := 0;
    while i < |files|
      invariant 0 <= i <= |files| && written == fixed[..i]
      invariant forall j :: 0 <= j < i ==> written[j] != ""
    {
      var r := FixFile(files[i]);
      assert fixed[..i + 1] == fixed[..i] + [r.contents];
      written := written + [r.contents];
      if r.ReportedFailure? {
        assert written == fixed[..i + 1] && written[i] == "";
        return written, true;
      }
      i := i + 1;
    }
    failed := false;
  }
}
