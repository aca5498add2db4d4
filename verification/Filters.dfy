/** The filters a pipeline may contain, and the numbering source `nl -ba`. */
module Filters {
  import opened Wrappers
  import opened Lines
  import Sorting

  const MAX_FILE_OUTPUT_BYTES := 64 * 1024
  const MAX_LINE_NUMBER := 10000
  const MAX_RANGES := 8
  const MAX_RANGE_SPAN := 500
  const MAX_COUNT_ARGUMENT := 100000

  // ---- Numbers

  predicate IsDigit(c: char) {
    '0' <= c <= '9'
  }

  function DigitValue(c: char): nat
    requires IsDigit(c)
  {
    c as int - '0' as int
  }

  function DigitChar(d: nat): (c: char)
    requires d < 10
    ensures IsDigit(c) && DigitValue(c) == d
  {
    (d + '0' as int) as char
  }

  function Decimal(n: nat): (s: string)
    ensures s != "" && forall c :: c in s ==> IsDigit(c)
    ensures s[0] == '0' ==> n == 0 && |s| == 1
  {
    if n < 10 then [DigitChar(n)] else Decimal(n / 10) + [DigitChar(n % 10)]
  }

  function PadLeft(s: string, width: nat): (r: string)
    ensures |r| == (if |s| >= width then |s| else width) && r[|r| - |s|..] == s
    ensures forall i :: 0 <= i < |r| - |s| ==> r[i] == ' '
  {
    if |s| >= width then s else seq(width - |s|, _ => ' ') + s
  }

  // ---- nl -ba

  /** A line that consists of `\:` pairs is a section mark to nl. */
  predicate IsDelimiter(text: string) {
    text in {"\\:", "\\:\\:", "\\:\\:\\:"}
  }

  function TextOf(line: string): string {
    if line != "" && line[|line| - 1] == '\n' then line[..|line| - 1] else line
  }

  predicate HasDelimiter(lines: seq<string>) {
    exists l :: l in lines && IsDelimiter(TextOf(l))
  }

  function NumberedLine(n: nat, line: string): string {
    PadLeft(Decimal(n), 6) + "\t" + TextOf(line) + "\n"
  }

  function Numbered(lines: seq<string>, first: nat): seq<string> {
    if lines == [] then [] else [NumberedLine(first, lines[0])] + Numbered(lines[1..], first + 1)
  }

  /** Every line numbered, a missing final newline supplied (the GNU form). */
  function NumberAll(content: string): string {
    Concat(Numbered(LinesOf(content), 1))
  }

  lemma NumberedLineTerminated(n: nat, line: string)
    requires forall i :: 0 <= i < |line| - 1 ==> line[i] != '\n'
    ensures Terminated(NumberedLine(n, line))
  {
    var prefix := PadLeft(Decimal(n), 6) + "\t";
    assert forall i :: 0 <= i < |prefix| ==> prefix[i] != '\n' by {
      forall i | 0 <= i < |prefix|
        ensures prefix[i] != '\n'
      {
        var number, padded := Decimal(n), PadLeft(Decimal(n), 6);
        var blanks := |padded| - |number|;
        if blanks <= i < |padded| {
          assert padded[blanks..][i - blanks] == number[i - blanks] && number[i - blanks] in number;
        }
      }
    }
    assert NumberedLine(n, line) == prefix + TextOf(line) + "\n";
  }

  lemma {:induction false} LinesHaveOneNewline(s: string, off: nat)
    requires off <= |s|
    ensures forall l :: l in LinesFrom(s, off) ==> l != "" && forall i :: 0 <= i < |l| - 1 ==> l[i] != '\n'
    decreases |s| - off
  {
    if off < |s| {
      LinesHaveOneNewline(s, NextLine(s, off));
    }
  }

  lemma {:induction false} NumberedTerminated(lines: seq<string>, first: nat)
    requires forall l :: l in lines ==> forall i :: 0 <= i < |l| - 1 ==> l[i] != '\n'
    ensures forall l :: l in Numbered(lines, first) ==> Terminated(l)
  {
    if lines != [] {
      assert lines[0] in lines;
      NumberedLineTerminated(first, lines[0]);
      NumberedTerminated(lines[1..], first + 1);
    }
  }

  /** Reading the numbered text line by line gives the numbered lines, so
      selecting from the text and numbering only the selected lines agree. */
  lemma NumberingKeepsLines(content: string)
    ensures LinesOf(NumberAll(content)) == Numbered(LinesOf(content), 1)
  {
    LinesHaveOneNewline(content, 0);
    NumberedTerminated(LinesOf(content), 1);
    LinesOfConcat("", Numbered(LinesOf(content), 1));
    assert "" + NumberAll(content) == NumberAll(content);
  }

  lemma DelimiterStep(content: string, offset: nat)
    requires offset <= |content|
    ensures HasDelimiter(LinesFrom(content, offset)) <==>
            && offset < |content|
            && (IsDelimiter(content[offset..LineEnd(content, offset)]) ||
                HasDelimiter(LinesFrom(content, NextLine(content, offset))))
  {
    hide IsDelimiter;
    if offset < |content| {
      var first, rest := content[offset..NextLine(content, offset)], LinesFrom(content, NextLine(content, offset));
      assert TextOf(first) == content[offset..LineEnd(content, offset)];
      hide LineEnd, NextLine;
      FirstOrRest(first, rest);
    }
  }

  lemma FirstOrRest(first: string, rest: seq<string>)
    ensures HasDelimiter([first] + rest) <==> IsDelimiter(TextOf(first)) || HasDelimiter(rest)
  {
    hide IsDelimiter, TextOf;
    var all := [first] + rest;
    assert first == all[0] && all[1..] == rest;
  }

  method ContainsDelimiter(content: string) returns (found: bool)
    ensures found <==> HasDelimiter(LinesOf(content))
  {
    hide HasDelimiter, LinesFrom, IsDelimiter, LineEnd;
    var offset := 0;
    while offset < |content|
      invariant 0 <= offset <= |content|
      invariant HasDelimiter(LinesOf(content)) <==> HasDelimiter(LinesFrom(content, offset))
      decreases |content| - offset
    {
      var lineEnd, writeEnd := FindLine(content, offset);
      DelimiterStep(content, offset);
      if IsDelimiter(content[offset..lineEnd]) {
        return true;
      }
      offset := writeEnd;
    }
    DelimiterStep(content, offset);
    found := false;
  }

  lemma NumberedStep(content: string, offset: nat, line: nat, sel: Selection)
    requires offset < |content|
    ensures var next := NextLine(content, offset);
            Selected(Numbered(LinesFrom(content, offset), line), sel, line) ==
            Repeat(NumberedLine(line, content[offset..next]), MatchCount(sel, line)) +
            Selected(Numbered(LinesFrom(content, next), line + 1), sel, line + 1)
  {
    var lines := Numbered(LinesFrom(content, offset), line);
    assert lines[1..] == Numbered(LinesFrom(content, NextLine(content, offset)), line + 1);
  }

  /** Append the selected lines, each with its number. */
  method AppendNlSelection(out: string, content: string, sel: Selection, maxOutput: nat)
    returns (ok: bool, res: string)
    requires maxOutput > 0
    ensures ok <==> sel != [] && !HasDelimiter(LinesOf(content)) &&
                    Fits(out, Selected(Numbered(LinesOf(content), 1), sel, 1), maxOutput)
    ensures ok ==> res == out + Selected(Numbered(LinesOf(content), 1), sel, 1)
  {
    res := out;
    if sel == [] {
      return false, res;
    }
    var marked := ContainsDelimiter(content);
    if marked {
      return false, res;
    }
    ok, res := AppendNumbered(out, content, sel, maxOutput);
  }

  method AppendNumbered(out: string, content: string, sel: Selection, maxOutput: nat) returns (ok: bool, res: string)
    requires maxOutput > 0
    ensures ok <==> Fits(out, Selected(Numbered(LinesOf(content), 1), sel, 1), maxOutput)
    ensures ok ==> res == out + Selected(Numbered(LinesOf(content), 1), sel, 1)
  {
    res := out;
    var line, offset := 1, 0;
    var maxEnd := MaxEnd(sel);
    ghost var all := Selected(Numbered(LinesOf(content), 1), sel, 1);
    ghost var rest := all;
    while offset < |content| && line <= maxEnd
      invariant 0 <= offset <= |content|
      invariant rest == Selected(Numbered(LinesFrom(content, offset), line), sel, line)
      invariant out + all == res + rest
      invariant Fits(out, all, maxOutput) <==> Fits(res, rest, maxOutput)
      decreases |content| - offset
    {
      NumberedStep(content, offset, line, sel);
      var lineEnd, writeEnd := FindLine(content, offset);
      var matches := CountMatches(sel, line);
      var text := NumberedLine(line, content[offset..writeEnd]);
      rest := Selected(Numbered(LinesFrom(content, writeEnd), line + 1), sel, line + 1);
      FitsSplit(res, Repeat(text, matches), rest, maxOutput);
      ok, res := AppendCopiesThenCheck(res, text, matches, maxOutput);
      if !ok {
        return;
      }
      offset := writeEnd;
      line := line + 1;
    }
    if offset < |content| {
      NothingPastEnd(Numbered(LinesFrom(content, offset), line), sel, line);
    }
    ok := true;
  }

  /** As AppendCopies, but the limit is checked after each write. */
  method AppendCopiesThenCheck(out: string, text: string, matches: nat, maxOutput: nat) returns (ok: bool, res: string)
    requires text != "" && maxOutput > 0
    ensures ok <==> Fits(out, Repeat(text, matches), maxOutput)
    ensures ok ==> res == out + Repeat(text, matches)
  {
    res := out;
    for copies := 0 to matches
      invariant res == out + Repeat(text, copies)
      invariant Fits(out, Repeat(text, copies), maxOutput)
    {
      RepeatLast(text, copies);
      res := res + text;
      if |res| > maxOutput {
        RepeatMonotone(text, copies + 1, matches);
        return false, res;
      }
    }
    ok := true;
  }

  // ---- grep -F, wc -l, sort

  /** The substring test: an empty needle is never found. */
  predicate Contains(s: string, needle: string) {
    needle != "" && exists k :: 0 <= k <= |s| && OccursAt(s, needle, k)
  }

  predicate OccursAt(s: string, needle: string, k: nat) {
    k + |needle| <= |s| && s[k..k + |needle|] == needle
  }

  /** The pattern stands somewhere in the line. */
  ghost predicate Within(pattern: string, line: string) {
    exists before, after :: Parts(line, before, pattern, after)
  }

  predicate Parts(line: string, before: string, pattern: string, after: string) {
    line == before + pattern + after
  }

  lemma HeldIsWithin(line: string, pattern: string)
    requires pattern != ""
    ensures Contains(line, pattern) <==> Within(pattern, line)
  {
    if Contains(line, pattern) {
      var k :| 0 <= k <= |line| && OccursAt(line, pattern, k);
      assert Parts(line, line[..k], pattern, line[k + |pattern|..]);
    }
    if before, after :| Parts(line, before, pattern, after) {
      assert OccursAt(line, pattern, |before|);
    }
  }

  function MatchingLines(lines: seq<string>, pattern: string): string {
    if lines == [] then ""
    else MatchingLine(TextOf(lines[0]), pattern) + MatchingLines(lines[1..], pattern)
  }

  function MatchingLine(text: string, pattern: string): string {
    if Contains(text, pattern) then text + "\n" else ""
  }

  lemma GrepStep(content: string, offset: nat, pattern: string)
    requires offset < |content|
    ensures MatchingLines(LinesFrom(content, offset), pattern) ==
            MatchingLine(content[offset..LineEnd(content, offset)], pattern) +
            MatchingLines(LinesFrom(content, NextLine(content, offset)), pattern)
  {
    var lines := LinesFrom(content, offset);
    assert TextOf(lines[0]) == content[offset..LineEnd(content, offset)];
    assert lines[1..] == LinesFrom(content, NextLine(content, offset));
  }

  /** Print the lines holding the pattern, or only find out whether there is
      one. */
  method AppendFixedGrep(out: string, content: string, pattern: string, quiet: bool)
    returns (ok: bool, matched: bool, res: string)
    ensures ok <==> pattern != "" && '\0' !in content
    ensures ok ==> (matched <==> MatchingLines(LinesOf(content), pattern) != "")
    ensures ok ==> res == if quiet then out else out + MatchingLines(LinesOf(content), pattern)
  {
    ok, matched, res := false, false, out;
    if pattern == "" || '\0' in content {
      return;
    }
    ok := true;
    var offset := 0;
    ghost var before := "";
    while offset < |content|
      invariant 0 <= offset <= |content|
      invariant MatchingLines(LinesOf(content), pattern) ==
                before + MatchingLines(LinesFrom(content, offset), pattern)
      invariant matched <==> before != ""
      invariant res == if quiet then out else out + before
      invariant quiet ==> !matched
      decreases |content| - offset
    {
      GrepStep(content, offset, pattern);
      var lineEnd, writeEnd := FindLine(content, offset);
      ghost var here := MatchingLine(content[offset..lineEnd], pattern);
      ghost var rest := MatchingLines(LinesFrom(content, writeEnd), pattern);
      Assoc(before, here, rest);
      Assoc(out, before, here);
      before := before + here;
      if Contains(content[offset..lineEnd], pattern) {
        matched := true;
        if quiet {
          return;
        }
        res := res + (content[offset..lineEnd] + "\n");
      }
      offset := writeEnd;
    }
  }

  function Newlines(s: string): nat {
    if s == "" then 0 else (if s[0] == '\n' then 1 else 0) + Newlines(s[1..])
  }

  method AppendWcLineCount(out: string, content: string) returns (res: string)
    ensures res == out + Decimal(Newlines(content)) + "\n"
  {
    var lines := 0;
    for i := 0 to |content|
      invariant lines + Newlines(content[i..]) == Newlines(content)
    {
      if content[i] == '\n' {
        lines := lines + 1;
      }
    }
    res := out + Decimal(lines) + "\n";
  }

  function TextsOf(lines: seq<string>): seq<string> {
    if lines == [] then [] else [TextOf(lines[0])] + TextsOf(lines[1..])
  }

  function WithNewlines(lines: seq<string>): string {
    if lines == [] then "" else lines[0] + "\n" + WithNewlines(lines[1..])
  }

  function SortedText(content: string): string {
    WithNewlines(Sorting.Sort(TextsOf(LinesOf(content))))
  }

  lemma TextsStep(content: string, offset: nat)
    requires offset < |content|
    ensures TextsOf(LinesFrom(content, offset)) ==
            [content[offset..LineEnd(content, offset)]] + TextsOf(LinesFrom(content, NextLine(content, offset)))
  {
    var lines := LinesFrom(content, offset);
    assert TextOf(lines[0]) == content[offset..LineEnd(content, offset)];
    assert lines[1..] == LinesFrom(content, NextLine(content, offset));
  }

  method SplitLines(content: string) returns (lines: seq<string>)
    ensures lines == TextsOf(LinesOf(content))
  {
    lines := [];
    var offset := 0;
    while offset < |content|
      invariant 0 <= offset <= |content|
      invariant lines + TextsOf(LinesFrom(content, offset)) == TextsOf(LinesOf(content))
      decreases |content| - offset
    {
      TextsStep(content, offset);
      var lineEnd, writeEnd := FindLine(content, offset);
      lines := lines + [content[offset..lineEnd]];
      offset := writeEnd;
    }
  }

  /** Collect the lines, order them, and write them within the limit. */
  lemma NextSorted(res: string, lines: seq<string>, i: nat)
    requires i < |lines|
    ensures res + WithNewlines(lines[i..]) == (res + lines[i] + "\n") + WithNewlines(lines[i + 1..])
  {
    assert lines[i..][1..] == lines[i + 1..];
    Assoc(lines[i], "\n", WithNewlines(lines[i + 1..]));
    Assoc(res, lines[i], "\n");
    Assoc(res, lines[i] + "\n", WithNewlines(lines[i + 1..]));
  }

  method AppendSortedLines(content: string) returns (ok: bool, res: string)
    ensures ok <==> '\0' !in content && |SortedText(content)| <= MAX_FILE_OUTPUT_BYTES
    ensures ok ==> res == SortedText(content)
  {
    res := "";
    if '\0' in content {
      return false, res;
    }
    hide LinesOf, TextsOf;
    var lines := SplitLines(content);
    lines := Sorting.Sort(lines);
    assert lines[0..] == lines;
    for i := 0 to |lines|
      invariant res + WithNewlines(lines[i..]) == SortedText(content)
      invariant |res| <= MAX_FILE_OUTPUT_BYTES
    {
      NextSorted(res, lines, i);
      res := res + lines[i] + "\n";
      if |res| > MAX_FILE_OUTPUT_BYTES {
        return false, res;
      }
    }
    ok := true;
  }
}
