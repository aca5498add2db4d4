/** Text as lines: the selections of `sed -n`, `head` and `tail`, and the
    numbering of `nl -ba`. A char stands for one byte. */
module Lines {
  import opened Wrappers

  // ---- Splitting

  /** The first newline at or after `off`, or the end of the text. */
  function LineEnd(s: string, off: nat): (e: nat)
    requires off <= |s|
    ensures off <= e <= |s|
    ensures forall i :: off <= i < e ==> s[i] != '\n'
    ensures e < |s| ==> s[e] == '\n'
    decreases |s| - off
  {
    if off == |s| || s[off] == '\n' then off else LineEnd(s, off + 1)
  }

  /** Where the line starting at `off` ends, its newline included. */
  function NextLine(s: string, off: nat): (e: nat)
    requires off < |s|
    ensures off < e <= |s|
  {
    var e := LineEnd(s, off);
    if e < |s| then e + 1 else e
  }

  /** The lines from `off` on, each with its newline; the last may lack one. */
  function LinesFrom(s: string, off: nat): seq<string>
    requires off <= |s|
    decreases |s| - off
  {
    if off == |s| then [] else [s[off..NextLine(s, off)]] + LinesFrom(s, NextLine(s, off))
  }

  function LinesOf(s: string): seq<string> {
    LinesFrom(s, 0)
  }

  function Concat(parts: seq<string>): string {
    if parts == [] then "" else parts[0] + Concat(parts[1..])
  }

  lemma {:induction false} ConcatAppend(a: seq<string>, b: seq<string>)
    ensures Concat(a + b) == Concat(a) + Concat(b)
  {
    if a == [] {
      assert a + b == b;
    } else {
      assert (a + b)[1..] == a[1..] + b;
      ConcatAppend(a[1..], b);
      Assoc(a[0], Concat(a[1..]), Concat(b));
    }
  }

  /** Splitting loses nothing. */
  lemma {:induction false} ConcatLines(s: string, off: nat)
    requires off <= |s|
    ensures Concat(LinesFrom(s, off)) == s[off..]
    decreases |s| - off
  {
    if off < |s| {
      ConcatLines(s, NextLine(s, off));
    }
  }

  /** A line with its newline at the end and none before. */
  ghost predicate Terminated(line: string) {
    && line != ""
    && line[|line| - 1] == '\n'
    && forall i :: 0 <= i < |line| - 1 ==> line[i] != '\n'
  }

  lemma LineEndUnique(s: string, off: nat, e: nat)
    requires off <= e < |s| && s[e] == '\n'
    requires forall i :: off <= i < e ==> s[i] != '\n'
    ensures LineEnd(s, off) == e
  {
  }

  lemma FirstOfConcat(before: string, l: string, rest: string)
    requires Terminated(l)
    ensures var s := before + (l + rest);
            && s == (before + l) + rest && |before| < |s|
            && LineEnd(s, |before|) == |before| + |l| - 1 && s[|before|..|before| + |l|] == l
  {
    var s := before + (l + rest);
    forall i | 0 <= i < |l|
      ensures s[|before| + i] == l[i]
    {
    }
    LineEndUnique(s, |before|, |before| + |l| - 1);
  }

  /** Joining terminated lines and splitting again gives the lines back. */
  lemma {:induction false} LinesOfConcat(before: string, lines: seq<string>)
    requires forall l :: l in lines ==> Terminated(l)
    ensures LinesFrom(before + Concat(lines), |before|) == lines
    decreases |lines|
  {
    hide LineEnd, Terminated;
    if lines == [] {
      assert before + "" == before;
    } else {
      assert Terminated(lines[0]);
      FirstOfConcat(before, lines[0], Concat(lines[1..]));
      LinesOfConcat(before + lines[0], lines[1..]);
    }
  }

  // ---- Selecting

  datatype Range = Range(start: int, end: int)

  type Selection = seq<Range>

  function MatchCount(sel: Selection, line: int): nat {
    if sel == [] then 0
    else (if sel[0].start <= line <= sel[0].end then 1 else 0) + MatchCount(sel[1..], line)
  }

  function Repeat(s: string, n: nat): string {
    if n == 0 then "" else s + Repeat(s, n - 1)
  }

  /** For each line in order, one copy per range containing its number. */
  function Selected(lines: seq<string>, sel: Selection, first: int): string {
    if lines == [] then ""
    else Repeat(lines[0], MatchCount(sel, first)) + Selected(lines[1..], sel, first + 1)
  }

  method MaxEnd(sel: Selection) returns (max: int)
    ensures 0 <= max
    ensures forall r :: r in sel ==> r.end <= max
    ensures max == 0 || exists r :: r in sel && r.end == max
  {
    max := 0;
    for i := 0 to |sel|
      invariant 0 <= max
      invariant forall j :: 0 <= j < i ==> sel[j].end <= max
      invariant max == 0 || exists r :: r in sel && r.end == max
    {
      if sel[i].end > max {
        max := sel[i].end;
      }
    }
  }

  method CountMatches(sel: Selection, line: int) returns (matches: nat)
    ensures matches == MatchCount(sel, line)
  {
    matches := 0;
    for i := 0 to |sel|
      invariant matches + MatchCount(sel[i..], line) == MatchCount(sel, line)
    {
      if sel[i].start <= line && line <= sel[i].end {
        matches := matches + 1;
      }
    }
  }

  lemma {:induction false} NoMatchPastEnd(sel: Selection, line: int)
    requires forall r :: r in sel ==> r.end < line
    ensures MatchCount(sel, line) == 0
  {
    if sel != [] {
      NoMatchPastEnd(sel[1..], line);
    }
  }

  /** Stopping after the last selected line leaves nothing out. */
  lemma {:induction false} NothingPastEnd(lines: seq<string>, sel: Selection, first: int)
    requires forall r :: r in sel ==> r.end < first
    ensures Selected(lines, sel, first) == ""
  {
    if lines != [] {
      NoMatchPastEnd(sel, first);
      NothingPastEnd(lines[1..], sel, first + 1);
    }
  }

  lemma {:induction false} RepeatLast(s: string, n: nat)
    ensures Repeat(s, n + 1) == Repeat(s, n) + s
  {
    if n > 0 {
      RepeatLast(s, n - 1);
    }
  }

  lemma RepeatMonotone(s: string, n: nat, m: nat)
    requires n <= m
    ensures |Repeat(s, n)| <= |Repeat(s, m)|
    decreases m - n
  {
    if n < m {
      RepeatLast(s, m - 1);
    }
  }

  /** The added text keeps the output within a limit; a limit of 0 is none. */
  predicate Fits(out: string, added: string, maxOutput: nat) {
    maxOutput == 0 || added == "" || |out| + |added| <= maxOutput
  }

  lemma FitsNothing(out: string, maxOutput: nat)
    ensures Fits(out, "", maxOutput) && out + "" == out
  {
  }

  lemma FitsSplit(out: string, a: string, b: string, maxOutput: nat)
    ensures Fits(out, a + b, maxOutput) <==> Fits(out, a, maxOutput) && Fits(out + a, b, maxOutput)
    ensures out + (a + b) == (out + a) + b
  {
    if b == "" {
      assert a + b == a;
    } else if a == "" {
      assert a + b == b && out + a == out;
    }
  }

  /** Find the newline that ends the line at `offset`, or the end of the text. */
  method FindLineEnd(content: string, offset: nat) returns (lineEnd: nat)
    requires offset <= |content|
    ensures lineEnd == LineEnd(content, offset)
  {
    lineEnd := offset;
    while lineEnd < |content| && content[lineEnd] != '\n'
      invariant offset <= lineEnd <= |content|
      invariant LineEnd(content, lineEnd) == LineEnd(content, offset)
    {
      lineEnd := lineEnd + 1;
    }
  }

  /** The extent of the line at `offset`, without and with its newline. */
  method FindLine(content: string, offset: nat) returns (lineEnd: nat, writeEnd: nat)
    requires offset < |content|
    ensures lineEnd == LineEnd(content, offset) && writeEnd == NextLine(content, offset)
  {
    lineEnd := FindLineEnd(content, offset);
    writeEnd := if lineEnd < |content| then lineEnd + 1 else lineEnd;
  }

  /** Append a line as often as it is selected, within the limit. */
  method AppendCopies(out: string, text: string, matches: nat, maxOutput: nat) returns (ok: bool, res: string)
    requires text != ""
    ensures ok <==> Fits(out, Repeat(text, matches), maxOutput)
    ensures ok ==> res == out + Repeat(text, matches)
  {
    res := out;
    for copies := 0 to matches
      invariant res == out + Repeat(text, copies)
      invariant Fits(out, Repeat(text, copies), maxOutput)
    {
      RepeatLast(text, copies);
      if maxOutput > 0 && (|res| > maxOutput || |text| > maxOutput - |res|) {
        RepeatMonotone(text, copies + 1, matches);
        return false, res;
      }
      res := res + text;
    }
    ok := true;
  }

  /** What is selected of the lines from a place on: the copies of the first of
      them, and what is selected of the others. */
  lemma SelectedStep(content: string, offset: nat, sel: Selection, line: int)
    requires offset < |content|
    ensures Selected(LinesFrom(content, offset), sel, line) ==
            Repeat(content[offset..NextLine(content, offset)], MatchCount(sel, line)) +
            Selected(LinesFrom(content, NextLine(content, offset)), sel, line + 1)
  {
    hide Repeat, MatchCount;
    var rest := LinesFrom(content, NextLine(content, offset));
    assert ([content[offset..NextLine(content, offset)]] + rest)[1..] == rest;
  }

  lemma NothingSelected(content: string, sel: Selection, line: int)
    ensures Selected(LinesFrom(content, |content|), sel, line) == ""
  {
  }

  /** Stream the selected lines into `out`, giving up as soon as a line would
      exceed the limit; a limit of 0 is none. */
  method AppendLineSelection(out: string, content: string, sel: Selection, maxOutput: nat)
    returns (ok: bool, res: string)
    ensures ok <==> sel != [] && Fits(out, Selected(LinesOf(content), sel, 1), maxOutput)
    ensures ok ==> res == out + Selected(LinesOf(content), sel, 1)
  {
    hide Selected, LinesFrom, Repeat, Fits, MatchCount;
    res := out;
    if sel == [] {
      return false, res;
    }
    var line, offset := 1, 0;
    var maxEnd := MaxEnd(sel);
    ghost var all := Selected(LinesOf(content), sel, 1);
    while offset < |content| && line <= maxEnd
      invariant 0 <= offset <= |content|
      invariant out + all == res + Selected(LinesFrom(content, offset), sel, line)
      invariant Fits(out, all, maxOutput) <==> Fits(res, Selected(LinesFrom(content, offset), sel, line), maxOutput)
      decreases |content| - offset
    {
      var lineEnd, writeEnd := FindLine(content, offset);
      var matches := CountMatches(sel, line);
      ghost var rest := Selected(LinesFrom(content, writeEnd), sel, line + 1);
      SelectedStep(content, offset, sel, line);
      FitsSplit(res, Repeat(content[offset..writeEnd], matches), rest, maxOutput);
      ok, res := AppendCopies(res, content[offset..writeEnd], matches, maxOutput);
      if !ok {
        return;
      }
      line := line + 1;
      offset := writeEnd;
    }
    if offset < |content| {
      NothingPastEnd(LinesFrom(content, offset), sel, line);
    } else {
      NothingSelected(content, sel, line);
    }
    FitsNothing(res, maxOutput);
    ok := true;
  }

  // ---- head and tail

  /** One range selects exactly the lines it numbers. */
  lemma {:induction false} RangeSelects(lines: seq<string>, start: int, end: int, first: int)
    requires first <= start && end < first + |lines| && start <= end + 1
    ensures Selected(lines, [Range(start, end)], first) == Concat(lines[start - first..end + 1 - first])
  {
    var sel := [Range(start, end)];
    if lines != [] {
      assert MatchCount(sel, first) == if start <= first <= end then 1 else 0;
      assert Repeat(lines[0], 1) == lines[0] + Repeat(lines[0], 0);
      if start > first {
        RangeSelects(lines[1..], start, end, first + 1);
        assert lines[1..][start - first - 1..end - first] == lines[start - first..end + 1 - first];
      } else if start == first <= end {
        NextStart(lines, start, end, first);
        RangeSelects(lines[1..], start + 1, end, first + 1);
        assert lines[1..][0..end - first] == lines[1..end + 1 - first];
        assert lines[0..end + 1 - first][1..] == lines[1..end + 1 - first];
      } else {
        NothingPastEnd(lines, sel, first);
      }
    }
  }

  /** Past its first line a range can be taken to start later. */
  lemma NextStart(lines: seq<string>, start: int, end: int, first: int)
    requires lines != [] && start <= first
    ensures Selected(lines[1..], [Range(start, end)], first + 1) ==
            Selected(lines[1..], [Range(start + 1, end)], first + 1)
  {
    SameSelection(lines[1..], start, start + 1, end, first + 1);
  }

  lemma {:induction false} SameSelection(lines: seq<string>, a: int, b: int, end: int, first: int)
    requires a <= first && b <= first
    ensures Selected(lines, [Range(a, end)], first) == Selected(lines, [Range(b, end)], first)
  {
    if lines != [] {
      assert MatchCount([Range(a, end)], first) == MatchCount([Range(b, end)], first);
      SameSelection(lines[1..], a, b, end, first + 1);
    }
  }

  method CountLines(content: string) returns (lines: nat)
    ensures lines == |LinesOf(content)|
  {
    lines := 0;
    var offset := 0;
    while offset < |content|
      invariant 0 <= offset <= |content|
      invariant lines + |LinesFrom(content, offset)| == |LinesOf(content)|
      decreases |content| - offset
    {
      var _, writeEnd := FindLine(content, offset);
      offset := writeEnd;
      lines := lines + 1;
    }
  }

  const MAX_COMPOSED_INTERMEDIATE_BYTES := 2 * 1024 * 1024

  /** The last `count` lines, an unterminated one included. */
  function LastLines(content: string, count: nat): string {
    var lines := LinesOf(content);
    if |lines| <= count then content else Concat(lines[|lines| - count..])
  }

  lemma TailSelects(content: string, count: nat, start: int, total: nat)
    requires content != "" && count > 0 && total == |LinesOf(content)|
    requires start == if total - count + 1 < 1 then 1 else total - count + 1
    ensures Selected(LinesOf(content), [Range(start, total)], 1) == LastLines(content, count)
  {
    hide Selected, LinesFrom, Concat;
    RangeSelects(LinesOf(content), start, total, 1);
    ConcatLines(content, 0);
    assert LinesOf(content)[0..total] == LinesOf(content);
  }

  method AppendTailLines(out: string, content: string, count: nat) returns (ok: bool, res: string)
    ensures ok <==> Fits(out, LastLines(content, count), MAX_COMPOSED_INTERMEDIATE_BYTES)
    ensures ok ==> res == out + LastLines(content, count)
  {
    if count == 0 || content == "" {
      return true, out;
    }
    var total := CountLines(content);
    var start := total - count + 1;
    if start < 1 {
      start := 1;
    }
    TailSelects(content, count, start, total);
    ok, res := AppendLineSelection(out, content, [Range(start, total)], MAX_COMPOSED_INTERMEDIATE_BYTES);
  }

  /** The first `count` lines. */
  function FirstLines(content: string, count: nat): string {
    var lines := LinesOf(content);
    if |lines| <= count then content else Concat(lines[..count])
  }

  lemma HeadSelects(content: string, count: nat)
    ensures Selected(LinesOf(content), [Range(1, count)], 1) == FirstLines(content, count)
  {
    var lines := LinesOf(content);
    if |lines| <= count {
      CutRange(lines, count, 1);
      RangeSelects(lines, 1, |lines|, 1);
      assert lines[0..|lines|] == lines;
      ConcatLines(content, 0);
    } else {
      RangeSelects(lines, 1, count, 1);
    }
  }

  lemma {:induction false} CutRange(lines: seq<string>, end: int, first: int)
    requires first + |lines| <= end + 1
    ensures Selected(lines, [Range(1, end)], first) == Selected(lines, [Range(1, first + |lines| - 1)], first)
  {
    if lines != [] {
      assert MatchCount([Range(1, end)], first) == MatchCount([Range(1, first + |lines| - 1)], first);
      CutRange(lines[1..], end, first + 1);
    }
  }

  // ---- Lines by their places

  /** A line starts here. */
  predicate StartsLine(s: string, p: nat) {
    p < |s| && (p == 0 || s[p - 1] == '\n')
  }

  /** The line from a place on, without its newline. */
  function LineAt(s: string, p: nat): string
    requires p <= |s|
  {
    s[p..LineEnd(s, p)]
  }

  /** One more than the newlines before a place. */
  function LineNumber(s: string, p: nat): nat
    requires p <= |s|
  {
    1 + multiset(s[..p])['\n']
  }

  /** For every place of a text its row, if a line starts there. */
  function Pieces(s: string, row: nat -> string): (pieces: seq<string>)
    ensures |pieces| == |s|
    ensures forall p :: 0 <= p < |s| ==> pieces[p] == if StartsLine(s, p) then row(p) else ""
  {
    seq(|s|, p requires 0 <= p < |s| => if StartsLine(s, p) then row(p) else "")
  }

  /** The rows of all lines in order. */
  function Rows(s: string, row: nat -> string): string {
    Concat(Pieces(s, row))
  }

  lemma {:induction false} NothingWithin(s: string, row: nat -> string, p: nat, q: nat)
    requires p <= q <= |s| && forall i :: p <= i < q ==> !StartsLine(s, i)
    ensures Concat(Pieces(s, row)[p..]) == Concat(Pieces(s, row)[q..])
    decreases q - p
  {
    hide StartsLine;
    if p < q {
      RestOfRest(Pieces(s, row), p, 1);
      NothingWithin(s, row, p + 1, q);
    }
  }

  lemma AtNextLine(s: string, p: nat)
    requires StartsLine(s, p)
    ensures NextLine(s, p) < |s| ==> StartsLine(s, NextLine(s, p))
    ensures forall i :: p < i < NextLine(s, p) ==> !StartsLine(s, i)
    ensures NextLine(s, p) < |s| ==> LineNumber(s, NextLine(s, p)) == LineNumber(s, p) + 1
  {
    var e, next := LineEnd(s, p), NextLine(s, p);
    if next < |s| {
      assert s[..next] == s[..p] + s[p..e] + ['\n'];
      assert '\n' !in s[p..e];
    }
  }

  /** The rows from a line on: its own, and those from the next line on. */
  lemma RowsStep(s: string, row: nat -> string, p: nat)
    requires StartsLine(s, p)
    ensures Concat(Pieces(s, row)[p..]) == row(p) + Concat(Pieces(s, row)[NextLine(s, p)..])
  {
    hide LineEnd, NextLine;
    AtNextLine(s, p);
    RestOfRest(Pieces(s, row), p, 1);
    NothingWithin(s, row, p + 1, NextLine(s, p));
  }

  lemma RowsEnd(s: string, row: nat -> string)
    ensures Concat(Pieces(s, row)[|s|..]) == "" && Pieces(s, row)[0..] == Pieces(s, row)
  {
  }

  lemma FirstLine(s: string)
    ensures s == "" || StartsLine(s, 0)
  {
  }

  lemma {:induction false} ConcatEmpty(parts: seq<string>)
    ensures Concat(parts) == "" <==> forall i :: 0 <= i < |parts| ==> parts[i] == ""
  {
    if parts != [] {
      ConcatEmpty(parts[1..]);
      assert forall i :: 0 < i < |parts| ==> parts[i] == parts[1..][i - 1];
    }
  }
}
