/** What each filter does, said about the words it is given, its input and its
    output; and the proof that this is what the evaluator computes. */
module FilterMeaning {
  import opened Wrappers
  import opened Lines
  import opened Filters
  import opened Arguments
  import opened PlanMeaning
  import Sorting

  // ---- head and tail

  /** The lines of a text, a last unterminated one included. */
  function Count(s: string): nat {
    multiset(s)['\n'] + if s != "" && s[|s| - 1] != '\n' then 1 else 0
  }

  /** The longest prefix of the input with at most `k` lines. */
  ghost predicate IsHead(input: string, k: nat, out: string) {
    && out <= input && Count(out) <= k
    && forall n :: |out| < n <= |input| ==> Count(input[..n]) > k
  }

  /** The longest suffix of the input with at most `k` lines. */
  ghost predicate IsTail(input: string, k: nat, out: string) {
    && |out| <= |input| && out == input[|input| - |out|..] && Count(out) <= k
    && forall n :: 0 <= n < |input| - |out| ==> Count(input[n..]) > k
  }

  lemma CountJoined(a: string, b: string)
    ensures b != "" ==> Count(a + b) == multiset(a)['\n'] + Count(b)
    ensures Count("") == 0
    ensures Count(a) >= multiset(a)['\n'] && (a != "" ==> Count(a) >= 1)
    ensures a != "" && a[|a| - 1] == '\n' ==> Count(a) == multiset(a)['\n'] >= 1
  {
    if b != "" {
      assert (a + b)[|a + b| - 1] == b[|b| - 1];
      assert multiset(a + b) == multiset(a) + multiset(b);
    }
    if a != "" && a[|a| - 1] == '\n' {
      assert '\n' in multiset(a);
    }
  }

  /** Where the first `k` lines from a line on end. */
  lemma {:induction false} LinesUpTo(s: string, p: nat, k: nat) returns (e: nat)
    requires p == |s| || StartsLine(s, p)
    requires k <= |LinesFrom(s, p)|
    ensures p <= e <= |s| && LinesFrom(s, e) == LinesFrom(s, p)[k..]
    ensures e == |s| || StartsLine(s, e)
    ensures e < |s| ==> multiset(s[p..e])['\n'] == k
    ensures Count(s[p..e]) == k
    decreases |s| - p
  {
    var lines := LinesFrom(s, p);
    if k == 0 {
      e := p;
      assert lines[0..] == lines && s[p..e] == "";
    } else {
      var next := NextLine(s, p);
      OneLine(s, p);
      assert lines == [s[p..next]] + LinesFrom(s, next);
      hide LinesFrom, StartsLine, NextLine, Count;
      e := LinesUpTo(s, next, k - 1);
      assert lines[k..] == LinesFrom(s, next)[k - 1..];
      LineThenLines(s, p, next, e);
    }
  }

  lemma LineThenLines(s: string, p: nat, next: nat, e: nat)
    requires p < next <= e <= |s| && Count(s[p..next]) == 1
    requires next < |s| ==> multiset(s[p..next])['\n'] == 1
    ensures next < |s| ==> multiset(s[p..e])['\n'] == 1 + multiset(s[next..e])['\n']
    ensures Count(s[p..e]) == 1 + Count(s[next..e])
  {
    assert s[p..e] == s[p..next] + s[next..e];
    if next == e {
      assert s[next..e] == "";
    } else {
      CountJoined(s[p..next], s[next..e]);
    }
  }

  lemma OneLineCounts(body: string)
    requires '\n' !in body
    ensures Count(body + "\n") == multiset(body + "\n")['\n'] == 1
    ensures body != "" ==> Count(body) == 1
  {
    CountJoined(body, "\n");
  }

  lemma OneLine(s: string, p: nat)
    requires StartsLine(s, p)
    ensures var next := NextLine(s, p);
            && Count(s[p..next]) == 1
            && (next < |s| ==> multiset(s[p..next])['\n'] == 1 && StartsLine(s, next))
  {
    hide Count;
    var e, next := LineEnd(s, p), NextLine(s, p);
    AtNextLine(s, p);
    assert '\n' !in s[p..e];
    OneLineCounts(s[p..e]);
    if e < |s| {
      assert s[p..next] == s[p..e] + "\n";
    }
  }

  lemma LinesCounted(s: string, p: nat)
    requires p == |s| || StartsLine(s, p)
    ensures Count(s[p..]) == |LinesFrom(s, p)|
  {
    var lines := LinesFrom(s, p);
    hide LinesFrom, Count, StartsLine;
    var end := LinesUpTo(s, p, |lines|);
    NoLinesLeft(s, end);
    assert s[p..end] == s[p..];
  }

  /** The text of the lines before a line. */
  lemma TextBefore(s: string, k: nat, e: nat)
    requires k <= |LinesOf(s)| && e <= |s| && LinesFrom(s, e) == LinesOf(s)[k..]
    ensures Concat(LinesOf(s)[..k]) == s[..e] && Concat(LinesOf(s)[k..]) == s[e..]
  {
    var lines := LinesOf(s);
    ConcatLines(s, e);
    ConcatLines(s, 0);
    hide LinesFrom, Concat;
    ConcatAppend(lines[..k], lines[k..]);
    assert lines == lines[..k] + lines[k..];
    assert s[0..] == s && s == s[..e] + s[e..];
    SamePrefix(Concat(lines[..k]), s[..e], s[e..], s);
  }

  /** The text of the first lines and that of the others. */
  lemma SplitAfter(s: string, k: nat) returns (e: nat)
    requires k <= |LinesOf(s)|
    ensures e <= |s| && Concat(LinesOf(s)[..k]) == s[..e] && Concat(LinesOf(s)[k..]) == s[e..]
    ensures LinesFrom(s, e) == LinesOf(s)[k..]
    ensures e == |s| || StartsLine(s, e)
    ensures e < |s| ==> multiset(s[..e])['\n'] == k
    ensures Count(s[..e]) == k && Count(s[e..]) == |LinesOf(s)| - k
  {
    hide LinesFrom, Count, Concat, StartsLine;
    assert s == "" || StartsLine(s, 0) by {
      FirstLine(s);
    }
    e := LinesUpTo(s, 0, k);
    assert s[0..e] == s[..e];
    TextBefore(s, k, e);
    LinesCounted(s, e);
  }

  lemma NoLinesLeft(s: string, e: nat)
    requires e <= |s| && LinesFrom(s, e) == []
    ensures e == |s|
  {
  }

  lemma SamePrefix(a: string, b: string, rest: string, whole: string)
    requires a + rest == whole == b + rest
    ensures a == b
  {
    assert a == whole[..|a|] && b == whole[..|b|];
  }

  lemma LongerHasMore(s: string, e: nat, n: nat)
    requires e < n <= |s|
    ensures Count(s[..n]) > multiset(s[..e])['\n']
  {
    hide Count;
    assert s[..n] == s[..e] + s[e..n];
    CountJoined(s[..e], s[e..n]);
    CountJoined(s[e..n], "");
  }

  lemma EarlierHasMore(s: string, e: nat, n: nat)
    requires n < e <= |s| && (e == |s| || StartsLine(s, e))
    ensures Count(s[n..]) > Count(s[e..])
  {
    hide Count;
    if e == |s| {
      assert s[e..] == "";
      CountJoined(s[n..], "");
    } else {
      assert s[n..] == s[n..e] + s[e..];
      assert s[n..e][e - n - 1] == '\n';
      CountJoined(s[n..e], s[e..]);
    }
  }

  lemma HeadTakes(input: string, k: nat)
    ensures IsHead(input, k, FirstLines(input, k))
  {
    hide Count, LinesFrom, Concat;
    var total := |LinesOf(input)|;
    var e := SplitAfter(input, if total <= k then total else k);
    if total <= k {
      NoLinesLeft(input, e);
      assert input[..e] == input;
    } else {
      HeadCut(input, k, e);
    }
  }

  lemma HeadCut(input: string, k: nat, e: nat)
    requires e <= |input| && Count(input[..e]) <= k && (e < |input| ==> multiset(input[..e])['\n'] == k)
    ensures IsHead(input, k, input[..e])
  {
    hide Count;
    forall n | e < n <= |input|
      ensures Count(input[..n]) > k
    {
      LongerHasMore(input, e, n);
    }
  }

  lemma TailTakes(input: string, k: nat)
    ensures IsTail(input, k, LastLines(input, k))
  {
    hide Count, LinesFrom, Concat, IsTail;
    var total := |LinesOf(input)|;
    var e := SplitAfter(input, if total <= k then 0 else total - k);
    if total <= k {
      NoLinesBefore(input, e);
      assert input[0..] == input;
      TailCut(input, k, 0);
    } else {
      TailCut(input, k, e);
    }
  }

  lemma TailCut(input: string, k: nat, e: nat)
    requires e <= |input| && Count(input[e..]) <= k && (e == 0 || Count(input[e..]) == k)
    requires e == |input| || StartsLine(input, e)
    ensures IsTail(input, k, input[e..])
  {
    hide Count;
    forall n | 0 <= n < e
      ensures Count(input[n..]) > k
    {
      EarlierHasMore(input, e, n);
    }
  }

  lemma NoLinesBefore(s: string, e: nat)
    requires e <= |s| && Count(s[..e]) == 0
    ensures e == 0
  {
    CountJoined(s[..e], "");
  }

  /** There is one longest prefix and one longest suffix. */
  lemma OneHead(input: string, k: nat, a: string, b: string)
    requires IsHead(input, k, a) && IsHead(input, k, b)
    ensures a == b
  {
    hide Count;
    assert a == input[..|a|] && b == input[..|b|];
  }

  lemma OneTail(input: string, k: nat, a: string, b: string)
    requires IsTail(input, k, a) && IsTail(input, k, b)
    ensures a == b
  {
    hide Count;
    assert a == input[|input| - |a|..] && b == input[|input| - |b|..];
  }

  // ---- Filters that go line by line

  /** A line with the newline it has. */
  function WholeLine(s: string, p: nat): string
    requires p <= |s|
  {
    LineAt(s, p) + if p + |LineAt(s, p)| < |s| then "\n" else ""
  }

  /** How many ranges hold a line number. */
  function InRanges(sel: Selection, line: nat): nat {
    multiset(seq(|sel|, i requires 0 <= i < |sel| => sel[i].start <= line <= sel[i].end))[true]
  }

  function Copies(text: string, n: nat): string {
    Concat(seq(n, _ => text))
  }

  /** What `sed -n` prints for the line at a place: one copy for each range. */
  function SedRow(s: string, sel: Selection): nat -> string {
    (p: nat) => if p <= |s| then Copies(WholeLine(s, p), InRanges(sel, LineNumber(s, p))) else ""
  }

  /** What `nl -ba` prints for it: the number, right justified, and the line. */
  function NlRow(s: string, sel: Selection): nat -> string {
    (p: nat) => if p <= |s| then Copies(NlLine(s, p), InRanges(sel, LineNumber(s, p))) else ""
  }

  function NlLine(s: string, p: nat): string
    requires p <= |s|
  {
    PadLeft(Decimal(LineNumber(s, p)), 6) + "\t" + LineAt(s, p) + "\n"
  }

  /** What `grep -F` prints for it. */
  ghost function GrepRow(s: string, pattern: string): nat -> string {
    (p: nat) => if p <= |s| && Within(pattern, LineAt(s, p)) then LineAt(s, p) + "\n" else ""
  }

  lemma {:induction false} MatchCountIs(sel: Selection, line: nat)
    ensures MatchCount(sel, line) == InRanges(sel, line)
  {
    if sel != [] {
      MatchCountIs(sel[1..], line);
      var all := seq(|sel|, i requires 0 <= i < |sel| => sel[i].start <= line <= sel[i].end);
      var rest := seq(|sel[1..]|, i requires 0 <= i < |sel[1..]| => sel[1..][i].start <= line <= sel[1..][i].end);
      assert all == [all[0]] + rest;
    }
  }

  lemma {:induction false} RepeatIsCopies(text: string, n: nat)
    ensures Repeat(text, n) == Copies(text, n)
  {
    if n > 0 {
      RepeatIsCopies(text, n - 1);
      var all := seq(n, _ => text);
      assert all[1..] == seq(n - 1, _ => text);
    }
  }

  lemma LineIsWhole(s: string, p: nat)
    requires p < |s|
    ensures s[p..NextLine(s, p)] == WholeLine(s, p)
    ensures TextOf(s[p..NextLine(s, p)]) == LineAt(s, p)
  {
  }

  /** Selecting lines is printing the rows of the selection. */
  lemma {:induction false} SedRows(s: string, sel: Selection, p: nat)
    requires p == |s| || StartsLine(s, p)
    ensures Selected(LinesFrom(s, p), sel, LineNumber(s, p)) == Concat(Pieces(s, SedRow(s, sel))[p..])
    decreases |s| - p
  {
    if p == |s| {
      RowsEnd(s, SedRow(s, sel));
    } else {
      var next := NextLine(s, p);
      AtNextLine(s, p);
      SelectedStep(s, p, sel, LineNumber(s, p));
      RowsStep(s, SedRow(s, sel), p);
      MatchCountIs(sel, LineNumber(s, p));
      RepeatIsCopies(s[p..next], MatchCount(sel, LineNumber(s, p)));
      LineIsWhole(s, p);
      hide Selected, LinesFrom, Pieces, Repeat, Copies, InRanges, MatchCount, StartsLine, LineNumber, WholeLine, Concat;
      if next < |s| {
        SedRows(s, sel, next);
      } else {
        NothingSelected(s, sel, LineNumber(s, p) + 1);
        RowsEnd(s, SedRow(s, sel));
      }
    }
  }

  /** So is numbering lines and selecting among them. */
  lemma {:induction false} NlRows(s: string, sel: Selection, p: nat)
    requires p == |s| || StartsLine(s, p)
    ensures Selected(Numbered(LinesFrom(s, p), LineNumber(s, p)), sel, LineNumber(s, p)) ==
            Concat(Pieces(s, NlRow(s, sel))[p..])
    decreases |s| - p
  {
    if p == |s| {
      RowsEnd(s, NlRow(s, sel));
    } else {
      var next := NextLine(s, p);
      AtNextLine(s, p);
      NumberedStep(s, p, LineNumber(s, p), sel);
      RowsStep(s, NlRow(s, sel), p);
      MatchCountIs(sel, LineNumber(s, p));
      RepeatIsCopies(NumberedLine(LineNumber(s, p), s[p..next]), MatchCount(sel, LineNumber(s, p)));
      LineIsWhole(s, p);
      assert NlLine(s, p) == NumberedLine(LineNumber(s, p), s[p..next]);
      hide Selected, LinesFrom, Numbered, Pieces, Repeat, Copies, InRanges, MatchCount, StartsLine, LineNumber, NlLine;
      hide Concat;
      if next < |s| {
        NlRows(s, sel, next);
      } else {
        NoneNumbered(s, sel, LineNumber(s, p) + 1);
        RowsEnd(s, NlRow(s, sel));
      }
    }
  }

  lemma NoneNumbered(s: string, sel: Selection, line: nat)
    ensures Selected(Numbered(LinesFrom(s, |s|), line), sel, line) == ""
  {
  }

  lemma {:induction false} GrepRows(s: string, pattern: string, p: nat)
    requires (p == |s| || StartsLine(s, p)) && pattern != ""
    ensures MatchingLines(LinesFrom(s, p), pattern) == Concat(Pieces(s, GrepRow(s, pattern))[p..])
    decreases |s| - p
  {
    if p == |s| {
      RowsEnd(s, GrepRow(s, pattern));
    } else {
      var next := NextLine(s, p);
      AtNextLine(s, p);
      GrepStep(s, p, pattern);
      RowsStep(s, GrepRow(s, pattern), p);
      HeldIsWithin(LineAt(s, p), pattern);
      hide MatchingLines, LinesFrom, Pieces, StartsLine, Concat, Contains, Within;
      if next < |s| {
        GrepRows(s, pattern, next);
      } else {
        NothingMatched(s, pattern);
        RowsEnd(s, GrepRow(s, pattern));
      }
    }
  }

  lemma NothingMatched(s: string, pattern: string)
    ensures MatchingLines(LinesFrom(s, |s|), pattern) == ""
  {
  }

  // ---- wc and sort

  lemma {:induction false} NewlinesCounted(s: string)
    ensures Newlines(s) == multiset(s)['\n']
  {
    if s != "" {
      NewlinesCounted(s[1..]);
      assert s == [s[0]] + s[1..];
    }
  }

  /** The lines written out, each with a newline. */
  function Written(lines: seq<string>): string {
    Concat(seq(|lines|, i requires 0 <= i < |lines| => lines[i] + "\n"))
  }

  /** These are the lines of the text, the last one ended or not. */
  ghost predicate LinesAre(s: string, lines: seq<string>) {
    && (forall l :: l in lines ==> '\n' !in l)
    && (Written(lines) == s || (s != "" && s[|s| - 1] != '\n' && Written(lines) == s + "\n"))
  }

  /** The lines of the input in byte order, each as often as it is there. */
  ghost predicate IsSorted(input: string, out: string) {
    exists lines, sorted :: SortedAs(input, out, lines, sorted)
  }

  ghost predicate SortedAs(input: string, out: string, lines: seq<string>, sorted: seq<string>) {
    && LinesAre(input, lines) && multiset(sorted) == multiset(lines)
    && (forall i, j :: 0 <= i < j < |sorted| ==> Sorting.Lexicographic(sorted[i], sorted[j]))
    && out == Written(sorted)
  }

  lemma {:induction false} WrittenOut(lines: seq<string>)
    ensures WithNewlines(lines) == Written(lines)
  {
    if lines != [] {
      WrittenOut(lines[1..]);
      var all := seq(|lines|, i requires 0 <= i < |lines| => lines[i] + "\n");
      assert all[1..] == seq(|lines[1..]|, i requires 0 <= i < |lines[1..]| => lines[1..][i] + "\n");
    }
  }

  /** The newline that is missing at the end. */
  function Missing(s: string, p: nat): string {
    if p < |s| && s[|s| - 1] != '\n' then "\n" else ""
  }

  lemma LineJoins(s: string, p: nat)
    requires StartsLine(s, p)
    ensures var rest := s[NextLine(s, p)..] + Missing(s, NextLine(s, p));
            LineAt(s, p) + "\n" + rest == s[p..] + Missing(s, p)
    ensures '\n' !in LineAt(s, p)
  {
    var e, next := LineEnd(s, p), NextLine(s, p);
    if e < |s| {
      assert s[p..] == s[p..e] + "\n" + s[next..];
    } else {
      assert s[next..] == "" && s[p..] == s[p..e];
      assert s[|s| - 1] != '\n';
    }
  }

  lemma FirstWithNewline(line: string, rest: seq<string>)
    ensures WithNewlines([line] + rest) == line + "\n" + WithNewlines(rest)
    ensures forall l :: l in [line] + rest <==> l == line || l in rest
  {
    assert ([line] + rest)[1..] == rest;
  }

  lemma {:induction false} TextsAreLines(s: string, p: nat)
    requires p == |s| || StartsLine(s, p)
    ensures var lines := TextsOf(LinesFrom(s, p));
            && (forall l :: l in lines ==> '\n' !in l)
            && WithNewlines(lines) == s[p..] + Missing(s, p)
    decreases |s| - p
  {
    if p < |s| {
      var next := NextLine(s, p);
      AtNextLine(s, p);
      TextsStep(s, p);
      LineJoins(s, p);
      TextsAreLines(s, next);
      FirstWithNewline(LineAt(s, p), TextsOf(LinesFrom(s, next)));
    }
  }

  lemma SortIs(input: string)
    ensures IsSorted(input, SortedText(input))
  {
    var lines := TextsOf(LinesOf(input));
    var sorted := Sorting.Sort(lines);
    hide LinesFrom, TextsOf, WithNewlines, Written, Sorting.Sort, Sorting.Le, Sorting.Lexicographic, StartsLine;
    FirstLine(input);
    TextsAreLines(input, 0);
    assert input[0..] == input && input + "" == input;
    WrittenOut(lines);
    WrittenOut(sorted);
    Sorting.SortSorts(lines);
    forall i, j | 0 <= i < j < |sorted|
      ensures Sorting.Lexicographic(sorted[i], sorted[j])
    {
      Sorting.LeIsLexicographic(sorted[i], sorted[j]);
    }
    assert SortedAs(input, SortedText(input), lines, sorted);
  }

  lemma {:induction false} WrittenOnce(a: seq<string>, b: seq<string>)
    requires forall l :: l in a || l in b ==> '\n' !in l
    requires WithNewlines(a) == WithNewlines(b)
    ensures a == b
  {
    if a != [] && b != [] {
      FirstNewline(a[0], WithNewlines(a[1..]), b[0], WithNewlines(b[1..]));
      WrittenOnce(a[1..], b[1..]);
      assert a == [a[0]] + a[1..] && b == [b[0]] + b[1..];
    }
  }

  lemma NewlineAt(line: string, rest: string)
    requires '\n' !in line
    ensures var s := line + "\n" + rest;
            s[|line|] == '\n' && forall k :: 0 <= k < |line| ==> s[k] != '\n'
  {
  }

  lemma FirstNewline(a: string, restA: string, b: string, restB: string)
    requires '\n' !in a && '\n' !in b && a + "\n" + restA == b + "\n" + restB
    ensures a == b && restA == restB
  {
    var s := a + "\n" + restA;
    NewlineAt(a, restA);
    NewlineAt(b, restB);
    assert |a| == |b|;
    assert s[..|a|] == a && s[..|b|] == b;
    assert s[|a| + 1..] == restA && s[|b| + 1..] == restB;
  }

  /** There is one such text. */
  lemma OneSorted(input: string, a: string, b: string)
    requires IsSorted(input, a) && IsSorted(input, b)
    ensures a == b
  {
    hide Written, WithNewlines, Sorting.Lexicographic;
    var lines, sorted :| SortedAs(input, a, lines, sorted);
    var lines', sorted' :| SortedAs(input, b, lines', sorted');
    WrittenOut(lines);
    WrittenOut(lines');
    EndsWithNewline(lines);
    EndsWithNewline(lines');
    assert WithNewlines(lines) == WithNewlines(lines');
    WrittenOnce(lines, lines');
    SortedTwice(sorted, sorted');
  }

  lemma SortedTwice(a: seq<string>, b: seq<string>)
    requires multiset(a) == multiset(b)
    requires forall i, j :: 0 <= i < j < |a| ==> Sorting.Lexicographic(a[i], a[j])
    requires forall i, j :: 0 <= i < j < |b| ==> Sorting.Lexicographic(b[i], b[j])
    ensures a == b
  {
    hide Sorting.Lexicographic;
    forall i, j | 0 <= i < j < |a|
      ensures Sorting.Le(a[i], a[j])
    {
      Sorting.LeIsLexicographic(a[i], a[j]);
    }
    forall i, j | 0 <= i < j < |b|
      ensures Sorting.Le(b[i], b[j])
    {
      Sorting.LeIsLexicographic(b[i], b[j]);
    }
    Sorting.SortedUnique(a, b);
  }

  lemma {:induction false} EndsWithNewline(lines: seq<string>)
    ensures WithNewlines(lines) == "" || WithNewlines(lines)[|WithNewlines(lines)| - 1] == '\n'
  {
    if lines != [] {
      EndsWithNewline(lines[1..]);
    }
  }

  // ---- Every filter

  /** What running a filter does: its output, with no limit on it, and its exit
      status; nothing for other commands and for input it refuses. */
  ghost predicate Does(argv: seq<string>, input: string, out: string, code: int)
    requires argv != []
  {
    var name := BaseName(argv[0]);
    || (name == "cat" && |argv| == 1 && out == input && code == 0)
    || (name == "head" && code == 0 && exists k :: CountWords(argv, k) && IsHead(input, k, out))
    || (name == "tail" && code == 0 && exists k :: CountWords(argv, k) && IsTail(input, k, out))
    || (name == "sed" && code == 0 && exists sel :: ScriptWords(argv, sel) && out == Rows(input, SedRow(input, sel)))
    || (name == "grep" && '\0' !in input &&
        exists pattern, quiet :: GrepWords(argv[1..], pattern, quiet) && GrepDoes(input, pattern, quiet, out, code))
    || (name == "wc" && |argv| == 2 && argv[1] == "-l" && code == 0 && out == Decimal(multiset(input)['\n']) + "\n")
    || (name == "sort" && |argv| == 1 && '\0' !in input && code == 0 && IsSorted(input, out))
  }

  /** The words of a command with a print script. */
  ghost predicate ScriptWords(argv: seq<string>, sel: Selection) {
    |argv| == 3 && argv[1] == "-n" && Prints(argv[2], sel) && |sel| <= MAX_RANGES
  }

  /** The lines that hold the pattern, or none of them; success exactly if there
      is one. The empty pattern is refused. */
  ghost predicate GrepDoes(input: string, pattern: string, quiet: bool, out: string, code: int) {
    && pattern != ""
    && out == (if quiet then "" else Rows(input, GrepRow(input, pattern)))
    && code == if exists p: nat :: Holding(input, pattern, p) then 0 else 1
  }

  /** A line that holds the pattern starts here. */
  ghost predicate Holding(input: string, pattern: string, p: nat) {
    StartsLine(input, p) && Within(pattern, LineAt(input, p))
  }

  lemma GrepIs(input: string, pattern: string)
    requires pattern != ""
    ensures MatchingLines(LinesOf(input), pattern) == Rows(input, GrepRow(input, pattern))
    ensures MatchingLines(LinesOf(input), pattern) != "" <==>
            exists p: nat :: Holding(input, pattern, p)
  {
    hide MatchingLines, LinesFrom, StartsLine, Within;
    FirstLine(input);
    GrepRows(input, pattern, 0);
    RowsEnd(input, GrepRow(input, pattern));
    var pieces := Pieces(input, GrepRow(input, pattern));
    ConcatEmpty(pieces);
    forall p: nat | p < |pieces|
      ensures pieces[p] != "" <==> Holding(input, pattern, p)
    {
    }
    if p: nat :| Holding(input, pattern, p) {
      HoldingInside(input, pattern, p);
      assert pieces[p] != "";
    }
  }

  lemma HoldingInside(input: string, pattern: string, p: nat)
    requires Holding(input, pattern, p)
    ensures p < |input|
  {
  }

  lemma SedIs(input: string, sel: Selection)
    ensures Selected(LinesOf(input), sel, 1) == Rows(input, SedRow(input, sel))
  {
    hide Selected, LinesFrom, StartsLine, Pieces, Concat;
    FirstLine(input);
    SedRows(input, sel, 0);
    RowsEnd(input, SedRow(input, sel));
    assert input[..0] == "";
  }

  lemma {:induction false} FilterDoes(argv: seq<string>, input: string, out: string, code: int)
    requires argv != []
    ensures FilterText(argv, input) == Some((out, code)) <==> Does(argv, input, out, code)
  {
    hide IsHead, IsTail, IsSorted, CountWords, GrepWords, Prints, ParseLineCount, ParseSelection, ParseGrep, BaseName;
    hide FirstLines, LastLines, Selected, LinesOf, MatchingLines, Rows, SortedText, Newlines, StartsLine;
    hide Decimal, Within;
    var name := BaseName(argv[0]);
    if name == "head" || name == "tail" {
      CountIs(argv);
      if ParseLineCount(argv).Some? {
        CutIs(input, ParseLineCount(argv).value, out);
      }
    } else if name == "sed" {
      ScriptIs(argv);
      if ParseStdinSed(argv).Some? {
        SedIs(input, ParseStdinSed(argv).value);
      }
    } else if name == "grep" {
      OperandsIs(argv[1..]);
      var parsed := ParseGrep(argv[1..], false, false, None);
      if parsed.Some? && parsed.value.0 != "" {
        GrepIs(input, parsed.value.0);
      }
    } else if name == "wc" {
      NewlinesCounted(input);
    } else if name == "sort" {
      SortIs(input);
      if IsSorted(input, out) {
        OneSorted(input, out, SortedText(input));
      }
    }
  }

  lemma CountIs(argv: seq<string>)
    ensures forall k: nat :: CountWords(argv, k) <==> ParseLineCount(argv) == Some(k)
  {
    hide CountWords, ParseLineCount;
    forall k: nat
      ensures CountWords(argv, k) <==> ParseLineCount(argv) == Some(k)
    {
      LineCountExact(argv, k);
    }
  }

  lemma ScriptIs(argv: seq<string>)
    ensures forall sel :: ScriptWords(argv, sel) <==> ParseStdinSed(argv) == Some(sel)
  {
    hide Prints, ParseSelection;
    forall sel
      ensures ScriptWords(argv, sel) <==> ParseStdinSed(argv) == Some(sel)
    {
      if |argv| == 3 {
        SelectionExact(argv[2], sel);
      }
    }
  }

  lemma OperandsIs(args: seq<string>)
    ensures forall pattern, quiet ::
              GrepWords(args, pattern, quiet) <==> ParseGrep(args, false, false, None) == Some((pattern, quiet))
  {
    hide GrepWords, ParseGrep;
    forall pattern, quiet
      ensures GrepWords(args, pattern, quiet) <==> ParseGrep(args, false, false, None) == Some((pattern, quiet))
    {
      GrepExact(args, pattern, quiet);
    }
  }

  lemma CutIs(input: string, k: nat, out: string)
    ensures IsHead(input, k, out) <==> out == FirstLines(input, k)
    ensures IsTail(input, k, out) <==> out == LastLines(input, k)
  {
    hide IsHead, IsTail, FirstLines, LastLines;
    HeadTakes(input, k);
    TailTakes(input, k);
    if IsHead(input, k, out) {
      OneHead(input, k, out, FirstLines(input, k));
    }
    if IsTail(input, k, out) {
      OneTail(input, k, out, LastLines(input, k));
    }
  }

  // ---- The numbering source

  function NumberRow(s: string): nat -> string {
    (p: nat) => if p <= |s| then NlLine(s, p) else ""
  }

  lemma {:induction false} NumberRows(s: string, p: nat)
    requires p == |s| || StartsLine(s, p)
    ensures Concat(Numbered(LinesFrom(s, p), LineNumber(s, p))) == Concat(Pieces(s, NumberRow(s))[p..])
    decreases |s| - p
  {
    if p == |s| {
      RowsEnd(s, NumberRow(s));
    } else {
      var next := NextLine(s, p);
      AtNextLine(s, p);
      FirstNumbered(s, p, LineNumber(s, p));
      RowsStep(s, NumberRow(s), p);
      hide LinesFrom, Numbered, Pieces, StartsLine, LineNumber, NlLine, Concat;
      if next < |s| {
        NumberRows(s, next);
      } else {
        NothingNumbered(s, LineNumber(s, p) + 1);
        RowsEnd(s, NumberRow(s));
      }
    }
  }

  lemma FirstNumbered(s: string, p: nat, line: nat)
    requires StartsLine(s, p) && line == LineNumber(s, p)
    ensures Concat(Numbered(LinesFrom(s, p), line)) ==
            NlLine(s, p) + Concat(Numbered(LinesFrom(s, NextLine(s, p)), line + 1))
  {
    hide LineNumber;
    LineIsWhole(s, p);
    var lines, next := LinesFrom(s, p), NextLine(s, p);
    assert lines[0] == s[p..next] && lines[1..] == LinesFrom(s, next);
    var numbered := Numbered(lines, line);
    assert numbered[1..] == Numbered(LinesFrom(s, next), line + 1);
  }

  lemma NothingNumbered(s: string, line: nat)
    ensures Concat(Numbered(LinesFrom(s, |s|), line)) == ""
  {
  }

  /** Every line with its number in six columns and a tab before it. */
  lemma NumberingIs(content: string)
    ensures NumberAll(content) == Rows(content, NumberRow(content))
  {
    hide Numbered, LinesFrom, StartsLine, Pieces, Concat;
    FirstLine(content);
    NumberRows(content, 0);
    RowsEnd(content, NumberRow(content));
    assert content[..0] == "";
  }

  /** Numbering and then selecting: the numbered lines the ranges hold. */
  lemma NlIs(content: string, sel: Selection)
    ensures Selected(Numbered(LinesOf(content), 1), sel, 1) == Rows(content, NlRow(content, sel))
  {
    hide Selected, Numbered, LinesFrom, StartsLine, Pieces, Concat;
    FirstLine(content);
    NlRows(content, sel, 0);
    RowsEnd(content, NlRow(content, sel));
    assert content[..0] == "";
  }

  /** A line that `nl` takes for a section mark starts here. */
  predicate Mark(s: string, p: nat) {
    StartsLine(s, p) && LineAt(s, p) in {"\\:", "\\:\\:", "\\:\\:\\:"}
  }

  lemma {:induction false} MarksFrom(s: string, p: nat)
    requires p == |s| || StartsLine(s, p)
    ensures HasDelimiter(LinesFrom(s, p)) <==> exists q: nat :: p <= q && Mark(s, q)
    decreases |s| - p
  {
    DelimiterStep(s, p);
    if p < |s| {
      var next := NextLine(s, p);
      AtNextLine(s, p);
      MarksFrom(s, next);
      assert IsDelimiter(LineAt(s, p)) <==> Mark(s, p);
    }
  }

  lemma MarksAre(content: string)
    ensures HasDelimiter(LinesOf(content)) <==> exists p: nat :: Mark(content, p)
  {
    FirstLine(content);
    MarksFrom(content, 0);
  }

  /** The joined lines that a directory fingerprint hashes are these lines
      without the last newline. */
  lemma {:induction false} JoinIsWritten(lines: seq<string>)
    requires lines != []
    ensures Sorting.Join(lines) + "\n" == Written(lines)
  {
    WrittenOut(lines);
    if |lines| > 1 {
      JoinIsWritten(lines[1..]);
      WrittenOut(lines[1..]);
    }
  }
}
