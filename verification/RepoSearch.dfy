/** Searching an indexed corpus: lines whose Bloom word or text lacks every seed
    are skipped, and the output is that of searching every line. */
module RepoSearch {
  import opened Wrappers
  import opened Lines
  import opened Filters
  import opened Regex
  import opened SeedIndex
  import opened SeedSoundness
  import opened Bloom

  const MAX_FAST_OUTPUT_BYTES := 1024 * 1024

  datatype Query = Query(pattern: string, fixed: bool, quiet: bool, filesWithMatches: bool, lineNumber: bool,
                         showFilename: bool)

  /** A search under way: `regexec` is the compiled expression's verdict on a
      line, `ignoreCase` the resolved case option. */
  datatype Search = Search(query: Query, regexec: string -> bool, ignoreCase: bool)

  datatype Seed = Seed(literal: string, mask: bv64)

  datatype LineRecord = LineRecord(offset: nat, length: nat, bloom: bv64, foldedBloom: bv64)

  /** `name` is the path as it is printed; `foldUnsafe` says that ignoring case
      in this file takes more than ASCII. */
  datatype File = File(name: string, content: string, records: seq<LineRecord>, foldUnsafe: bool)

  // ---- Seeds

  function MakeSeed(literal: string, ignoreCase: bool): Seed {
    var kept := FoldAll(ignoreCase, if |literal| < MAX_SEED_BYTES then literal else literal[..MAX_SEED_BYTES]);
    Seed(kept, Mask(kept))
  }

  function MakeSeeds(literals: seq<string>, ignoreCase: bool): (seeds: seq<Seed>)
    ensures |seeds| == |literals|
    ensures forall i :: 0 <= i < |seeds| ==> seeds[i] == MakeSeed(literals[i], ignoreCase)
  {
    seq(|literals|, i requires 0 <= i < |literals| => MakeSeed(literals[i], ignoreCase))
  }

  /** The literals a pattern requires, none if some alternative has none. */
  function Literals(query: Query): seq<string> {
    if query.fixed then if query.pattern == "" then [] else [query.pattern]
    else if RequiredLiterals(query.pattern).None? then []
    else RequiredLiterals(query.pattern).value
  }

  method FindBrace(p: string, start: nat) returns (i: nat)
    requires start <= |p|
    ensures start <= i <= |p|
    ensures SkipBrace(p[start..]) == if i < |p| then Some(p[i + 1..]) else None
  {
    i := start;
    while i < |p| && p[i] != '}'
      invariant start <= i <= |p|
      invariant SkipBrace(p[i..]) == SkipBrace(p[start..])
    {
      assert p[i..][1..] == p[i + 1..];
      i := i + 1;
    }
    if i < |p| {
      assert p[i..][1..] == p[i + 1..];
    }
  }

  /** One construct of the pattern, as ScanOne does it. */
  method ScanConstruct(p: string, i: nat, st: Scan) returns (r: Option<(Scan, nat)>)
    requires i < |p|
    ensures r.None? <==> ScanOne(p[i..], st).None?
    ensures r.Some? ==> i < r.value.1 <= |p| && ScanOne(p[i..], st) == Some((r.value.0, p[r.value.1..]))
  {
    hide SkipBrace;
    var c := p[i];
    assert p[i..][1..] == p[i + 1..];
    if c == '\\' {
      if i + 1 == |p| {
        return None;
      }
      assert p[i..][2..] == p[i + 2..];
      if st.depth == 0 && !st.inClass && !IsAlnum(p[i + 1]) {
        if |st.current| >= MAX_PATTERN_BYTES {
          return None;
        }
        return Some((st.(current := st.current + [p[i + 1]]), i + 2));
      }
      return Some((Flush(st), i + 2));
    }
    if st.inClass {
      return Some((if c == ']' then st.(inClass := false) else st, i + 1));
    }
    if c == '[' {
      return Some((Flush(st).(inClass := true), i + 1));
    }
    if c == '(' {
      return Some((Flush(st).(depth := st.depth + 1), i + 1));
    }
    if c == ')' {
      if st.depth == 0 {
        return None;
      }
      return Some((st.(depth := st.depth - 1), i + 1));
    }
    if st.depth > 0 {
      return Some((st, i + 1));
    }
    if c == '*' || c == '?' {
      return Some((DropLast(st), i + 1));
    }
    if c == '{' {
      var brace := FindBrace(p, i + 1);
      if brace == |p| {
        return None;
      }
      return Some((DropLast(st), brace + 1));
    }
    if c == '}' {
      return None;
    }
    if c == '.' || c == '^' || c == '$' || c == '+' {
      return Some((Flush(st), i + 1));
    }
    if |st.current| >= MAX_PATTERN_BYTES {
      return None;
    }
    r := Some((st.(current := st.current + [c]), i + 1));
  }

  /** The one pass over the pattern text. */
  method SeedMasks(query: Query, ignoreCase: bool) returns (seeds: seq<Seed>)
    ensures seeds == MakeSeeds(Literals(query), ignoreCase)
  {
    hide ScanOne, MakeSeed, FoldAll;
    var p := query.pattern;
    if query.fixed {
      return if p == "" then [] else [MakeSeed(p, ignoreCase)];
    }
    seeds := [];
    var i, st := 0, START;
    assert p[0..] == p;
    while true
      invariant i <= |p| && ScanText(p[i..], st) == RequiredLiterals(p)
      invariant seeds == MakeSeeds(st.literals, ignoreCase)
      decreases |p| - i
    {
      if i == |p| || (p[i] == '|' && st.depth == 0 && !st.inClass) {
        var best := Flush(st).best;
        if best == "" || |seeds| >= MAX_SEED_MASKS {
          return [];
        }
        seeds := seeds + [MakeSeed(best, ignoreCase)];
        st := st.(current := "", best := "", literals := st.literals + [best]);
        if i == |p| {
          break;
        }
        assert p[i..][1..] == p[i + 1..];
        i := i + 1;
      } else {
        var one := ScanConstruct(p, i, st);
        if one.None? {
          return [];
        }
        ScanKeepsLiterals(p[i..], st);
        st, i := one.value.0, one.value.1;
      }
    }
    if st.depth != 0 || st.inClass {
      seeds := [];
    }
  }

  lemma ScanKeepsLiterals(p: string, st: Scan)
    requires p != "" && ScanOne(p, st).Some?
    ensures ScanOne(p, st).value.0.literals == st.literals
  {
  }

  // ---- Lines

  /** The literal occurs in the line, case apart; an empty literal never. */
  predicate Holds(line: string, literal: string, ignoreCase: bool) {
    Contains(FoldAll(ignoreCase, line), literal)
  }

  /** Compare a folded literal with the line at one place. */
  method HoldsAt(line: string, literal: string, ignoreCase: bool, start: nat) returns (held: bool)
    requires start + |literal| <= |line|
    ensures held <==> OccursAt(FoldAll(ignoreCase, line), literal, start)
  {
    ghost var folded := FoldAll(ignoreCase, line);
    var index := 0;
    while index < |literal|
      invariant 0 <= index <= |literal|
      invariant folded[start..start + index] == literal[..index]
    {
      if Fold(ignoreCase, line[start + index]) != literal[index] {
        assert folded[start..start + |literal|][index] != literal[index];
        return false;
      }
      assert folded[start..start + index + 1] == folded[start..start + index] + [folded[start + index]];
      assert literal[..index + 1] == literal[..index] + [literal[index]];
      index := index + 1;
    }
    assert literal[..|literal|] == literal;
    held := true;
  }

  method SeedMatches(line: string, literal: string, ignoreCase: bool) returns (held: bool)
    ensures held <==> Holds(line, literal, ignoreCase)
  {
    if literal == "" || |literal| > |line| {
      return false;
    }
    var start := 0;
    while start + |literal| <= |line|
      invariant 0 <= start <= |line| - |literal| + 1
      invariant forall k :: 0 <= k < start ==> !OccursAt(FoldAll(ignoreCase, line), literal, k)
    {
      var here := HoldsAt(line, literal, ignoreCase, start);
      if here {
        return true;
      }
      start := start + 1;
    }
    held := false;
  }

  predicate LineMatched(s: Search, line: string) {
    if s.query.fixed then Holds(line, FoldAll(s.ignoreCase, s.query.pattern), s.ignoreCase) else s.regexec(line)
  }

  method MatchLine(s: Search, line: string) returns (matched: bool)
    ensures matched <==> LineMatched(s, line)
  {
    if s.query.fixed {
      matched := SeedMatches(line, FoldAll(s.ignoreCase, s.query.pattern), s.ignoreCase);
    } else {
      matched := s.regexec(line);
    }
  }

  /** What a matched line adds to the output; nothing when quiet. */
  function EmitLine(q: Query, name: string, line: string, number: nat, out: string): Option<string> {
    if q.quiet then Some(out)
    else if q.filesWithMatches then Some(out + name + "\n")
    else
      var text := (if q.showFilename then name + ":" else "") +
                  (if q.lineNumber then Decimal(number) + ":" else "") + line + "\n";
      if |out + text| > MAX_FAST_OUTPUT_BYTES then None else Some(out + text)
  }

  datatype Outcome = Failed | Searched(out: string, matched: bool)

  /** The search of every line in turn: stops at the first match when only the
      fact of a match is asked for. */
  function SearchLines(s: Search, name: string, lines: seq<string>, number: nat, out: string, matched: bool): Outcome
    decreases |lines|
  {
    if lines == [] then Searched(out, matched)
    else if !LineMatched(s, lines[0]) then SearchLines(s, name, lines[1..], number + 1, out, matched)
    else
      var emitted := EmitLine(s.query, name, lines[0], number, out);
      if emitted.None? then Failed
      else if s.query.quiet || s.query.filesWithMatches then Searched(emitted.value, true)
      else SearchLines(s, name, lines[1..], number + 1, emitted.value, true)
  }

  /** A file with a NUL byte is binary and never printed. */
  function SearchFile(s: Search, file: File, out: string, matched: bool): Outcome {
    if '\0' in file.content then Searched(out, matched)
    else SearchLines(s, file.name, TextsOf(LinesOf(file.content)), 1, out, matched)
  }

  /** What the search of the lines from a place on does with the first of them. */
  lemma SearchStep(s: Search, name: string, content: string, offset: nat, number: nat, out: string, matched: bool)
    requires offset < |content|
    ensures var line := content[offset..Lines.LineEnd(content, offset)];
            var rest := TextsOf(LinesFrom(content, NextLine(content, offset)));
            var emitted := EmitLine(s.query, name, line, number, out);
            SearchLines(s, name, TextsOf(LinesFrom(content, offset)), number, out, matched) ==
            if !LineMatched(s, line) then SearchLines(s, name, rest, number + 1, out, matched)
            else if emitted.None? then Failed
            else if s.query.quiet || s.query.filesWithMatches then Searched(emitted.value, true)
            else SearchLines(s, name, rest, number + 1, emitted.value, true)
  {
    hide LineMatched, EmitLine, LinesFrom, TextsOf;
    TextsStep(content, offset);
    var rest := TextsOf(LinesFrom(content, NextLine(content, offset)));
    assert ([content[offset..Lines.LineEnd(content, offset)]] + rest)[1..] == rest;
  }

  lemma NothingLeft(s: Search, name: string, content: string, number: nat, out: string, matched: bool)
    ensures SearchLines(s, name, TextsOf(LinesFrom(content, |content|)), number, out, matched) == Searched(out, matched)
  {
    hide LinesFrom, TextsOf;
    NoMoreLines(content);
  }

  // ---- What a search prints

  /** The line is one the search looks for. */
  ghost predicate Wanted(s: Search, line: string) {
    if s.query.fixed then
      s.query.pattern != "" && Within(FoldAll(s.ignoreCase, s.query.pattern), FoldAll(s.ignoreCase, line))
    else s.regexec(line)
  }

  /** A line the search looks for starts here. */
  ghost predicate Hit(s: Search, content: string, p: nat) {
    StartsLine(content, p) && Wanted(s, LineAt(content, p))
  }

  ghost predicate AnyHit(s: Search, file: File) {
    '\0' !in file.content && exists p :: Hit(s, file.content, p)
  }

  /** The row of a line: the file's name and the line's number where asked for,
      and the line. */
  function Row(q: Query, name: string, content: string, p: nat): string
    requires p <= |content|
  {
    (if q.showFilename then name + ":" else "") +
    (if q.lineNumber then Decimal(LineNumber(content, p)) + ":" else "") + LineAt(content, p) + "\n"
  }

  ghost function HitRow(s: Search, name: string, content: string): nat -> string {
    (p: nat) => if p <= |content| && Wanted(s, LineAt(content, p)) then Row(s.query, name, content, p) else ""
  }

  /** What a file adds to the output: the row of each wanted line in order, or
      its name once, or nothing. */
  ghost function Added(s: Search, file: File): string {
    if s.query.quiet || !AnyHit(s, file) then ""
    else if s.query.filesWithMatches then file.name + "\n"
    else Rows(file.content, HitRow(s, file.name, file.content))
  }

  /** Rows beyond a mebibyte of output are refused. */
  ghost predicate OverLimit(q: Query, out: string) {
    !q.quiet && !q.filesWithMatches && |out| > 1024 * 1024
  }

  /** What the search of a file comes to. */
  ghost predicate FileSearched(s: Search, file: File, out: string, matched: bool, r: Outcome) {
    if AnyHit(s, file) && OverLimit(s.query, out + Added(s, file)) then r == Failed
    else r == Searched(out + Added(s, file), matched || AnyHit(s, file))
  }

  lemma WantedIsMatched(s: Search, line: string)
    ensures LineMatched(s, line) <==> Wanted(s, line)
  {
    if s.query.fixed && s.query.pattern != "" {
      HeldIsWithin(FoldAll(s.ignoreCase, line), FoldAll(s.ignoreCase, s.query.pattern));
    }
  }

  /** Some wanted line starts at a place or after it. */
  ghost predicate HitFrom(s: Search, content: string, p: nat) {
    exists q :: p <= q && Hit(s, content, q)
  }

  lemma HitStep(s: Search, content: string, p: nat)
    requires StartsLine(content, p)
    ensures HitFrom(s, content, p) <==> Wanted(s, LineAt(content, p)) || HitFrom(s, content, NextLine(content, p))
  {
    hide Wanted;
    AtNextLine(content, p);
    if q :| p <= q && Hit(s, content, q) {
      assert q == p || q >= NextLine(content, p);
    }
    if Wanted(s, LineAt(content, p)) {
      assert Hit(s, content, p);
    }
  }

  lemma NoHitLeft(s: Search, content: string)
    ensures !HitFrom(s, content, |content|)
  {
  }

  /** A search that printed these rows after `out`. */
  predicate RowsSearched(r: Outcome, hit: bool, rows: string, out: string, matched: bool) {
    && (!hit ==> rows == "")
    && r == if hit && |out + rows| > MAX_FAST_OUTPUT_BYTES then Failed else Searched(out + rows, matched || hit)
  }

  lemma RowFirst(wanted: bool, mine: string, hit: bool, rest: string, out: string, matched: bool, r: Outcome)
    requires (!wanted ==> mine == "") && RowsSearched(r, hit, rest, out + mine, matched || wanted)
    ensures RowsSearched(if wanted && |out + mine| > MAX_FAST_OUTPUT_BYTES then Failed else r, wanted || hit,
                         mine + rest, out, matched)
  {
    Assoc(out, mine, rest);
    assert "" + rest == rest && out + "" == out;
  }

  /** What the row search does with the first of the lines. */
  lemma SearchRow(s: Search, name: string, content: string, p: nat, number: nat, out: string, matched: bool)
    requires p < |content| && number == LineNumber(content, p) && !s.query.quiet && !s.query.filesWithMatches
    ensures var wanted, mine := Wanted(s, LineAt(content, p)), HitRow(s, name, content)(p);
            && (!wanted ==> mine == "")
            && SearchLines(s, name, TextsOf(LinesFrom(content, p)), number, out, matched) ==
               if wanted && |out + mine| > MAX_FAST_OUTPUT_BYTES then Failed
               else SearchLines(s, name, TextsOf(LinesFrom(content, NextLine(content, p))), number + 1, out + mine,
                                matched || wanted)
  {
    SearchStep(s, name, content, p, number, out, matched);
    WantedIsMatched(s, LineAt(content, p));
    EmitsRow(s.query, name, content, p, out);
    hide SearchLines, LinesFrom, TextsOf, Wanted, LineMatched, LineNumber, Row, EmitLine;
    assert out + "" == out;
  }

  lemma NoRowsLeft(s: Search, name: string, content: string, number: nat, out: string, matched: bool)
    ensures RowsSearched(SearchLines(s, name, TextsOf(LinesFrom(content, |content|)), number, out, matched),
                         HitFrom(s, content, |content|),
                         Concat(Pieces(content, HitRow(s, name, content))[|content|..]), out, matched)
  {
    NothingLeft(s, name, content, number, out, matched);
    NoHitLeft(s, content);
    RowsEnd(content, HitRow(s, name, content));
    assert out + "" == out;
  }

  /** The search that prints rows, from a line on. */
  lemma {:induction false} RowsPrinted(s: Search, name: string, content: string, p: nat, out: string, matched: bool)
    requires (p == |content| || StartsLine(content, p)) && !s.query.quiet && !s.query.filesWithMatches
    ensures RowsSearched(SearchLines(s, name, TextsOf(LinesFrom(content, p)), LineNumber(content, p), out, matched),
                         HitFrom(s, content, p), Concat(Pieces(content, HitRow(s, name, content))[p..]), out, matched)
    decreases |content| - p
  {
    hide SearchLines, LinesFrom, TextsOf, Pieces, Concat, HitFrom, Wanted, LineNumber, HitRow, RowsSearched, NextLine;
    if p == |content| {
      NoRowsLeft(s, name, content, LineNumber(content, p), out, matched);
    } else {
      var next, row := NextLine(content, p), HitRow(s, name, content);
      var wanted := Wanted(s, LineAt(content, p));
      AtNextLine(content, p);
      SearchRow(s, name, content, p, LineNumber(content, p), out, matched);
      HitStep(s, content, p);
      RowsStep(content, row, p);
      if next < |content| {
        RowsPrinted(s, name, content, next, out + row(p), matched || wanted);
      } else {
        NoRowsLeft(s, name, content, LineNumber(content, p) + 1, out + row(p), matched || wanted);
      }
      RowFirst(wanted, row(p), HitFrom(s, content, next), Concat(Pieces(content, row)[next..]), out, matched,
               SearchLines(s, name, TextsOf(LinesFrom(content, next)), LineNumber(content, p) + 1, out + row(p),
                           matched || wanted));
    }
  }

  lemma EmitsRow(q: Query, name: string, content: string, p: nat, out: string)
    requires p < |content| && !q.quiet && !q.filesWithMatches
    ensures var text := Row(q, name, content, p);
            EmitLine(q, name, LineAt(content, p), LineNumber(content, p), out) ==
            if |out + text| > MAX_FAST_OUTPUT_BYTES then None else Some(out + text)
  {
  }

  /** The search that stops at the first wanted line, from a line on. */
  lemma {:induction false} FirstDecides(s: Search, name: string, content: string, p: nat, out: string, matched: bool)
    requires (p == |content| || StartsLine(content, p)) && (s.query.quiet || s.query.filesWithMatches)
    ensures SearchLines(s, name, TextsOf(LinesFrom(content, p)), LineNumber(content, p), out, matched) ==
            if !HitFrom(s, content, p) then Searched(out, matched)
            else Searched(if s.query.quiet then out else out + name + "\n", true)
    decreases |content| - p
  {
    if p == |content| {
      NothingLeft(s, name, content, LineNumber(content, p), out, matched);
      NoHitLeft(s, content);
    } else {
      var next := NextLine(content, p);
      AtNextLine(content, p);
      SearchStep(s, name, content, p, LineNumber(content, p), out, matched);
      WantedIsMatched(s, LineAt(content, p));
      HitStep(s, content, p);
      hide SearchLines, LinesFrom, TextsOf, HitFrom, Wanted, LineMatched, StartsLine, LineNumber;
      if next < |content| {
        FirstDecides(s, name, content, next, out, matched);
      } else {
        NothingLeft(s, name, content, LineNumber(content, p) + 1, out, matched);
        NoHitLeft(s, content);
      }
    }
  }

  lemma SearchPrints(s: Search, file: File, out: string, matched: bool)
    ensures FileSearched(s, file, out, matched, SearchFile(s, file, out, matched))
  {
    hide SearchLines, LinesFrom, TextsOf, StartsLine, Pieces, Concat, Wanted;
    var content := file.content;
    assert out + "" == out;
    if '\0' !in content {
      FirstLine(content);
      assert content[..0] == "";
      assert HitFrom(s, content, 0) <==> exists p :: Hit(s, content, p);
      if s.query.quiet || s.query.filesWithMatches {
        FirstDecides(s, file.name, content, 0, out, matched);
        Assoc(out, file.name, "\n");
      } else {
        RowsPrinted(s, file.name, content, 0, out, matched);
        RowsEnd(content, HitRow(s, file.name, content));
      }
    }
  }

  method EvalPlainFile(s: Search, file: File, out: string, matched: bool) returns (r: Outcome)
    ensures r == SearchFile(s, file, out, matched)
    ensures FileSearched(s, file, out, matched, r)
  {
    SearchPrints(s, file, out, matched);
    hide FileSearched;
    hide LineMatched, EmitLine, LinesFrom, TextsOf, SearchLines;
    if '\0' in file.content {
      return Searched(out, matched);
    }
    var content := file.content;
    var offset, number, res, any := 0, 1, out, matched;
    while offset < |content|
      invariant 0 <= offset <= |content|
      invariant SearchFile(s, file, out, matched) ==
                SearchLines(s, file.name, TextsOf(LinesFrom(content, offset)), number, res, any)
      decreases |content| - offset
    {
      SearchStep(s, file.name, content, offset, number, res, any);
      var lineEnd, next := FindLine(content, offset);
      var hit := MatchLine(s, content[offset..lineEnd]);
      if hit {
        var emitted := EmitLine(s.query, file.name, content[offset..lineEnd], number, res);
        if emitted.None? {
          return Failed;
        }
        res, any := emitted.value, true;
        if s.query.quiet || s.query.filesWithMatches {
          return Searched(res, any);
        }
      }
      offset, number := next, number + 1;
    }
    NothingLeft(s, file.name, content, number, res, any);
    r := Searched(res, any);
  }

  lemma NoMoreLines(content: string)
    ensures TextsOf(LinesFrom(content, |content|)) == []
  {
  }

  // ---- The index

  /** The records of a text: its newline split, each line with the Bloom words
      of its bytes as they are and in lower case. */
  function RecordsFrom(content: string, offset: nat): seq<LineRecord>
    requires offset <= |content|
    decreases |content| - offset
  {
    if offset == |content| then []
    else
      var line := content[offset..Lines.LineEnd(content, offset)];
      [LineRecord(offset, |line|, Mask(line), Mask(FoldAll(true, line)))] +
      RecordsFrom(content, NextLine(content, offset))
  }

  /** The compiled expression is one the index understands and decides as its
      matching semantics does. */
  ghost predicate Understood(s: Search, re: Regex) {
    s.query.fixed ||
    (Indexable(re) && s.query.pattern == Print(re) && |Print(re)| <= MAX_PATTERN_BYTES &&
     forall line :: s.regexec(line) <==> LineMatches(re, s.ignoreCase, line))
  }

  /** The line passes the Bloom word and holds the seed. */
  predicate Candidate(seed: Seed, line: string, bloom: bv64, ignoreCase: bool) {
    Covers(bloom, seed.mask) && Holds(line, seed.literal, ignoreCase)
  }

  /** A seed cut short is still held, and its mask covered. */
  lemma HeldSeed(literal: string, line: string, ignoreCase: bool, k: nat)
    requires literal != "" && OccursAt(FoldAll(ignoreCase, line), FoldAll(ignoreCase, literal), k)
    ensures Candidate(MakeSeed(literal, ignoreCase), line, Mask(FoldAll(ignoreCase, line)), ignoreCase)
  {
    hide Mask;
    var text, whole := FoldAll(ignoreCase, line), FoldAll(ignoreCase, literal);
    var kept := MakeSeed(literal, ignoreCase).literal;
    assert kept == whole[..|kept|];
    assert text[k..k + |whole|][..|kept|] == text[k..k + |kept|];
    assert OccursAt(text, kept, k);
    HeldMaskCovered(text, kept, k);
  }

  /** A matched line is a candidate for some seed. */
  lemma MatchedIsCandidate(s: Search, re: Regex, line: string) returns (n: nat)
    requires Understood(s, re) && Literals(s.query) != [] && LineMatched(s, line)
    ensures n < |Literals(s.query)|
    ensures Candidate(MakeSeeds(Literals(s.query), s.ignoreCase)[n], line, Mask(FoldAll(s.ignoreCase, line)),
                      s.ignoreCase)
  {
    hide Candidate, Mask, MakeSeed, RequiredLiterals, LineMatches;
    var literals := Literals(s.query);
    if s.query.fixed {
      n := 0;
      var k: nat :| OccursAt(FoldAll(s.ignoreCase, line), FoldAll(s.ignoreCase, s.query.pattern), k);
      HeldSeed(literals[0], line, s.ignoreCase, k);
    } else {
      MatchedLineHoldsSeed(re, s.ignoreCase, line);
      n :| n < |literals| && Held(literals[n], s.ignoreCase, line, |line|);
      ScanFindsRuns(re);
      var k: nat :| k + |literals[n]| <= |line| &&
                    OccursAt(FoldAll(s.ignoreCase, line), FoldAll(s.ignoreCase, literals[n]), k);
      HeldSeed(literals[n], line, s.ignoreCase, k);
    }
  }

  method IsCandidate(seeds: seq<Seed>, line: string, bloom: bv64, ignoreCase: bool) returns (candidate: bool)
    ensures candidate <==> exists n :: 0 <= n < |seeds| && Candidate(seeds[n], line, bloom, ignoreCase)
  {
    for n := 0 to |seeds|
      invariant forall m :: 0 <= m < n ==> !Candidate(seeds[m], line, bloom, ignoreCase)
    {
      if Covers(bloom, seeds[n].mask) {
        var held := SeedMatches(line, seeds[n].literal, ignoreCase);
        if held {
          return true;
        }
      }
    }
    candidate := false;
  }

  /** A line that is no candidate for any seed is not matched. */
  lemma NoCandidateNoMatch(s: Search, re: Regex, line: string, bloom: bv64)
    requires Understood(s, re) && Literals(s.query) != [] && bloom == Mask(FoldAll(s.ignoreCase, line))
    requires var seeds := MakeSeeds(Literals(s.query), s.ignoreCase);
             forall n :: 0 <= n < |seeds| ==> !Candidate(seeds[n], line, bloom, s.ignoreCase)
    ensures !LineMatched(s, line)
  {
    hide Understood, Candidate, Literals, Mask, MakeSeed, LineMatched;
    if LineMatched(s, line) {
      var n := MatchedIsCandidate(s, re, line);
    }
  }

  /** The first record describes the first line, the others the rest. */
  lemma RecordsStep(content: string, offset: nat, records: seq<LineRecord>)
    requires offset <= |content| && records == RecordsFrom(content, offset)
    ensures records == [] <==> offset == |content|
    ensures records != [] ==>
              var line := content[offset..Lines.LineEnd(content, offset)];
              && records[0] == LineRecord(offset, |line|, Mask(line), Mask(FoldAll(true, line)))
              && records[1..] == RecordsFrom(content, NextLine(content, offset))
  {
    hide Mask, FoldAll;
  }

  /** The indexed search of a file: only candidates are matched. */
  method EvalIndexedFile(s: Search, file: File, seeds: seq<Seed>, out: string, matched: bool, ghost re: Regex)
    returns (r: Outcome)
    requires seeds != [] && seeds == MakeSeeds(Literals(s.query), s.ignoreCase)
    requires Understood(s, re) && file.records == RecordsFrom(file.content, 0)
    ensures r == SearchFile(s, file, out, matched)
    ensures FileSearched(s, file, out, matched, r)
  {
    SearchPrints(s, file, out, matched);
    hide FileSearched;
    hide LineMatched, EmitLine, LinesFrom, TextsOf, Understood, Candidate, Literals, Mask, MakeSeed, Fold, FoldAll;
    hide SearchLines, RecordsFrom;
    if '\0' in file.content {
      return Searched(out, matched);
    }
    var content := file.content;
    var res, any := out, matched;
    ghost var offset := 0;
    for index := 0 to |file.records|
      invariant 0 <= offset <= |content|
      invariant file.records[index..] == RecordsFrom(content, offset)
      invariant SearchFile(s, file, out, matched) ==
                SearchLines(s, file.name, TextsOf(LinesFrom(content, offset)), index + 1, res, any)
    {
      var record := file.records[index];
      RecordsStep(content, offset, file.records[index..]);
      if record.offset > |content| || record.length > |content| - record.offset {
        return Failed;
      }
      var line := content[record.offset..record.offset + record.length];
      SearchStep(s, file.name, content, offset, index + 1, res, any);
      var bloom := if s.ignoreCase then record.foldedBloom else record.bloom;
      PlainFold(line);
      var candidate := IsCandidate(seeds, line, bloom, s.ignoreCase);
      var hit := false;
      if candidate {
        hit := MatchLine(s, line);
      } else {
        NoCandidateNoMatch(s, re, line, bloom);
      }
      if hit {
        var emitted := EmitLine(s.query, file.name, line, index + 1, res);
        if emitted.None? {
          return Failed;
        }
        res, any := emitted.value, true;
        if s.query.quiet || s.query.filesWithMatches {
          return Searched(res, any);
        }
      }
      offset := NextLine(content, offset);
      assert file.records[index + 1..] == file.records[index..][1..];
    }
    RecordsStep(content, offset, []);
    NothingLeft(s, file.name, content, |file.records| + 1, res, any);
    r := Searched(res, any);
  }

  lemma PlainFold(line: string)
    ensures FoldAll(false, line) == line
  {
  }

  /** Search a file, through the index when every alternative has a seed. */
  method EvalFile(s: Search, file: File, seeds: seq<Seed>, out: string, matched: bool, ghost re: Regex)
    returns (r: Outcome)
    requires seeds == MakeSeeds(Literals(s.query), s.ignoreCase)
    requires Understood(s, re) && file.records == RecordsFrom(file.content, 0)
    ensures r == SearchFile(s, file, out, matched)
    ensures FileSearched(s, file, out, matched, r)
  {
    if |seeds| > 0 {
      r := EvalIndexedFile(s, file, seeds, out, matched, re);
    } else {
      r := EvalPlainFile(s, file, out, matched);
    }
  }

  /** Until it stops early a search only adds to its output, and a match, once
      seen, is kept. */
  lemma {:induction false} SearchOnlyAdds(s: Search, name: string, lines: seq<string>, number: nat, out: string,
                                          matched: bool)
    ensures var r := SearchLines(s, name, lines, number, out, matched);
            r.Searched? ==> out <= r.out && (matched ==> r.matched) && (s.query.quiet ==> r.out == out) &&
                            (r.matched <==> matched || exists i :: 0 <= i < |lines| && LineMatched(s, lines[i]))
    decreases |lines|
  {
    hide LineMatched;
    if lines != [] {
      if !LineMatched(s, lines[0]) {
        SearchOnlyAdds(s, name, lines[1..], number + 1, out, matched);
      } else {
        var emitted := EmitLine(s.query, name, lines[0], number, out);
        if emitted.Some? && !s.query.quiet && !s.query.filesWithMatches {
          SearchOnlyAdds(s, name, lines[1..], number + 1, emitted.value, true);
        }
      }
    }
  }
}
