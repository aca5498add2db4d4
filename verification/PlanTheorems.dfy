/** The evaluator against the meaning of plans. */
module PlanTheorems {
  import opened Wrappers
  import opened Lines
  import opened Filters
  import opened Arguments
  import opened ShellTokens
  import opened ShellQuote
  import opened ShellPlan
  import opened ShellParser
  import opened PlanMeaning

  // ---- Numbered text

  lemma {:induction false} NumberedCount(lines: seq<string>, first: nat)
    ensures |Numbered(lines, first)| == |lines|
    ensures forall i :: 0 <= i < |lines| ==> |Numbered(lines, first)[i]| >= 1
  {
    if lines != [] {
      NumberedCount(lines[1..], first + 1);
    }
  }

  lemma {:induction false} OneCharEach(lines: seq<string>, end: int, first: int)
    requires 1 <= first && first + |lines| > end && forall i :: 0 <= i < |lines| ==> |lines[i]| >= 1
    ensures |Selected(lines, [Range(1, end)], first)| >= end - first + 1
    decreases |lines|
  {
    if first <= end {
      assert MatchCount([Range(1, end)], first) == 1 + MatchCount([], first);
      assert Repeat(lines[0], 1) == lines[0] + Repeat(lines[0], 0);
      OneCharEach(lines[1..], end, first + 1);
    }
  }

  /** What the warm route prints for `nl -ba` is the whole file numbered. */
  lemma WarmNlNumbersAll(content: string)
    ensures WarmNl(content).Some? ==> WarmNl(content).value == NumberAll(content)
  {
    hide Selected, Numbered, LinesFrom;
    var lines := Numbered(LinesOf(content), 1);
    NumberedCount(LinesOf(content), 1);
    if |lines| >= INT_MAX {
      OneCharEach(lines, INT_MAX, 1);
    } else {
      CutRange(lines, INT_MAX, 1);
      RangeSelects(lines, 1, |lines|, 1);
      assert lines[0..|lines|] == lines;
    }
  }

  // ---- Soundness

  lemma SourceMeans(caches: Caches, argv: seq<string>, globs: set<nat>, dropped: bool)
    requires EvalSource(caches, argv, globs, dropped).Some?
    ensures var r, m := EvalSource(caches, argv, globs, dropped), SourceMeaning(caches, argv, globs, dropped);
            m.Some? && Says(r.value, m.value) && r.value.replay.sources == 1
  {
    hide LinesOf;
    if caches.recorded(argv, globs, dropped).None? {
      WarmNlNumbersAll(caches.warm(argv).value.content);
    }
  }

  /** A print script starts with a digit and holds a `p`, so it is no number. */
  lemma ScriptIsNoCount(s: string)
    requires ParseSelection(s).Some?
    ensures ParseLong(s).None?
  {
    var range := ParseRange(s, 0).value;
    assert s[range.1 - 1] == 'p' && s[range.1 - 1] in s;
  }

  /** The operands of a print script suit no other filter. */
  lemma ScriptIsForSed(argv: seq<string>, input: string)
    requires ParseStdinSed(argv).Some?
    ensures BaseName(argv[0]) != "sed" ==> FilterText(argv, input).None?
    ensures BaseName(argv[0]) == "sed" ==>
              FilterText(argv, input) == Some((Selected(LinesOf(input), ParseStdinSed(argv).value, 1), 0))
  {
    hide BaseName, FirstLines, LastLines, LinesOf, Selected, ParseSelection, MatchingLines, SortedText;
    ScriptIsNoCount(argv[2]);
    assert argv[1..][0] == "-n";
  }

  /** `nl -ba file` means the file numbered, however it is answered. */
  lemma NlMeans(caches: Caches, argv: seq<string>, globs: set<nat>, dropped: bool)
    requires Consistent(caches) && IsNl(argv) && caches.warm(argv).Some?
    requires !HasDelimiter(LinesOf(caches.warm(argv).value.content))
    ensures SourceMeaning(caches, argv, globs, dropped)
         == Some(Outcome(NumberAll(caches.warm(argv).value.content), "", 0, [caches.warm(argv).value.store]))
  {
    hide LinesOf, HasDelimiter, NumberAll, IsNl;
    if caches.recorded(argv, globs, dropped).Some? {
      assert Numbers(caches.recorded(argv, globs, dropped).value, caches.warm(argv).value);
    }
  }

  /** When the fused route answers, its answer is what the pipe means exactly if
      the second command is a `sed`; for another name the pipe means nothing
      this evaluator knows. */
  lemma FusedMeans(caches: Caches, l: Tree, r: Tree, dropped: bool)
    requires Expressible(l) && Expressible(r) && Fused(caches, l, r).Some? && Consistent(caches)
    ensures var m := Meaning(caches, PipeOf(l, r), dropped, None);
            var sed := BaseName(Texts(r.argv)[0]) == "sed";
            (m.Some? <==> sed) && (m.Some? ==> Says(Fused(caches, l, r).value, m.value))
  {
    hide LinesOf, Selected, HasDelimiter, NumberAll, BaseName, IsNl, FilterText, ParseStdinSed;
    hide Numbered, SourceMeaning, Consistent, Fits;
    var a, b := Texts(l.argv), Texts(r.argv);
    var file := caches.warm(a).value;
    NumberingKeepsLines(file.content);
    NlMeans(caches, a, Globs(l.argv), dropped);
    ScriptIsForSed(b, NumberAll(file.content));
  }

  /** Joining results joins what they say. */
  lemma JoinSays(l: Result, r: Result, ml: Outcome, mr: Outcome, out: string)
    requires Says(l, ml) && Says(r, mr) && Join(l, r, out).Some?
    ensures Says(Join(l, r, out).value, Outcome(out, ml.err + mr.err, mr.code, ml.stores + mr.stores))
  {
  }

  lemma CommandMeans(caches: Caches, fuse: bool, t: Tree, dropped: bool, input: Option<string>)
    requires Expressible(t) && t.Command? && Eval(caches, fuse, t, dropped, input).Some?
    ensures Meaning(caches, t, dropped, input).Some?
    ensures Says(Eval(caches, fuse, t, dropped, input).value, Meaning(caches, t, dropped, input).value)
    ensures input.None? ==> Eval(caches, fuse, t, dropped, input).value.replay.sources == 1
  {
    hide EvalSource, SourceMeaning, FilterText;
    if input.None? {
      SourceMeans(caches, Texts(t.argv), Globs(t.argv), dropped);
    }
  }

  lemma FusedFeeds(caches: Caches, l: Tree, r: Tree)
    requires Fused(caches, l, r).Some?
    ensures FeedsScript(l, r) && Fused(caches, l, r).value.replay.sources == 1
  {
    hide LinesOf, Selected, Numbered, HasDelimiter;
  }

  lemma RedirSays(r: Result, m: Outcome)
    requires Says(r, m)
    ensures Says(r.(out := ""), m.(out := "")) && Says(r.(err := ""), m.(err := ""))
  {
    hide Records;
  }

  /** Whatever the evaluator answers is what the plan means, and its replay
      record counts the sources run, at least one, all from one store. */
  lemma {:induction false} EvalMeans(caches: Caches, fuse: bool, t: Tree, dropped: bool, input: Option<string>)
    requires Expressible(t) && Consistent(caches) && (fuse ==> SedNamed(t))
    requires Eval(caches, fuse, t, dropped, input).Some?
    ensures Meaning(caches, t, dropped, input).Some?
    ensures Says(Eval(caches, fuse, t, dropped, input).value, Meaning(caches, t, dropped, input).value)
    ensures input.None? ==> Eval(caches, fuse, t, dropped, input).value.replay.sources >= 1
    decreases t
  {
    hide EvalSource, SourceMeaning, Filter, FilterText, Fused, Join, Consistent, FeedsScript;
    if t.Command? {
      CommandMeans(caches, fuse, t, dropped, input);
    } else if t.NullRedir? {
      EvalMeans(caches, fuse, t.body, dropped || t.fd == 2, input);
      var r, m := Eval(caches, fuse, t.body, dropped || t.fd == 2, input).value,
                  Meaning(caches, t.body, dropped || t.fd == 2, input).value;
      RedirSays(r, m);
    } else if t.PipeOf? && fuse && input.None? && Fused(caches, t.left, t.right).Some? {
      FusedMeans(caches, t.left, t.right, dropped);
      FusedFeeds(caches, t.left, t.right);
    } else {
      EvalMeans(caches, fuse, t.left, dropped, input);
      var left := Eval(caches, fuse, t.left, dropped, input).value;
      if t.AndOf? && left.code != 0 {
      } else {
        var next := if t.PipeOf? then Some(left.out) else input;
        EvalMeans(caches, fuse, t.right, dropped, next);
        var right := Eval(caches, fuse, t.right, dropped, next).value;
        JoinSays(left, right, Meaning(caches, t.left, dropped, input).value,
                 Meaning(caches, t.right, dropped, next).value, (if t.PipeOf? then "" else left.out) + right.out);
      }
    }
  }

  /** Everything of an answer but whether a source read a current file. */
  predicate SameAnswer(a: Result, b: Result) {
    a == b.(replay := b.replay.(current := a.replay.current))
  }

  lemma JoinSame(l: Result, r: Result, l': Result, r': Result, out: string)
    requires SameAnswer(l, l') && SameAnswer(r, r') && Join(l, r, out).Some?
    ensures Join(l', r', out).Some? && SameAnswer(Join(l, r, out).value, Join(l', r', out).value)
  {
  }

  lemma SaySame(a: Result, b: Result, m: Outcome)
    requires Says(a, m) && Says(b, m) && m.stores != []
    ensures SameAnswer(a, b)
  {
    assert m.stores[0] == a.replay.store == b.replay.store;
  }

  /** What the slow path answers, the evaluator with its fused route answers
      too. */
  lemma {:induction false} SlowPathKept(caches: Caches, t: Tree, dropped: bool, input: Option<string>)
    requires Expressible(t) && Consistent(caches) && Eval(caches, false, t, dropped, input).Some?
    ensures Eval(caches, true, t, dropped, input).Some?
    ensures SameAnswer(Eval(caches, false, t, dropped, input).value, Eval(caches, true, t, dropped, input).value)
    decreases t
  {
    hide EvalSource, Filter, Fused, Join, Consistent, Meaning, SedNamed;
    if t.Command? {
    } else if t.NullRedir? {
      SlowPathKept(caches, t.body, dropped || t.fd == 2, input);
    } else if t.PipeOf? && input.None? && Fused(caches, t.left, t.right).Some? {
      EvalMeans(caches, false, t, dropped, input);
      FusedMeans(caches, t.left, t.right, dropped);
      SaySame(Eval(caches, false, t, dropped, input).value, Fused(caches, t.left, t.right).value,
              Meaning(caches, t, dropped, input).value);
    } else {
      SlowPathKept(caches, t.left, dropped, input);
      var left := Eval(caches, false, t.left, dropped, input).value;
      var left' := Eval(caches, true, t.left, dropped, input).value;
      if t.AndOf? && left.code != 0 {
      } else {
        var next := if t.PipeOf? then Some(left.out) else input;
        SlowPathKept(caches, t.right, dropped, next);
        var right := Eval(caches, false, t.right, dropped, next).value;
        var right' := Eval(caches, true, t.right, dropped, next).value;
        JoinSame(left, right, left', right', (if t.PipeOf? then "" else left.out) + right.out);
      }
    }
  }

  // ---- Where the fused route goes wrong

  function Plain(texts: seq<string>): Tree {
    Command(seq(|texts|, i requires 0 <= i < |texts| => Arg(texts[i], false)))
  }

  lemma TwoLines()
    ensures LinesOf("a\nb\n") == ["a\n", "b\n"]
  {
    var s := "a\nb\n";
    assert LineEnd(s, 0) == 1 && LineEnd(s, 2) == 3;
    assert s[0..2] == "a\n" && s[2..4] == "b\n";
  }

  lemma SecondNumbered()
    ensures Selected(Numbered(["a\n", "b\n"], 1), [Range(2, 2)], 1) == "     2\tb\n"
  {
    var lines := Numbered(["a\n", "b\n"], 1);
    assert lines[1..] == [NumberedLine(2, "b\n")];
    assert PadLeft("2", 6) == "     2";
    assert Decimal(2) == "2";
    assert Repeat(lines[1], 1) == lines[1] + Repeat(lines[1], 0);
  }

  lemma SecondLineScript()
    ensures ParseStdinSed(["grep", "-n", "2p"]) == Some([Range(2, 2)])
  {
    assert ParseNumberFrom("2p", 1, 2) == Some((2, 1));
    assert ParseRange("2p", 0) == Some((Range(2, 2), 2));
    var none: Selection := [];
    assert ParseRanges("2p", 0, none) == Some(none + [Range(2, 2)]);
    assert none + [Range(2, 2)] == [Range(2, 2)];
  }

  lemma NoSlash(path: string)
    requires '/' !in path
    ensures BaseName(path) == path
  {
    var name := BaseName(path);
    assert forall i :: 0 <= i < |path| ==> path[i] != '/';
  }

  const NL_F := Plain(["nl", "-ba", "f"])

  const GREP_2P := Plain(["grep", "-n", "2p"])

  lemma GrepFused(caches: Caches)
    requires caches.warm(["nl", "-ba", "f"]) == Some(WarmFile("a\nb\n", "/store", true))
    ensures Fused(caches, NL_F, GREP_2P) == Some(Result("     2\tb\n", "", 0, Replay("/store", 1, true)))
  {
    hide LinesOf, Numbered, Selected, ParseStdinSed, BaseName;
    assert Texts(NL_F.argv) == ["nl", "-ba", "f"] && Texts(GREP_2P.argv) == ["grep", "-n", "2p"];
    TwoLines();
    SecondNumbered();
    SecondLineScript();
    NoSlash("nl");
    assert !HasDelimiter(["a\n", "b\n"]);
  }

  const MISREAD := "nl -ba f" + (" | " + "grep -n 2p")

  const MISREAD_TOKENS := [Word("nl", false), Word("-ba", false), Word("f", false), PipeOp,
                           Word("grep", false), Word("-n", false), Word("2p", false)]

  /** One more token in front of a written text. */
  lemma WriteNext(tokens: seq<Token>, n: nat, word: string, rest: string)
    requires n + 1 < |tokens| && Write(tokens[n]) == word && WriteAll(tokens[n + 1..]) == rest
    ensures WriteAll(tokens[n..]) == word + (" " + rest)
  {
    assert tokens[n..][1..] == tokens[n + 1..];
  }

  lemma SafeWord(w: string)
    requires w != "" && AllSafe(w)
    ensures Write(Word(w, false)) == w && (|w| < WORD_BUF ==> Writable(Word(w, false)))
  {
    assert forall c :: SafeChar(c) ==> Printable(c);
  }

  lemma MisreadWords()
    ensures WriteAll([Word("2p", false)]) == "2p" && Write(PipeOp) == "|"
    ensures Write(Word("nl", false)) == "nl" && Write(Word("-ba", false)) == "-ba" && Write(Word("f", false)) == "f"
    ensures Write(Word("grep", false)) == "grep" && Write(Word("-n", false)) == "-n"
    ensures forall t :: t in MISREAD_TOKENS ==> Writable(t)
  {
    hide Quote, AllSafe, Writable;
    MisreadSafe();
    SafeWord("2p");
    SafeWord("nl");
    SafeWord("-ba");
    SafeWord("f");
    SafeWord("grep");
    SafeWord("-n");
    PipeWritable();
  }

  lemma PipeWritable()
    ensures Writable(PipeOp)
  {
  }

  lemma MisreadSafe()
    ensures AllSafe("2p") && AllSafe("nl") && AllSafe("-ba") && AllSafe("f") && AllSafe("grep") && AllSafe("-n")
  {
  }

  lemma MisreadFilter()
    ensures WriteAll(MISREAD_TOKENS[4..]) == "grep -n 2p"
  {
    hide WriteAll, Write;
    var t := MISREAD_TOKENS;
    MisreadWords();
    WriteNext(t, 5, "-n", "2p");
    assert "-n" + (" " + "2p") == "-n 2p";
    WriteNext(t, 4, "grep", "-n 2p");
  }

  lemma PipeJoins(filter: string)
    ensures "nl" + (" " + ("-ba" + (" " + ("f" + (" " + ("|" + (" " + filter))))))) == "nl -ba f" + (" | " + filter)
  {
    assert "-ba" + (" " + "f") == "-ba f" && "nl" + (" " + "-ba f") == "nl -ba f";
    assert " " + ("|" + (" " + filter)) == " | " + filter;
  }

  lemma MisreadWritten()
    ensures WriteAll(MISREAD_TOKENS) == MISREAD
  {
    hide WriteAll, Write;
    var t := MISREAD_TOKENS;
    MisreadWords();
    MisreadFilter();
    var filter := WriteAll(t[4..]);
    WriteNext(t, 3, "|", filter);
    WriteNext(t, 2, "f", WriteAll(t[3..]));
    WriteNext(t, 1, "-ba", WriteAll(t[2..]));
    WriteNext(t, 0, "nl", WriteAll(t[1..]));
    PipeJoins(filter);
    assert t[0..] == t;
  }

  lemma MisreadPrints()
    ensures Print(PipeOf(NL_F, GREP_2P), 0) == MISREAD_TOKENS
    ensures Expressible(PipeOf(NL_F, GREP_2P)) && Size(PipeOf(NL_F, GREP_2P)) == 3
  {
  }

  /** The command text compiles to the pipe of the two commands. */
  lemma MisreadCompiles()
    ensures PlanOf(MISREAD) == Some(PipeOf(NL_F, GREP_2P))
  {
    hide Print, Writable, PlanOf, Expressible, Size, WriteAll;
    MisreadPrints();
    MisreadWords();
    MisreadWritten();
    CompileWritten(PipeOf(NL_F, GREP_2P));
  }

  /** `nl -ba f | grep -n 2p` asks for the lines holding `2p`; the fused route
      answers it with line 2. */
  lemma FusedMisreadsGrep(caches: Caches)
    requires Consistent(caches)
    requires caches.warm(["nl", "-ba", "f"]) == Some(WarmFile("a\nb\n", "/store", true))
    ensures Meaning(caches, PipeOf(NL_F, GREP_2P), false, None).None?
    ensures Eval(caches, true, PipeOf(NL_F, GREP_2P), false, None)
         == Some(Result("     2\tb\n", "", 0, Replay("/store", 1, true)))
    ensures PlanOf(MISREAD) == Some(PipeOf(NL_F, GREP_2P))
  {
    hide Fused, Meaning, Consistent, BaseName, PlanOf;
    MisreadCompiles();
    GrepFused(caches);
    NoSlash("grep");
    FusedMeans(caches, NL_F, GREP_2P, false);
  }
}
