/** The evaluator that walks the node array of a compiled plan. */
module ShellEval {
  import opened Wrappers
  import opened Lines
  import opened Filters
  import opened Arguments
  import opened ShellTokens
  import opened ShellPlan
  import opened ShellParser
  import opened PlanLayout
  import opened PlanMeaning
  import opened PlanTheorems
  import opened FilterMeaning

  // ---- The record of what an answer was replayed from

  /** Count one more source, which must come from the store of the others. */
  method NoteReplay(replay: Replay, store: Store, current: bool) returns (r: Option<Replay>)
    ensures r == Merge(replay, Replay(store, 1, current))
    ensures forall a :: Records(replay, a) ==>
              && (r.Some? <==> AllFrom(a, store))
              && (r.Some? ==> Records(r.value, a + [store]) && r.value.current == (replay.current || current))
  {
    if replay.store != "" && replay.store != store {
      forall a | Records(replay, a)
        ensures !AllFrom(a, store)
      {
        assert a[0] == replay.store;
      }
      return None;
    }
    r := Some(Replay(store, replay.sources + 1, replay.current || current));
  }

  /** Merge two records: possible exactly if all their sources come from one
      store, and then the record of them all. */
  method MergeReplay(dst: Replay, src: Replay) returns (r: Option<Replay>)
    ensures r == Merge(dst, src)
    ensures forall a, b :: Records(dst, a) && Records(src, b) ==>
              && (r.Some? <==> exists store :: AllFrom(a + b, store))
              && (r.Some? ==> Records(r.value, a + b) && r.value.current == (dst.current || src.current))
  {
    forall a, b | Records(dst, a) && Records(src, b)
      ensures Merge(dst, src).Some? <==> exists store :: AllFrom(a + b, store)
      ensures Merge(dst, src).Some? ==> Records(Merge(dst, src).value, a + b)
    {
      MergeRecords(dst, src, a, b);
    }
    if src.sources == 0 {
      return Some(dst);
    }
    if src.store == "" || (dst.store != "" && dst.store != src.store) {
      return None;
    }
    r := Some(Replay(src.store, dst.sources + src.sources, dst.current || src.current));
  }

  lemma MergeRecords(dst: Replay, src: Replay, a: seq<string>, b: seq<string>)
    requires Records(dst, a) && Records(src, b)
    ensures Merge(dst, src).Some? <==> exists store :: AllFrom(a + b, store)
    ensures Merge(dst, src).Some? ==> Records(Merge(dst, src).value, a + b)
  {
    if Merge(dst, src).Some? {
      assert b == [] ==> a + b == a;
      assert AllFrom(a + b, Merge(dst, src).value.store);
    } else {
      assert (a + b)[0] == dst.store && (a + b)[|a|] == src.store;
    }
  }

  /** What a node keeps of its tree. */
  predicate NodeIs(node: Node, u: Tree, dropped: bool) {
    && Expressible(u) && node.kind == KindOf(u) && node.stderrDiscarded == dropped
    && (u.Command? ==> node.argv == Texts(u.argv) && node.globs == Globs(u.argv))
    && (u.NullRedir? ==> node.fd == u.fd)
  }

  // ---- Commands

  /** The output limits of the filters that have one. */
  predicate TooLong(name: string, out: string) {
    || (name in {"head", "tail", "sed"} && |out| > 2 * 1024 * 1024)
    || (name == "sort" && |out| > 64 * 1024)
  }

  lemma FilterAnswers(argv: seq<string>, input: string)
    requires argv != []
    ensures var r := Filter(argv, input);
            && (r.Some? ==> Does(argv, input, r.value.0, r.value.1))
            && (r.None? ==> forall out, code :: Does(argv, input, out, code) ==> TooLong(BaseName(argv[0]), out))
  {
    hide Does, FilterText, BaseName;
    forall out, code
      ensures FilterText(argv, input) == Some((out, code)) <==> Does(argv, input, out, code)
    {
      FilterDoes(argv, input, out, code);
    }
  }

  /** The filter that the words name, if there is one. */
  method RunFilter(argv: seq<string>, input: string) returns (r: Option<Result>)
    requires argv != []
    ensures r == var f := Filter(argv, input);
                 if f.None? then None else Some(Result(f.value.0, "", f.value.1, NO_REPLAY))
  {
    hide FirstLines, LastLines, LinesOf, Selected, MatchingLines, SortedText, Newlines, ParseGrep, ParseLong;
    hide ParseSelection, BaseName;
    var name := BaseName(argv[0]);
    var ok, matched, text, code := true, true, "", 0;
    var count := ParseLineCount(argv);
    var grep := ParseGrep(argv[1..], false, false, None);
    if name == "cat" && |argv| == 1 {
      text := input;
    } else if name == "head" && count.Some? {
      HeadSelects(input, count.value);
      ok, text := AppendLineSelection("", input, [Range(1, count.value)], MAX_COMPOSED_INTERMEDIATE_BYTES);
      FromEmpty(FirstLines(input, count.value));
    } else if name == "tail" && count.Some? {
      ok, text := AppendTailLines("", input, count.value);
      FromEmpty(LastLines(input, count.value));
    } else if name == "sed" && ParseStdinSed(argv).Some? {
      var sel := ParseSedPrintSelection(argv[2]);
      SelectionNonempty(argv[2]);
      ok, text := AppendLineSelection("", input, sel.value, MAX_COMPOSED_INTERMEDIATE_BYTES);
      FromEmpty(Selected(LinesOf(input), sel.value, 1));
    } else if name == "grep" && grep.Some? {
      ok, matched, text := AppendFixedGrep("", input, grep.value.0, grep.value.1);
      FromEmpty(MatchingLines(LinesOf(input), grep.value.0));
      code := if matched then 0 else 1;
    } else if name == "wc" && |argv| == 2 && argv[1] == "-l" {
      text := AppendWcLineCount("", input);
      FromEmpty(Decimal(Newlines(input)));
    } else if name == "sort" && |argv| == 1 {
      ok, text := AppendSortedLines(input);
    } else {
      ok := false;
    }
    r := if ok then Some(Result(text, "", code, NO_REPLAY)) else None;
  }

  /** Run a filter: what it does, unless that is over its limit. */
  method EvalFilter(argv: seq<string>, input: string) returns (r: Option<Result>)
    requires argv != []
    ensures r == var f := Filter(argv, input);
                 if f.None? then None else Some(Result(f.value.0, "", f.value.1, NO_REPLAY))
    ensures r.Some? ==> Does(argv, input, r.value.out, r.value.code) && r.value.err == "" && r.value.replay.sources == 0
    ensures r.None? ==> forall out, code :: Does(argv, input, out, code) ==> TooLong(BaseName(argv[0]), out)
  {
    FilterAnswers(argv, input);
    hide Does, TooLong, Filter, BaseName;
    r := RunFilter(argv, input);
  }

  lemma FromEmpty(s: string)
    ensures "" + s == s
  {
  }

  lemma SelectionNonempty(s: string)
    ensures ParseSelection(s).Some? ==> ParseSelection(s).value != []
  {
    RangesNonempty(s, 0, []);
  }

  lemma {:induction false} RangesNonempty(s: string, i: nat, sel: Selection)
    requires i <= |s|
    ensures ParseRanges(s, i, sel).Some? ==> ParseRanges(s, i, sel).value != []
    decreases |s| - i
  {
    if i < |s| && |sel| < MAX_RANGES && ParseRange(s, i).Some? {
      var (r, next) := ParseRange(s, i).value;
      if next + 1 < |s| && s[next] == ';' {
        RangesNonempty(s, next + 1, sel + [r]);
      }
    }
  }

  /** The numbered lines of a proven file that a selection prints. */
  function NumberedFile(file: WarmFile, sel: Selection): Option<Result> {
    var text := Selected(Numbered(LinesOf(file.content), 1), sel, 1);
    if HasDelimiter(LinesOf(file.content)) || !Fits("", text, MAX_FILE_OUTPUT_BYTES) then None
    else Some(Result(text, "", 0, Replay(file.store, 1, file.current)))
  }

  method ApplyNl(file: WarmFile, sel: Selection) returns (res: Option<Result>)
    requires sel != []
    ensures res == NumberedFile(file, sel)
  {
    hide LinesOf, Selected, Numbered, HasDelimiter, Fits;
    var ok, text := AppendNlSelection("", file.content, sel, MAX_FILE_OUTPUT_BYTES);
    FromEmpty(Selected(Numbered(LinesOf(file.content), 1), sel, 1));
    if !ok {
      return None;
    }
    var replay := NoteReplay(NO_REPLAY, file.store, file.current);
    res := Some(Result(text, "", 0, replay.value));
  }

  method EvalSourceNode(caches: Caches, node: Node) returns (r: Option<Result>)
    requires node.argv != []
    ensures r == EvalSource(caches, node.argv, node.globs, node.stderrDiscarded)
    ensures r.Some? && caches.recorded(node.argv, node.globs, node.stderrDiscarded).None? ==>
              && |node.argv| == 3 && BaseName(node.argv[0]) == "nl" && node.argv[1] == "-ba"
              && caches.warm(node.argv).Some? && Numbering(caches.warm(node.argv).value.content, r.value.out)
  {
    hide LinesOf, Selected, Numbered, HasDelimiter, Fits, BaseName;
    var recorded := caches.recorded(node.argv, node.globs, node.stderrDiscarded);
    if recorded.Some? {
      var s := recorded.value;
      var replay := NoteReplay(NO_REPLAY, s.store, s.current);
      return Some(Result(s.out, s.err, s.code, replay.value));
    }
    if !IsNl(node.argv) {
      return None;
    }
    var file := caches.warm(node.argv);
    if file.None? {
      return None;
    }
    r := ApplyNl(file.value, [Range(1, INT_MAX)]);
    if r.None? {
      return;
    }
    WarmNlNumbersAll(file.value.content);
    NumberingIs(file.value.content);
    MarksAre(file.value.content);
  }

  /** Every line numbered; no line is a section mark. */
  ghost predicate Numbering(content: string, out: string) {
    out == Rows(content, NumberRow(content)) && forall p :: !Mark(content, p)
  }

  /** The numbered lines a script selects. */
  ghost predicate NumberedSelection(content: string, argv: seq<string>, out: string) {
    && (exists sel :: ScriptWords(argv, sel) && out == Rows(content, NlRow(content, sel)))
    && forall p :: !Mark(content, p)
  }

  lemma NumberedSelects(content: string, argv: seq<string>, sel: Selection)
    requires ParseStdinSed(argv) == Some(sel) && !HasDelimiter(LinesOf(content))
    ensures NumberedSelection(content, argv, Selected(Numbered(LinesOf(content), 1), sel, 1))
  {
    hide ScriptWords, Rows, Selected;
    ScriptIs(argv);
    NlIs(content, sel);
    MarksAre(content);
  }

  method EvalNlSedPipe(caches: Caches, l: Node, r: Node, ghost lt: Tree, ghost rt: Tree, ghost dropped: bool)
    returns (res: Option<Result>)
    requires NodeIs(l, lt, dropped) && NodeIs(r, rt, dropped)
    ensures res == Fused(caches, lt, rt)
    ensures res.Some? ==>
              && |l.argv| == 3 && BaseName(l.argv[0]) == "nl" && l.argv[1] == "-ba"
              && caches.warm(l.argv).Some?
              && NumberedSelection(caches.warm(l.argv).value.content, r.argv, res.value.out)
  {
    hide LinesOf, Selected, Numbered, HasDelimiter, Fits, BaseName, ParseSelection, NumberedSelection;
    if l.kind != ExecNode || r.kind != ExecNode || !IsNl(l.argv) || ParseStdinSed(r.argv).None? {
      return None;
    }
    var sel := ParseSedPrintSelection(r.argv[2]);
    SelectionNonempty(r.argv[2]);
    var file := caches.warm(l.argv);
    if file.None? {
      return None;
    }
    res := ApplyNl(file.value, sel.value);
    if res.None? {
      return;
    }
    NumberedSelects(file.value.content, r.argv, sel.value);
  }

  // ---- Nodes

  /** The plan is the layout of a tree the grammar produces. */
  ghost predicate IsPlan(nodes: seq<Node>, t: Tree) {
    Expressible(t) && nodes == Layout(t, 0, false)
  }

  /** The subtree a node stands for. */
  ghost predicate At(t: Tree, idx: nat, u: Tree, dropped: bool)
    ensures At(t, idx, u, dropped) ==> idx < Size(t)
  {
    idx < Size(t) && SubtreeAt(t, idx) == u && DroppedAt(t, idx, false) == dropped
  }

  method EvalNode(caches: Caches, nodes: seq<Node>, idx: nat, input: Option<string>,
                  ghost t: Tree, ghost u: Tree, ghost dropped: bool)
    returns (r: Option<Result>)
    requires IsPlan(nodes, t) && At(t, idx, u, dropped)
    ensures Expressible(u) && r == Eval(caches, true, u, dropped, input)
    decreases idx, 1
  {
    hide Layout, At, Filter, EvalSource, Join, Fused;
    NodeFacts(t, idx, u, dropped);
    var node := nodes[idx];
    match node.kind {
      case ExecNode =>
        if input.Some? {
          r := EvalFilter(node.argv, input.value);
        } else {
          r := EvalSourceNode(caches, node);
        }
      case RedirNode =>
        r := EvalNode(caches, nodes, node.left, input, t, u.body, dropped || u.fd == 2);
        if r.None? {
          return;
        }
        if node.fd == 1 {
          r := Some(r.value.(out := ""));
        } else if node.fd == 2 {
          r := Some(r.value.(err := ""));
        } else {
          r := None;
        }
      case _ =>
        r := EvalBinary(caches, nodes, node.left, node.right, input, node.kind, t, u, dropped);
    }
  }

  method EvalBinary(caches: Caches, nodes: seq<Node>, leftIdx: nat, rightIdx: nat, input: Option<string>, kind: Kind,
                    ghost t: Tree, ghost u: Tree, ghost dropped: bool)
    returns (r: Option<Result>)
    requires IsPlan(nodes, t) && !u.Command? && !u.NullRedir? && kind == KindOf(u) && Expressible(u)
    requires At(t, leftIdx, u.left, dropped) && At(t, rightIdx, u.right, dropped)
    ensures r == Eval(caches, true, u, dropped, input)
    decreases if leftIdx < rightIdx then rightIdx + 1 else leftIdx + 1, 0
  {
    hide Layout, At, Filter, EvalSource, Merge, Fused;
    NodeFacts(t, leftIdx, u.left, dropped);
    NodeFacts(t, rightIdx, u.right, dropped);
    if kind == PipeNode && input.None? {
      r := EvalNlSedPipe(caches, nodes[leftIdx], nodes[rightIdx], u.left, u.right, dropped);
      if r.Some? {
        return;
      }
    }
    var left := EvalNode(caches, nodes, leftIdx, input, t, u.left, dropped);
    if left.None? {
      return None;
    }
    if kind == AndNode && left.value.code != 0 {
      return left;
    }
    var next := if kind == PipeNode then Some(left.value.out) else input;
    var right := EvalNode(caches, nodes, rightIdx, next, t, u.right, dropped);
    if right.None? {
      return None;
    }
    var out := if kind == PipeNode then right.value.out else left.value.out + right.value.out;
    assert "" + right.value.out == right.value.out;
    var replay := MergeReplay(NO_REPLAY, left.value.replay);
    if replay.Some? {
      replay := MergeReplay(replay.value, right.value.replay);
    }
    r := if replay.None? then None
         else Some(Result(out, left.value.err + right.value.err, right.value.code, replay.value));
  }

  lemma NodeFacts(t: Tree, idx: nat, u: Tree, dropped: bool)
    requires Expressible(t) && At(t, idx, u, dropped)
    ensures var node := Layout(t, 0, false)[idx];
            && NodeIs(node, u, dropped)
            && (u.NullRedir? ==> 0 <= node.left < idx && At(t, node.left, u.body, dropped || u.fd == 2))
            && (!u.Command? && !u.NullRedir? ==>
                  && 0 <= node.left < idx && At(t, node.left, u.left, dropped)
                  && 0 <= node.right < idx && At(t, node.right, u.right, dropped))
  {
    hide Layout, DroppedAt, SubtreeAt;
    NodeAt(t, idx);
    Children(t, idx);
    StaysExpressible(t, idx);
    if !u.Command? {
      FirstAt(t, idx, FirstChild(u));
      if !u.NullRedir? {
        SecondAt(t, idx, u.right);
      }
    }
  }

  lemma {:induction false} StaysExpressible(t: Tree, k: nat)
    requires Expressible(t) && k < Size(t)
    ensures Expressible(SubtreeAt(t, k))
    decreases t
  {
    if k != Size(t) - 1 {
      StaysExpressible(ChildAt(t, k), k - Base(t, k));
    }
  }

  // ---- Whole plans

  method EvalShellPlan(caches: Caches, plan: HelperPlan, ghost t: Tree) returns (r: Option<Result>)
    requires IsPlan(plan.nodes, t) && plan.root == Size(t) - 1
    ensures r == Answer(caches, true, t)
  {
    hide Eval;
    r := EvalNode(caches, plan.nodes, plan.root, None, t, t, false);
    if r.Some? && (|r.value.out| > MAX_FAST_OUTPUT_BYTES || |r.value.err| > MAX_FAST_OUTPUT_BYTES) {
      r := None;
    }
  }

  /** Compile a command line and evaluate it. */
  method EvalShell(caches: Caches, command: string) returns (r: Option<Result>)
    requires '\0' !in command
    ensures PlanOf(command).None? ==> r.None?
    ensures PlanOf(command).Some? ==>
              Expressible(PlanOf(command).value) && r == Answer(caches, true, PlanOf(command).value)
  {
    hide TokensOf, Layout, Answer;
    var plan := ParseShellPlan(command);
    if plan.None? {
      return None;
    }
    ParsePrintParse(TokensOf(command).value);
    r := EvalShellPlan(caches, plan.value, PlanOf(command).value);
  }

  /** An answer to a command is what its plan means: all output, the exit
      status, and one replay count per source, all from one store. */
  lemma AnswersMean(caches: Caches, t: Tree)
    requires Expressible(t) && Consistent(caches) && SedNamed(t) && Answer(caches, true, t).Some?
    ensures Meaning(caches, t, false, None).Some?
    ensures Says(Answer(caches, true, t).value, Meaning(caches, t, false, None).value)
    ensures Answer(caches, true, t).value.replay.sources >= 1
  {
    hide Eval, Meaning, Consistent;
    EvalMeans(caches, true, t, false, None);
  }
}
