/** What a command plan means, and what the evaluator computes for it: sources
    answered from caches, line filters run here, and a fused route for
    `nl -ba file | sed -n script`. */
module PlanMeaning {
  import opened Wrappers
  import opened Lines
  import opened Filters
  import opened Arguments
  import opened ShellPlan
  import opened ShellParser

  const INT_MAX := 0x7fff_ffff

  type Store = s: string | s != "" witness "/"

  /** A cached answer for a command that reads no input. */
  datatype Source = Source(out: string, err: string, code: int, store: Store, current: bool)

  /** A file whose content has been proven current. */
  datatype WarmFile = WarmFile(content: string, store: Store, current: bool)

  /** Everything the evaluator asks of the caches: a recorded answer for a
      command (given its words, which of them hold patterns, and whether stderr
      is dropped), and the proven file that `nl -ba` names. */
  datatype Caches = Caches(
    recorded: (seq<string>, set<nat>, bool) -> Option<Source>,
    warm: seq<string> -> Option<WarmFile>)

  /** Where the parts of a result came from; `store` is empty before the first. */
  datatype Replay = Replay(store: string, sources: nat, current: bool)

  datatype Result = Result(out: string, err: string, code: int, replay: Replay)

  const NO_REPLAY := Replay("", 0, false)

  // ---- Sources and filters

  function BaseName(path: string): (name: string)
    ensures '/' !in name && |name| <= |path| && path[|path| - |name|..] == name
    ensures |name| < |path| ==> path[|path| - |name| - 1] == '/'
  {
    if path == "" || path[|path| - 1] == '/' then ""
    else BaseName(path[..|path| - 1]) + [path[|path| - 1]]
  }

  predicate IsNl(argv: seq<string>) {
    |argv| == 3 && BaseName(argv[0]) == "nl" && argv[1] == "-ba"
  }

  /** The numbering of a whole file, within the output limit. */
  function WarmNl(content: string): Option<string> {
    var text := Selected(Numbered(LinesOf(content), 1), [Range(1, INT_MAX)], 1);
    if HasDelimiter(LinesOf(content)) || !Fits("", text, MAX_FILE_OUTPUT_BYTES) then None else Some(text)
  }

  function EvalSource(caches: Caches, argv: seq<string>, globs: set<nat>, dropped: bool): Option<Result> {
    var recorded := caches.recorded(argv, globs, dropped);
    if recorded.Some? then
      var s := recorded.value;
      Some(Result(s.out, s.err, s.code, Replay(s.store, 1, s.current)))
    else if !IsNl(argv) || caches.warm(argv).None? then None
    else
      var file := caches.warm(argv).value;
      var text := WarmNl(file.content);
      if text.None? then None else Some(Result(text.value, "", 0, Replay(file.store, 1, file.current)))
  }

  /** Output and exit status of a filter, with no limit on the output. */
  function FilterText(argv: seq<string>, input: string): Option<(string, int)>
    requires argv != []
  {
    var name := BaseName(argv[0]);
    var count, sel, grep := ParseLineCount(argv), ParseStdinSed(argv), ParseGrep(argv[1..], false, false, None);
    if name == "cat" && |argv| == 1 then Some((input, 0))
    else if name == "head" && count.Some? then Some((FirstLines(input, count.value), 0))
    else if name == "tail" && count.Some? then Some((LastLines(input, count.value), 0))
    else if name == "sed" && sel.Some? then Some((Selected(LinesOf(input), sel.value, 1), 0))
    else if name == "grep" && grep.Some? then
      var (pattern, quiet) := grep.value;
      var text := MatchingLines(LinesOf(input), pattern);
      if pattern == "" || '\0' in input then None
      else Some((if quiet then "" else text, if text != "" then 0 else 1))
    else if name == "wc" && |argv| == 2 && argv[1] == "-l" then Some((Decimal(Newlines(input)) + "\n", 0))
    else if name == "sort" && |argv| == 1 then if '\0' in input then None else Some((SortedText(input), 0))
    else None
  }

  /** The most output the filter may produce; 0 is no limit. */
  function FilterLimit(argv: seq<string>): nat
    requires argv != []
  {
    var name := BaseName(argv[0]);
    if name in {"head", "tail", "sed"} then MAX_COMPOSED_INTERMEDIATE_BYTES
    else if name == "sort" then MAX_FILE_OUTPUT_BYTES
    else 0
  }

  function Filter(argv: seq<string>, input: string): Option<(string, int)>
    requires argv != []
  {
    var r := FilterText(argv, input);
    if r.Some? && Fits("", r.value.0, FilterLimit(argv)) then r else None
  }

  // ---- Evaluation

  function Merge(dst: Replay, src: Replay): Option<Replay> {
    if src.sources == 0 then Some(dst)
    else if src.store == "" then None
    else if dst.store != "" && dst.store != src.store then None
    else Some(Replay(src.store, dst.sources + src.sources, dst.current || src.current))
  }

  /** Join the two parts of a pipe, AND list or sequence. */
  function Join(left: Result, right: Result, out: string): Option<Result> {
    var first := Merge(NO_REPLAY, left.replay);
    if first.None? then None
    else
      var both := Merge(first.value, right.replay);
      if both.None? then None else Some(Result(out, left.err + right.err, right.code, both.value))
  }

  /** `nl -ba file` feeding a command whose operands are those of `sed`. */
  predicate FeedsScript(l: Tree, r: Tree) {
    l.Command? && r.Command? && IsNl(Texts(l.argv)) && ParseStdinSed(Texts(r.argv)).Some?
  }

  /** The fused route: number only the lines the script selects. The words of
      the right command are read as those of `sed`, whatever its name. */
  function Fused(caches: Caches, l: Tree, r: Tree): Option<Result> {
    if !FeedsScript(l, r) || caches.warm(Texts(l.argv)).None? then None
    else
      var file, sel := caches.warm(Texts(l.argv)).value, ParseStdinSed(Texts(r.argv)).value;
      var text := Selected(Numbered(LinesOf(file.content), 1), sel, 1);
      if HasDelimiter(LinesOf(file.content)) || !Fits("", text, MAX_FILE_OUTPUT_BYTES) then None
      else Some(Result(text, "", 0, Replay(file.store, 1, file.current)))
  }

  /** The evaluator; `fuse` is false for the slow path alone. */
  function Eval(caches: Caches, fuse: bool, t: Tree, dropped: bool, input: Option<string>): (r: Option<Result>)
    requires Expressible(t)
    decreases t
  {
    if t.Command? then
      if input.Some? then
        var r := Filter(Texts(t.argv), input.value);
        if r.None? then None else Some(Result(r.value.0, "", r.value.1, NO_REPLAY))
      else EvalSource(caches, Texts(t.argv), Globs(t.argv), dropped)
    else if t.NullRedir? then
      var r := Eval(caches, fuse, t.body, dropped || t.fd == 2, input);
      if r.None? then None
      else if t.fd == 1 then Some(r.value.(out := ""))
      else if t.fd == 2 then Some(r.value.(err := ""))
      else None
    else
      var fused := if t.PipeOf? && fuse && input.None? then Fused(caches, t.left, t.right) else None;
      if fused.Some? then fused
      else
        var left := Eval(caches, fuse, t.left, dropped, input);
        if left.None? then None
        else if t.AndOf? && left.value.code != 0 then left
        else
          var right := Eval(caches, fuse, t.right, dropped, if t.PipeOf? then Some(left.value.out) else input);
          if right.None? then None
          else Join(left.value, right.value, (if t.PipeOf? then "" else left.value.out) + right.value.out)
  }

  const MAX_FAST_OUTPUT_BYTES := 1024 * 1024

  /** The answer to a whole plan: nothing over the output limit. */
  function Answer(caches: Caches, fuse: bool, t: Tree): Option<Result>
    requires Expressible(t)
  {
    var r := Eval(caches, fuse, t, false, None);
    if r.None? || |r.value.out| > MAX_FAST_OUTPUT_BYTES || |r.value.err| > MAX_FAST_OUTPUT_BYTES then None else r
  }

  // ---- Meaning

  /** What a plan does: its output, and the stores its sources came from in the
      order they ran. */
  datatype Outcome = Outcome(out: string, err: string, code: int, stores: seq<string>)

  function SourceMeaning(caches: Caches, argv: seq<string>, globs: set<nat>, dropped: bool): Option<Outcome> {
    var recorded := caches.recorded(argv, globs, dropped);
    if recorded.Some? then
      Some(Outcome(recorded.value.out, recorded.value.err, recorded.value.code, [recorded.value.store]))
    else if IsNl(argv) && caches.warm(argv).Some? && !HasDelimiter(LinesOf(caches.warm(argv).value.content)) then
      Some(Outcome(NumberAll(caches.warm(argv).value.content), "", 0, [caches.warm(argv).value.store]))
    else None
  }

  function Meaning(caches: Caches, t: Tree, dropped: bool, input: Option<string>): Option<Outcome>
    requires Expressible(t)
    decreases t
  {
    if t.Command? then
      if input.Some? then
        var r := FilterText(Texts(t.argv), input.value);
        if r.None? then None else Some(Outcome(r.value.0, "", r.value.1, []))
      else SourceMeaning(caches, Texts(t.argv), Globs(t.argv), dropped)
    else if t.NullRedir? then
      var m := Meaning(caches, t.body, dropped || t.fd == 2, input);
      if m.None? || (t.fd != 1 && t.fd != 2) then None
      else if t.fd == 1 then Some(m.value.(out := ""))
      else Some(m.value.(err := ""))
    else
      var l := Meaning(caches, t.left, dropped, input);
      if l.None? then None
      else if t.AndOf? && l.value.code != 0 then l
      else
        var r := Meaning(caches, t.right, dropped, if t.PipeOf? then Some(l.value.out) else input);
        if r.None? then None
        else
          Some(Outcome((if t.PipeOf? then "" else l.value.out) + r.value.out,
                       l.value.err + r.value.err, r.value.code, l.value.stores + r.value.stores))
  }

  /** A recorded answer for `nl -ba file` numbers the proven content. */
  ghost predicate Consistent(caches: Caches) {
    forall argv, globs, dropped ::
      IsNl(argv) && caches.recorded(argv, globs, dropped).Some? && caches.warm(argv).Some? ==>
        Numbers(caches.recorded(argv, globs, dropped).value, caches.warm(argv).value)
  }

  predicate Numbers(source: Source, file: WarmFile) {
    HasDelimiter(LinesOf(file.content)) ||
    (source.out == NumberAll(file.content) && source.err == "" && source.code == 0 && source.store == file.store)
  }

  /** Every command that `nl -ba file` feeds with a `sed` script is a `sed`. */
  predicate SedNamed(t: Tree) {
    if t.Command? then true
    else if t.NullRedir? then SedNamed(t.body)
    else
      && SedNamed(t.left) && SedNamed(t.right)
      && (t.PipeOf? && FeedsScript(t.left, t.right) ==> BaseName(Texts(t.right.argv)[0]) == "sed")
  }

  /** A result says what the plan means, and its replay record counts every
      source, all from one store. */
  ghost predicate Says(r: Result, m: Outcome) {
    r.out == m.out && r.err == m.err && r.code == m.code && Records(r.replay, m.stores)
  }

  /** A replay record counts these sources, all from its one store. */
  predicate Records(r: Replay, stores: seq<string>) {
    r.sources == |stores| && AllFrom(stores, r.store) && (stores == [] ==> r == NO_REPLAY)
  }

  predicate AllFrom(stores: seq<string>, store: string) {
    forall i :: 0 <= i < |stores| ==> stores[i] == store != ""
  }
}
