/** The check a runtime makes before it evaluates a plan: every command is one
    the caches or the filters may answer. */
module PlanCandidate {
  import opened Wrappers
  import opened Lines
  import opened Filters
  import opened Arguments
  import opened ShellPlan
  import opened ShellParser
  import opened PlanLayout
  import opened PlanMeaning
  import opened PlanTheorems
  import opened ShellEval

  /** The policy on commands that read no input: which are worth a lookup, and
      which patterns may be expanded. */
  datatype Policy = Policy(direct: seq<string> -> bool, globSafe: string -> bool)

  predicate FilterCandidate(argv: seq<string>)
    requires argv != []
  {
    var name, count := BaseName(argv[0]), ParseLineCount(argv);
    || (name == "cat" && |argv| == 1)
    || (name == "head" && count.Some? && count.value > 0)
    || (name == "tail" && count.Some?)
    || (name == "sed" && ParseStdinSed(argv).Some?)
    || (name == "grep" && ParseGrep(argv[1..], false, false, None).Some?)
    || (name == "wc" && |argv| == 2 && argv[1] == "-l")
    || (name == "sort" && |argv| == 1)
  }

  predicate SourceCandidate(policy: Policy, argv: seq<string>, globs: set<nat>)
    requires argv != []
  {
    if |argv| == 1 && BaseName(argv[0]) == "pwd" then true
    else if globs != {} && BaseName(argv[0]) == "rg" then
      forall i :: 0 <= i < |argv| && i in globs ==> policy.globSafe(argv[i])
    else policy.direct(argv)
  }

  /** Every command of the plan may be answered where it stands. */
  predicate Candidate(policy: Policy, t: Tree, hasInput: bool)
    requires Expressible(t)
  {
    if t.Command? then
      if hasInput then FilterCandidate(Texts(t.argv)) else SourceCandidate(policy, Texts(t.argv), Globs(t.argv))
    else if t.NullRedir? then Candidate(policy, t.body, hasInput)
    else Candidate(policy, t.left, hasInput) && Candidate(policy, t.right, hasInput || t.PipeOf?)
  }

  method PlanCandidateAt(policy: Policy, nodes: seq<Node>, idx: nat, hasInput: bool,
                         ghost t: Tree, ghost u: Tree, ghost dropped: bool)
    returns (ok: bool)
    requires IsPlan(nodes, t) && At(t, idx, u, dropped)
    ensures Expressible(u) && ok == Candidate(policy, u, hasInput)
    decreases idx
  {
    hide Layout, At, FilterCandidate, SourceCandidate;
    NodeFacts(t, idx, u, dropped);
    var node := nodes[idx];
    match node.kind {
      case ExecNode =>
        ok := if hasInput then FilterCandidate(node.argv) else SourceCandidate(policy, node.argv, node.globs);
      case RedirNode =>
        ok := PlanCandidateAt(policy, nodes, node.left, hasInput, t, u.body, dropped || u.fd == 2);
      case _ =>
        ok := PlanCandidateAt(policy, nodes, node.left, hasInput, t, u.left, dropped);
        if ok {
          ok := PlanCandidateAt(policy, nodes, node.right, hasInput || node.kind == PipeNode, t, u.right, dropped);
        }
    }
  }

  /** A candidate whose operands are a print script is a `sed`. */
  lemma ScriptCandidateIsSed(argv: seq<string>)
    requires argv != [] && FilterCandidate(argv) && ParseStdinSed(argv).Some?
    ensures BaseName(argv[0]) == "sed"
  {
    hide ParseSelection, ParseLong, BaseName;
    ScriptIsNoCount(argv[2]);
    assert argv[1..][0] == "-n";
  }

  /** In a candidate plan nothing but `sed` is fed a print script by `nl -ba`, so
      the fused route does not misread it. */
  lemma {:induction false} CandidatesFuseRightly(policy: Policy, t: Tree, hasInput: bool)
    requires Expressible(t) && Candidate(policy, t, hasInput)
    ensures SedNamed(t)
    decreases t
  {
    hide FilterCandidate, SourceCandidate, BaseName, ParseStdinSed;
    if t.NullRedir? {
      CandidatesFuseRightly(policy, t.body, hasInput);
    } else if !t.Command? {
      CandidatesFuseRightly(policy, t.left, hasInput);
      CandidatesFuseRightly(policy, t.right, hasInput || t.PipeOf?);
      if t.PipeOf? && FeedsScript(t.left, t.right) {
        ScriptCandidateIsSed(Texts(t.right.argv));
      }
    }
  }

  /** Whatever is answered for a candidate plan is what the plan means. */
  lemma CandidateAnswersMean(caches: Caches, policy: Policy, t: Tree)
    requires Expressible(t) && Consistent(caches) && Candidate(policy, t, false) && Answer(caches, true, t).Some?
    ensures Meaning(caches, t, false, None).Some?
    ensures Says(Answer(caches, true, t).value, Meaning(caches, t, false, None).value)
    ensures Answer(caches, true, t).value.replay.sources >= 1
  {
    hide Candidate, Meaning, Answer, Consistent, SedNamed;
    CandidatesFuseRightly(policy, t, false);
    AnswersMean(caches, t);
  }

  /** The filters run what the check lets through, and only that, but for
      `head -n 0` and for input or patterns a filter declines. */
  lemma FilterCandidatesRun(argv: seq<string>, input: string)
    requires argv != []
    ensures FilterText(argv, input).Some? <==>
              && (FilterCandidate(argv) || (BaseName(argv[0]) == "head" && ParseLineCount(argv) == Some(0)))
              && (BaseName(argv[0]) == "grep" ==>
                    '\0' !in input && ParseGrep(argv[1..], false, false, None).value.0 != "")
              && (BaseName(argv[0]) == "sort" ==> '\0' !in input)
  {
    hide BaseName, ParseLong, ParseSelection, ParseGrep, FirstLines, LastLines, MatchingLines, SortedText, Selected;
    hide LinesOf, Newlines, Decimal, ParseLineCount, ParseStdinSed;
    var name := BaseName(argv[0]);
    if name == "grep" {
      GrepRuns(argv, input);
    } else if name == "sort" || name == "sed" || name == "wc" {
    } else if name == "head" || name == "tail" || name == "cat" {
    }
  }

  lemma GrepRuns(argv: seq<string>, input: string)
    requires argv != [] && BaseName(argv[0]) == "grep"
    ensures FilterText(argv, input).Some? <==>
              && ParseGrep(argv[1..], false, false, None).Some?
              && '\0' !in input && ParseGrep(argv[1..], false, false, None).value.0 != ""
  {
    hide BaseName, ParseLong, ParseSelection, ParseGrep, FirstLines, LastLines, MatchingLines, SortedText, Selected;
    hide LinesOf, Newlines, Decimal, ParseLineCount, ParseStdinSed;
  }

  /** The commands of a plan from left to right, each with whether something is
      piped into it. */
  function Commands(t: Tree, fed: bool): seq<(Tree, bool)>
    ensures forall c :: c in Commands(t, fed) ==> c.0.Command?
  {
    match t
    case Command(_) => [(t, fed)]
    case NullRedir(body, _) => Commands(body, fed)
    case PipeOf(left, right) => Commands(left, fed) + Commands(right, true)
    case AndOf(left, right) => Commands(left, fed) + Commands(right, fed)
    case SeqOf(left, right) => Commands(left, fed) + Commands(right, fed)
  }

  /** The command may be answered: `pwd` always; fed by a pipe, if it is one of
      the filters; with patterns, if it is an `rg` whose patterns are safe; and
      otherwise if the policy has it. */
  predicate Answerable(policy: Policy, c: Tree, fed: bool)
    requires c.Command? && Expressible(c)
  {
    var argv, globs := Texts(c.argv), Globs(c.argv);
    if fed then FilterCandidate(argv)
    else
      || (|argv| == 1 && BaseName(argv[0]) == "pwd")
      || (BaseName(argv[0]) == "rg" && globs != {} && forall i :: i in globs && i < |argv| ==> policy.globSafe(argv[i]))
      || (!(BaseName(argv[0]) == "rg" && globs != {}) && policy.direct(argv))
  }

  /** A plan is a candidate exactly if each of its commands may be answered where
      it stands. */
  lemma {:induction false} CandidateEverywhere(policy: Policy, t: Tree, fed: bool)
    requires Expressible(t)
    ensures forall c :: c in Commands(t, fed) ==> Expressible(c.0)
    ensures Candidate(policy, t, fed) <==> forall c :: c in Commands(t, fed) ==> Answerable(policy, c.0, c.1)
    decreases t
  {
    hide FilterCandidate, BaseName;
    if t.NullRedir? {
      CandidateEverywhere(policy, t.body, fed);
    } else if !t.Command? {
      hide Answerable;
      CandidateEverywhere(policy, t.left, fed);
      CandidateEverywhere(policy, t.right, fed || t.PipeOf?);
    } else {
      assert (t, fed) in Commands(t, fed);
    }
  }
}
