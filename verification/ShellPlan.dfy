/** Command plans: the grammar of pipelines, AND lists, sequences, grouping and
    redirections to /dev/null (XCU 2.9.2 to 2.9.4 and 2.10.2 of POSIX.1-2017), as
    trees and as the flat node array the evaluator walks. */
module ShellPlan {
  import opened Wrappers
  import opened ShellTokens

  const MAX_NODES := 64
  const MAX_ARGS := 16

  datatype Arg = Arg(text: string, glob: bool)

  datatype Tree =
    | Command(argv: seq<Arg>)
    | PipeOf(left: Tree, right: Tree)
    | AndOf(left: Tree, right: Tree)
    | SeqOf(left: Tree, right: Tree)
    | NullRedir(body: Tree, fd: int)

  function Size(t: Tree): (n: nat)
    ensures n >= 1
  {
    match t
    case Command(_) => 1
    case NullRedir(body, _) => Size(body) + 1
    case _ => Size(t.left) + Size(t.right) + 1
  }

  // ---- The grammar on token lists

  function Words(tokens: seq<Token>, argv: seq<Arg>): (r: Option<(seq<Arg>, seq<Token>)>)
    ensures r.Some? ==> |r.value.1| <= |tokens| && argv <= r.value.0
    ensures r.Some? && tokens != [] && tokens[0].Word? ==> |r.value.1| < |tokens|
  {
    if tokens == [] || !tokens[0].Word? then Some((argv, tokens))
    else if |argv| >= MAX_ARGS - 1 then None
    else Words(tokens[1..], argv + [Arg(tokens[0].text, tokens[0].glob)])
  }

  function Redirections(body: Tree, tokens: seq<Token>): (r: (Tree, seq<Token>))
    ensures |r.1| <= |tokens| && Size(r.0) >= Size(body)
    decreases |tokens|
  {
    if tokens == [] || !tokens[0].RedirNull? then (body, tokens)
    else Redirections(NullRedir(body, tokens[0].fd), tokens[1..])
  }

  /** A group or a simple command, before its redirections. */
  function ParseBase(tokens: seq<Token>): (r: Option<(Tree, seq<Token>)>)
    ensures r.Some? ==> |r.value.1| < |tokens|
    decreases |tokens|, 0
  {
    if tokens == [] then None
    else if tokens[0].LParen? then
      var inner := ParseSequence(tokens[1..]);
      if inner.None? || inner.value.1 == [] || !inner.value.1[0].RParen? then None
      else Some((inner.value.0, inner.value.1[1..]))
    else if tokens[0].Word? then
      var words := Words(tokens, []);
      if words.None? || '=' in words.value.0[0].text then None
      else Some((Command(words.value.0), words.value.1))
    else None
  }

  function ParsePrimary(tokens: seq<Token>): (r: Option<(Tree, seq<Token>)>)
    ensures r.Some? ==> |r.value.1| < |tokens|
    decreases |tokens|, 1
  {
    var base := ParseBase(tokens);
    if base.None? then None else Some(Redirections(base.value.0, base.value.1))
  }

  function PipelineRest(left: Tree, tokens: seq<Token>): (r: Option<(Tree, seq<Token>)>)
    ensures r.Some? ==> |r.value.1| <= |tokens| && Size(r.value.0) >= Size(left)
    decreases |tokens|, 2
  {
    if tokens == [] || !tokens[0].PipeOp? then Some((left, tokens))
    else
      var right := ParsePrimary(tokens[1..]);
      if right.None? then None else PipelineRest(PipeOf(left, right.value.0), right.value.1)
  }

  function ParsePipeline(tokens: seq<Token>): (r: Option<(Tree, seq<Token>)>)
    ensures r.Some? ==> |r.value.1| < |tokens|
    decreases |tokens|, 3
  {
    var first := ParsePrimary(tokens);
    if first.None? then None else PipelineRest(first.value.0, first.value.1)
  }

  function AndRest(left: Tree, tokens: seq<Token>): (r: Option<(Tree, seq<Token>)>)
    ensures r.Some? ==> |r.value.1| <= |tokens| && Size(r.value.0) >= Size(left)
    decreases |tokens|, 4
  {
    if tokens == [] || !tokens[0].AndOp? then Some((left, tokens))
    else
      var right := ParsePipeline(tokens[1..]);
      if right.None? then None else AndRest(AndOf(left, right.value.0), right.value.1)
  }

  function ParseAnd(tokens: seq<Token>): (r: Option<(Tree, seq<Token>)>)
    ensures r.Some? ==> |r.value.1| < |tokens|
    decreases |tokens|, 5
  {
    var first := ParsePipeline(tokens);
    if first.None? then None else AndRest(first.value.0, first.value.1)
  }

  /** A `;` before the end or a `)` ends the sequence. */
  function SequenceRest(left: Tree, tokens: seq<Token>): (r: Option<(Tree, seq<Token>)>)
    ensures r.Some? ==> |r.value.1| <= |tokens| && Size(r.value.0) >= Size(left)
    decreases |tokens|, 6
  {
    if tokens == [] || !tokens[0].SemiOp? then Some((left, tokens))
    else if tokens[1..] == [] || tokens[1].RParen? then Some((left, tokens[1..]))
    else
      var right := ParseAnd(tokens[1..]);
      if right.None? then None else SequenceRest(SeqOf(left, right.value.0), right.value.1)
  }

  function ParseSequence(tokens: seq<Token>): (r: Option<(Tree, seq<Token>)>)
    ensures r.Some? ==> |r.value.1| < |tokens|
    decreases |tokens|, 7
  {
    var first := ParseAnd(tokens);
    if first.None? then None else SequenceRest(first.value.0, first.value.1)
  }

  /** The plan tree of a whole token list within the node limit. */
  function ParsePlan(tokens: seq<Token>): Option<Tree> {
    var r := ParseSequence(tokens);
    if r.None? || r.value.1 != [] || Size(r.value.0) > MAX_NODES then None else Some(r.value.0)
  }

  // ---- Printing

  /** Grammar levels: 0 sequence, 1 AND list, 2 pipeline, 3 primary. */
  function Print(t: Tree, level: nat): seq<Token>
    decreases t, level
  {
    match t
    case Command(argv) => seq(|argv|, i requires 0 <= i < |argv| => Word(argv[i].text, argv[i].glob))
    case NullRedir(body, fd) => Print(body, 3) + [RedirNull(fd)]
    case PipeOf(l, r) =>
      if level > 2 then [LParen] + Print(t, 0) + [RParen] else Print(l, 2) + ([PipeOp] + Print(r, 3))
    case AndOf(l, r) =>
      if level > 1 then [LParen] + Print(t, 0) + [RParen] else Print(l, 1) + ([AndOp] + Print(r, 2))
    case SeqOf(l, r) =>
      if level > 0 then [LParen] + Print(t, 0) + [RParen] else Print(l, 0) + ([SemiOp] + Print(r, 1))
  }

  /** Trees the grammar can produce. */
  predicate Expressible(t: Tree) {
    match t
    case Command(argv) => 1 <= |argv| < MAX_ARGS && '=' !in argv[0].text
    case NullRedir(body, _) => Expressible(body)
    case _ => Expressible(t.left) && Expressible(t.right)
  }

  ghost predicate Follows(tokens: seq<Token>) {
    tokens == [] || tokens[0].PipeOp? || tokens[0].AndOp? || tokens[0].SemiOp? || tokens[0].RParen?
  }

  lemma {:induction false} WordsParse(argv: seq<Arg>, before: seq<Arg>, rest: seq<Token>)
    requires |before| + |argv| < MAX_ARGS && (rest == [] || !rest[0].Word?)
    ensures Words(Print(Command(argv), 0) + rest, before) == Some((before + argv, rest))
    decreases |argv|
  {
    var tokens := Print(Command(argv), 0) + rest;
    if argv == [] {
      assert tokens == rest && before + argv == before;
    } else {
      assert tokens[1..] == Print(Command(argv[1..]), 0) + rest;
      WordsParse(argv[1..], before + [argv[0]], rest);
      assert (before + [argv[0]]) + argv[1..] == before + argv;
    }
  }

  function OwnLevel(t: Tree): nat {
    match t
    case SeqOf(_, _) => 0
    case AndOf(_, _) => 1
    case PipeOf(_, _) => 2
    case _ => 3
  }

  /** How many levels the printer passes before it takes the tree apart. */
  function PrintRank(t: Tree, level: nat): nat
    requires level <= 3
  {
    if level <= OwnLevel(t) then OwnLevel(t) - level else 4 - level + OwnLevel(t)
  }

  lemma {:induction false} PrintStarts(t: Tree, level: nat)
    requires Expressible(t)
    ensures Print(t, level) != [] && (Print(t, level)[0].Word? || Print(t, level)[0].LParen?)
    decreases t
  {
    match t
    case Command(_) =>
    case NullRedir(body, _) => PrintStarts(body, 3);
    case PipeOf(l, r) => PrintStarts(l, 2);
    case AndOf(l, r) => PrintStarts(l, 1);
    case SeqOf(l, r) => PrintStarts(l, 0);
  }

  lemma {:induction false} PrimaryParses(t: Tree, rest: seq<Token>)
    requires Expressible(t) && (rest == [] || !rest[0].Word?)
    ensures ParsePrimary(Print(t, 3) + rest) == Some(Redirections(t, rest))
    decreases t, PrintRank(t, 3)
  {
    match t
    case Command(argv) =>
      assert Print(t, 3) == Print(t, 0);
      WordsParse(argv, [], rest);
      assert [] + argv == argv;
    case NullRedir(body, fd) =>
      var tail := [RedirNull(fd)] + rest;
      Assoc(Print(body, 3), [RedirNull(fd)], rest);
      PrimaryParses(body, tail);
      assert tail[1..] == rest;
    case _ =>
      SequenceParses(t, [RParen] + rest);
      GroupParses(t, rest);
  }

  lemma GroupParses(t: Tree, rest: seq<Token>)
    requires OwnLevel(t) < 3
    requires ParseSequence(Print(t, 0) + ([RParen] + rest)) == Some((t, [RParen] + rest))
    ensures ParsePrimary(Print(t, 3) + rest) == Some(Redirections(t, rest))
  {
    hide Redirections, ParseSequence;
    var inner := Print(t, 0) + ([RParen] + rest);
    assert Print(t, 3) == [LParen] + Print(t, 0) + [RParen];
    assert Print(t, 3) + rest == [LParen] + inner;
    assert ([LParen] + inner)[1..] == inner;
    assert ([RParen] + rest)[1..] == rest;
  }

  lemma {:induction false} PipelineParses(t: Tree, rest: seq<Token>)
    requires Expressible(t) && Follows(rest)
    ensures ParsePipeline(Print(t, 2) + rest) == PipelineRest(t, rest)
    decreases t, PrintRank(t, 2)
  {
    if t.PipeOf? {
      var tail := [PipeOp] + (Print(t.right, 3) + rest);
      assert Print(t, 2) + rest == Print(t.left, 2) + tail;
      PipelineParses(t.left, tail);
      assert tail[1..] == Print(t.right, 3) + rest;
      PrimaryParses(t.right, rest);
    } else {
      assert Print(t, 2) == Print(t, 3);
      PrimaryParses(t, rest);
    }
  }

  lemma {:induction false} AndParses(t: Tree, rest: seq<Token>)
    requires Expressible(t) && Follows(rest) && (rest == [] || !rest[0].PipeOp?)
    ensures ParseAnd(Print(t, 1) + rest) == AndRest(t, rest)
    decreases t, PrintRank(t, 1)
  {
    if t.AndOf? {
      var tail := [AndOp] + (Print(t.right, 2) + rest);
      assert Print(t, 1) + rest == Print(t.left, 1) + tail;
      AndParses(t.left, tail);
      assert tail[1..] == Print(t.right, 2) + rest;
      PipelineParses(t.right, rest);
    } else {
      assert Print(t, 1) == Print(t, 2);
      PipelineParses(t, rest);
    }
  }

  lemma {:induction false} SequenceParses(t: Tree, rest: seq<Token>)
    requires Expressible(t) && (rest == [] || rest[0].SemiOp? || rest[0].RParen?)
    ensures ParseSequence(Print(t, 0) + rest) == SequenceRest(t, rest)
    decreases t, PrintRank(t, 0)
  {
    if t.SeqOf? {
      var tail := [SemiOp] + (Print(t.right, 1) + rest);
      assert Print(t, 0) + rest == Print(t.left, 0) + tail;
      SequenceParses(t.left, tail);
      assert tail[1..] == Print(t.right, 1) + rest;
      PrintStarts(t.right, 1);
      AndParses(t.right, rest);
    } else {
      assert Print(t, 0) == Print(t, 1);
      AndParses(t, rest);
    }
  }

  /** Printing a tree with the parentheses it needs and parsing the tokens gives
      the tree back. */
  lemma PrintThenParse(t: Tree)
    requires Expressible(t) && Size(t) <= MAX_NODES
    ensures ParsePlan(Print(t, 0)) == Some(t)
  {
    SequenceParses(t, []);
    assert Print(t, 0) + [] == Print(t, 0);
  }

  // ---- Everything parsed is expressible

  lemma {:induction false} WordsBounded(tokens: seq<Token>, argv: seq<Arg>)
    requires |argv| < MAX_ARGS
    ensures Words(tokens, argv).Some? ==> |Words(tokens, argv).value.0| < MAX_ARGS
    ensures Words(tokens, argv).Some? && tokens != [] && tokens[0].Word? ==> Words(tokens, argv).value.0 != []
  {
    if tokens != [] && tokens[0].Word? && |argv| < MAX_ARGS - 1 {
      WordsBounded(tokens[1..], argv + [Arg(tokens[0].text, tokens[0].glob)]);
    }
  }

  lemma {:induction false} RedirectionsExpressible(body: Tree, tokens: seq<Token>)
    requires Expressible(body)
    ensures Expressible(Redirections(body, tokens).0)
    decreases |tokens|
  {
    if tokens != [] && tokens[0].RedirNull? {
      RedirectionsExpressible(NullRedir(body, tokens[0].fd), tokens[1..]);
    }
  }

  lemma {:induction false} PrimaryExpressible(tokens: seq<Token>)
    ensures ParsePrimary(tokens).Some? ==> Expressible(ParsePrimary(tokens).value.0)
    decreases |tokens|, 0
  {
    hide Redirections, ParseSequence, Words;
    var base := ParseBase(tokens);
    if base.Some? {
      if tokens[0].LParen? {
        SequenceExpressible(tokens[1..]);
      } else {
        WordsBounded(tokens, []);
      }
      RedirectionsExpressible(base.value.0, base.value.1);
    }
  }

  lemma {:induction false} PipelineRestExpressible(left: Tree, tokens: seq<Token>)
    requires Expressible(left)
    ensures PipelineRest(left, tokens).Some? ==> Expressible(PipelineRest(left, tokens).value.0)
    decreases |tokens|, 1
  {
    hide ParsePrimary;
    if tokens != [] && tokens[0].PipeOp? && ParsePrimary(tokens[1..]).Some? {
      PrimaryExpressible(tokens[1..]);
      var right := ParsePrimary(tokens[1..]).value;
      PipelineRestExpressible(PipeOf(left, right.0), right.1);
    }
  }

  lemma {:induction false} PipelineExpressible(tokens: seq<Token>)
    ensures ParsePipeline(tokens).Some? ==> Expressible(ParsePipeline(tokens).value.0)
    decreases |tokens|, 2
  {
    hide ParsePrimary, PipelineRest;
    PrimaryExpressible(tokens);
    if ParsePrimary(tokens).Some? {
      PipelineRestExpressible(ParsePrimary(tokens).value.0, ParsePrimary(tokens).value.1);
    }
  }

  lemma {:induction false} AndRestExpressible(left: Tree, tokens: seq<Token>)
    requires Expressible(left)
    ensures AndRest(left, tokens).Some? ==> Expressible(AndRest(left, tokens).value.0)
    decreases |tokens|, 3
  {
    hide ParsePipeline;
    if tokens != [] && tokens[0].AndOp? && ParsePipeline(tokens[1..]).Some? {
      PipelineExpressible(tokens[1..]);
      var right := ParsePipeline(tokens[1..]).value;
      AndRestExpressible(AndOf(left, right.0), right.1);
    }
  }

  lemma {:induction false} AndExpressible(tokens: seq<Token>)
    ensures ParseAnd(tokens).Some? ==> Expressible(ParseAnd(tokens).value.0)
    decreases |tokens|, 4
  {
    hide ParsePipeline, AndRest;
    PipelineExpressible(tokens);
    if ParsePipeline(tokens).Some? {
      AndRestExpressible(ParsePipeline(tokens).value.0, ParsePipeline(tokens).value.1);
    }
  }

  lemma {:induction false} SequenceRestExpressible(left: Tree, tokens: seq<Token>)
    requires Expressible(left)
    ensures SequenceRest(left, tokens).Some? ==> Expressible(SequenceRest(left, tokens).value.0)
    decreases |tokens|, 5
  {
    hide ParseAnd;
    if tokens != [] && tokens[0].SemiOp? && tokens[1..] != [] && !tokens[1].RParen? && ParseAnd(tokens[1..]).Some? {
      AndExpressible(tokens[1..]);
      var right := ParseAnd(tokens[1..]).value;
      SequenceRestExpressible(SeqOf(left, right.0), right.1);
    }
  }

  lemma {:induction false} SequenceExpressible(tokens: seq<Token>)
    ensures ParseSequence(tokens).Some? ==> Expressible(ParseSequence(tokens).value.0)
    decreases |tokens|, 6
  {
    hide ParseAnd, SequenceRest;
    AndExpressible(tokens);
    if ParseAnd(tokens).Some? {
      SequenceRestExpressible(ParseAnd(tokens).value.0, ParseAnd(tokens).value.1);
    }
  }

  /** A plan survives being printed and parsed again. */
  lemma ParsePrintParse(tokens: seq<Token>)
    requires ParsePlan(tokens).Some?
    ensures Expressible(ParsePlan(tokens).value)
    ensures ParsePlan(Print(ParsePlan(tokens).value, 0)) == ParsePlan(tokens)
  {
    SequenceExpressible(tokens);
    PrintThenParse(ParsePlan(tokens).value);
  }
}
