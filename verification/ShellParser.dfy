/** The recursive-descent parser: it appends nodes to a fixed array as it
    recognises them, children before parents. */
module ShellParser {
  import opened Wrappers
  import opened ShellTokens
  import opened ShellPlan
  import opened ShellQuote

  datatype Kind = ExecNode | PipeNode | AndNode | SeqNode | RedirNode

  datatype Node = Node(kind: Kind, left: int, right: int, fd: int, stderrDiscarded: bool, argv: seq<string>,
                       globs: set<nat>)

  const NO_NODE := Node(ExecNode, -1, -1, 0, false, [], {})

  function Texts(argv: seq<Arg>): (texts: seq<string>)
    ensures |texts| == |argv|
  {
    seq(|argv|, i requires 0 <= i < |argv| => argv[i].text)
  }

  /** The positions of the words with unquoted pattern chars. */
  function Globs(argv: seq<Arg>): set<nat> {
    set i: nat | i < |argv| && argv[i].glob
  }

  function CommandNode(argv: seq<Arg>, discarded: bool): Node {
    Node(ExecNode, -1, -1, 0, discarded, Texts(argv), Globs(argv))
  }

  function BinaryNode(kind: Kind, left: int, right: int, discarded: bool): Node {
    Node(kind, left, right, 0, discarded, [], {})
  }

  function KindOf(t: Tree): Kind {
    match t
    case Command(_) => ExecNode
    case PipeOf(_, _) => PipeNode
    case AndOf(_, _) => AndNode
    case SeqOf(_, _) => SeqNode
    case NullRedir(_, _) => RedirNode
  }

  /** The node of a tree itself, where the tree's first node has index `off`. */
  function RootNode(t: Tree, off: nat, discarded: bool): Node {
    match t
    case Command(argv) => CommandNode(argv, discarded)
    case NullRedir(body, fd) => Node(RedirNode, off + Size(body) - 1, -1, fd, discarded, [], {})
    case _ =>
      BinaryNode(KindOf(t), off + Size(t.left) - 1, off + Size(t.left) + Size(t.right) - 1, discarded)
  }

  /** The postorder layout of a tree whose first node has index `off`;
      `discarded` says that a redirection around it drops stderr. */
  function Layout(t: Tree, off: nat, discarded: bool): (nodes: seq<Node>)
    ensures |nodes| == Size(t)
    decreases t, 1
  {
    Beneath(t, off, discarded) + [RootNode(t, off, discarded)]
  }

  function Beneath(t: Tree, off: nat, discarded: bool): (nodes: seq<Node>)
    ensures |nodes| == Size(t) - 1
    decreases t, 0
  {
    match t
    case Command(_) => []
    case NullRedir(body, fd) => Layout(body, off, discarded || fd == 2)
    case _ => Layout(t.left, off, discarded) + Layout(t.right, off + Size(t.left), discarded)
  }

  // ---- Marking a subtree, as steps on the node sequence

  function FirstChild(t: Tree): Tree
    requires !t.Command?
  {
    if t.NullRedir? then t.body else t.left
  }

  /** Does the redirection at the root of `t`, or one around it, drop stderr? */
  function Dropped(t: Tree, discarded: bool): bool {
    discarded || (t.NullRedir? && t.fd == 2)
  }

  /** What lies beneath the root of a tree and after its first child. */
  function Second(t: Tree, off: nat, discarded: bool): seq<Node>
    requires !t.Command?
  {
    if t.NullRedir? then [] else Layout(t.right, off + Size(t.left), discarded)
  }

  lemma BeneathSplits(t: Tree, off: nat, discarded: bool)
    requires !t.Command?
    ensures Beneath(t, off, discarded)
         == Layout(FirstChild(t), off, Dropped(t, discarded)) + Second(t, off, discarded)
  {
    hide Layout, Size;
  }

  lemma RootMarked(before: seq<Node>, t: Tree, after: seq<Node>, discarded: bool)
    ensures (before + Layout(t, |before|, discarded) + after)[|before| + Size(t) - 1]
         == RootNode(t, |before|, discarded)
    ensures RootNode(t, |before|, discarded).(stderrDiscarded := true) == RootNode(t, |before|, true)
    ensures (before + Layout(t, |before|, discarded) + after)
              [|before| + Size(t) - 1 := RootNode(t, |before|, true)]
         == before + Beneath(t, |before|, discarded) + ([RootNode(t, |before|, true)] + after)
  {
    hide Beneath, Size;
    Assoc(before, Layout(t, |before|, discarded), after);
  }

  lemma FirstStep(before: seq<Node>, t: Tree, rest: seq<Node>, discarded: bool)
    requires !t.Command?
    ensures before + Beneath(t, |before|, discarded) + rest
         == before + Layout(FirstChild(t), |before|, Dropped(t, discarded)) + (Second(t, |before|, discarded) + rest)
  {
    hide Layout, Size, Beneath, Second;
    BeneathSplits(t, |before|, discarded);
    var first := Layout(FirstChild(t), |before|, Dropped(t, discarded));
    Assoc(before, first, Second(t, |before|, discarded));
    Assoc(before + first, Second(t, |before|, discarded), rest);
  }

  /** A subtree is closed again by its root. */
  lemma Closed(before: seq<Node>, t: Tree, after: seq<Node>, discarded: bool)
    ensures before + Beneath(t, |before|, discarded) + ([RootNode(t, |before|, discarded)] + after)
         == before + Layout(t, |before|, discarded) + after
  {
    hide RootNode, Beneath, Size;
  }

  lemma BodyBeneath(t: Tree, off: nat)
    requires t.NullRedir?
    ensures Beneath(t, off, true) == Layout(t.body, off, true)
  {
    hide Layout, Size;
  }

  lemma MarkedBody(before: seq<Node>, t: Tree, body: seq<Node>, rest: seq<Node>)
    requires t.NullRedir? && body == Layout(t.body, |before|, true)
    ensures before + body + ([] + rest) == before + Beneath(t, |before|, true) + rest
  {
    hide Layout, Beneath, RootNode, Size;
    BodyBeneath(t, |before|);
    assert [] + rest == rest;
  }

  lemma MarkedPair(before: seq<Node>, t: Tree, first: seq<Node>, second: seq<Node>, rest: seq<Node>)
    requires !t.Command? && !t.NullRedir?
    requires first == Layout(t.left, |before|, true) && second == Layout(t.right, |before| + Size(t.left), true)
    ensures before + first + second + rest == before + Beneath(t, |before|, true) + rest
  {
    hide Layout, Beneath, RootNode, Size;
    BeneathSplits(t, |before|, true);
    Assoc(before, first, second);
  }

  lemma CommandGrows(argv: seq<Arg>, arg: Arg)
    ensures CommandNode(argv + [arg], false)
         == CommandNode(argv, false).(argv := Texts(argv) + [arg.text],
                                      globs := Globs(argv) + if arg.glob then {|argv|} else {})
  {
    assert Texts(argv + [arg]) == Texts(argv) + [arg.text];
    assert Globs(argv + [arg]) == Globs(argv) + if arg.glob then {|argv|} else {};
  }

  lemma LaidOut(before: seq<Node>, t: Tree, below: seq<Node>, root: Node)
    requires below == Beneath(t, |before|, false) && root == RootNode(t, |before|, false)
    ensures before + below + [root] == before + Layout(t, |before|, false)
  {
    hide Beneath, RootNode, Size;
    Assoc(before, below, [root]);
  }

  lemma PairLaidOut(before: seq<Node>, t: Tree, first: seq<Node>, second: seq<Node>, root: Node)
    requires !t.Command? && !t.NullRedir?
    requires first == Layout(t.left, |before|, false) && second == Layout(t.right, |before| + Size(t.left), false)
    requires root == RootNode(t, |before|, false)
    ensures before + first + second + [root] == before + Layout(t, |before|, false)
  {
    hide Layout, Beneath, RootNode, Size;
    BeneathSplits(t, |before|, false);
    Assoc(before, first, second);
    LaidOut(before, t, first + second, root);
  }

  /** The nodes are those of `start` and then the layout of a tree. */
  ghost predicate Laid(nodes: seq<Node>, start: seq<Node>, t: Tree)
    ensures Laid(nodes, start, t) ==> |nodes| == |start| + Size(t)
  {
    nodes == start + Layout(t, |start|, false)
  }

  class Parser {
    const tokens: seq<Token>
    var pos: nat
    const nodes: array<Node>
    var count: nat
    ghost var built: seq<Node>
    ghost var unread: seq<Token>

    ghost predicate Valid()
      reads this, nodes
      ensures Valid() ==> |built| <= MAX_NODES
    {
      && pos <= |tokens| && count <= MAX_NODES && nodes.Length == MAX_NODES
      && built == nodes[..count] && unread == tokens[pos..]
    }

    constructor (tokens: seq<Token>)
      ensures Valid() && fresh(nodes) && this.tokens == tokens && unread == tokens && built == []
    {
      this.tokens := tokens;
      pos := 0;
      count := 0;
      nodes := new Node[MAX_NODES](_ => NO_NODE);
      built := [];
      unread := tokens;
    }

    method AddNode(node: Node) returns (idx: Option<nat>)
      requires Valid()
      modifies `count, `built, nodes
      ensures Valid()
      ensures idx.None? <==> old(|built|) == MAX_NODES
      ensures idx.None? ==> built == old(built)
      ensures idx.Some? ==> idx.value == old(|built|) && built == old(built) + [node]
    {
      if count >= MAX_NODES {
        return None;
      }
      nodes[count] := node;
      idx := Some(count);
      count := count + 1;
      built := built + [node];
    }

    /** Add the operator node `t` over the two trees just laid out. */
    method AddPair(kind: Kind, left: nat, right: nat, ghost start: seq<Node>, ghost mid: seq<Node>, ghost t: Tree)
      returns (idx: Option<nat>)
      requires Valid() && !t.Command? && !t.NullRedir? && kind == KindOf(t)
      requires Laid(mid, start, t.left) && Laid(built, mid, t.right) && left == |mid| - 1 && right == |built| - 1
      modifies `count, `built, nodes
      ensures Valid()
      ensures idx.None? <==> |start| + Size(t) > MAX_NODES
      ensures idx.Some? ==> Laid(built, start, t) && idx.value == |built| - 1
    {
      hide Layout;
      ghost var first, second := Layout(t.left, |start|, false), Layout(t.right, |start| + Size(t.left), false);
      idx := AddNode(BinaryNode(kind, left, right, false));
      PairLaidOut(start, t, first, second, RootNode(t, |start|, false));
    }

    method AddRedirection(body: nat, fd: int, ghost start: seq<Node>, ghost t: Tree) returns (idx: Option<nat>)
      requires Valid() && built == start + Layout(t, |start|, fd == 2) && body == |built| - 1
      modifies `count, `built, nodes
      ensures Valid()
      ensures idx.None? <==> |start| + Size(t) + 1 > MAX_NODES
      ensures idx.Some? ==> Laid(built, start, NullRedir(t, fd)) && idx.value == |built| - 1
    {
      hide Layout;
      idx := AddNode(Node(RedirNode, body, -1, fd, false, [], {}));
      LaidOut(start, NullRedir(t, fd), Layout(t, |start|, fd == 2), RootNode(NullRedir(t, fd), |start|, false));
    }

    method Peek() returns (token: Option<Token>)
      requires Valid()
      ensures token == if unread == [] then None else Some(unread[0])
    {
      token := if pos >= |tokens| then None else Some(tokens[pos]);
    }

    method Advance()
      requires Valid() && unread != []
      modifies `pos, `unread
      ensures Valid() && unread == old(unread)[1..]
    {
      pos := pos + 1;
      unread := unread[1..];
    }

    method Accept(kind: Token) returns (ok: bool)
      requires Valid()
      modifies `pos, `unread
      ensures Valid()
      ensures ok <==> old(unread) != [] && old(unread)[0] == kind
      ensures unread == if ok then old(unread)[1..] else old(unread)
    {
      var token := Peek();
      ok := token == Some(kind);
      if ok {
        Advance();
      }
    }

    method GetNode(idx: nat) returns (node: Node)
      requires Valid() && idx < |built|
      ensures node == built[idx]
    {
      node := nodes[idx];
    }

    method SetNode(idx: nat, node: Node)
      requires Valid() && idx < |built|
      modifies `built, nodes
      ensures Valid() && built == old(built)[idx := node]
    {
      nodes[idx] := node;
      built := built[idx := node];
    }

    /** Mark a subtree: everything below a redirection of fd 2 has its stderr
        dropped. `t`, `before` and `after` say which subtree ends at `idx`. */
    method MarkStderrDiscarded(idx: nat, ghost t: Tree, ghost before: seq<Node>, ghost after: seq<Node>,
                               ghost discarded: bool)
      requires Valid() && idx == |before| + Size(t) - 1
      requires built == before + Layout(t, |before|, discarded) + after
      modifies `built, nodes
      ensures Valid()
      ensures built == before + Layout(t, |before|, true) + after
      decreases t
    {
      hide Layout, Size, Valid;
      RootMarked(before, t, after, discarded);
      var node := GetNode(idx);
      SetNode(idx, node.(stderrDiscarded := true));
      ghost var rest := [RootNode(t, |before|, true)] + after;
      if node.left >= 0 {
        ghost var second := Second(t, |before|, discarded);
        FirstStep(before, t, rest, discarded);
        MarkStderrDiscarded(node.left, FirstChild(t), before, second + rest, Dropped(t, discarded));
        Assoc(before + Layout(FirstChild(t), |before|, true), second, rest);
      }
      if node.right >= 0 {
        MarkStderrDiscarded(node.right, t.right, before + Layout(t.left, |before|, true), rest, discarded);
        MarkedPair(before, t, Layout(t.left, |before|, true), Layout(t.right, |before| + Size(t.left), true), rest);
      } else if node.left >= 0 {
        MarkedBody(before, t, Layout(t.body, |before|, true), rest);
      } else {
        assert Beneath(t, |before|, true) == Beneath(t, |before|, discarded);
      }
      Closed(before, t, after, true);
    }

    // ---- Recursive descent

    /** `node` and the state are what the grammar result `r` asks for: the tree
        laid out after `start` if it fits, and the tokens after it unread. */
    ghost predicate Follows(r: Option<(Tree, seq<Token>)>, start: seq<Node>, node: Option<nat>)
      reads this
    {
      && (node.Some? <==> r.Some? && |start| + Size(r.value.0) <= MAX_NODES)
      && (node.Some? ==>
            && unread == r.value.1
            && Laid(built, start, r.value.0)
            && node.value == |built| - 1)
    }

    /** Append a word to a command node. */
    method AddWord(idx: nat, word: Token, ghost start: seq<Node>, ghost argv: seq<Arg>) returns (ok: bool)
      requires Valid() && word.Word? && idx == |start| && built == start + [CommandNode(argv, false)]
      modifies `built, nodes
      ensures Valid()
      ensures ok <==> |argv| < MAX_ARGS - 1
      ensures ok ==> built == start + [CommandNode(argv + [Arg(word.text, word.glob)], false)]
    {
      hide Valid;
      var here := GetNode(idx);
      if |here.argv| >= MAX_ARGS - 1 {
        return false;
      }
      SetNode(idx, here.(argv := here.argv + [word.text],
                         globs := here.globs + if word.glob then {|here.argv|} else {}));
      CommandGrows(argv, Arg(word.text, word.glob));
      ok := true;
    }

    method ParseWords() returns (node: Option<nat>)
      requires Valid() && unread != [] && unread[0].Word?
      modifies this, nodes
      ensures Valid() && Follows(ParseBase(old(unread)), old(built), node)
    {
      hide Valid;
      node := AddNode(CommandNode([], false));
      if node.None? {
        return;
      }
      ghost var argv: seq<Arg> := [];
      var word := Peek();
      while word.Some? && word.value.Word?
        invariant Valid()
        invariant node.value == old(|built|) && built == old(built) + [CommandNode(argv, false)]
        invariant Words(unread, argv) == Words(old(unread), [])
        invariant argv == [] ==> unread == old(unread)
        invariant word == if unread == [] then None else Some(unread[0])
        decreases |unread|
      {
        var ok := AddWord(node.value, word.value, old(built), argv);
        if !ok {
          return None;
        }
        argv := argv + [Arg(word.value.text, word.value.glob)];
        Advance();
        word := Peek();
      }
      var command := GetNode(node.value);
      if |command.argv| == 0 || '=' in command.argv[0] {
        node := None;
      }
    }

    method ParseBaseNode() returns (node: Option<nat>)
      requires Valid()
      modifies this, nodes
      ensures Valid() && Follows(ParseBase(old(unread)), old(built), node)
      decreases |unread|, 0
    {
      hide Words, Layout, Laid, ParseSequence, Valid;
      var token := Peek();
      if token.None? {
        return None;
      }
      var group := Accept(LParen);
      if group {
        node := ParseSequenceNode();
        if node.None? {
          return;
        }
        var closed := Accept(RParen);
        if !closed {
          return None;
        }
      } else if token.value.Word? {
        node := ParseWords();
      } else {
        node := None;
      }
    }

    method ParsePrimaryNode() returns (node: Option<nat>)
      requires Valid()
      modifies this, nodes
      ensures Valid() && Follows(ParsePrimary(old(unread)), old(built), node)
      decreases |unread|, 1
    {
      hide ParseBase, Layout, Valid;
      node := ParseBaseNode();
      if node.None? {
        return;
      }
      ghost var body := ParseBase(old(unread)).value.0;
      var token := Peek();
      while token.Some? && token.value.RedirNull?
        invariant Valid()
        invariant Some(Redirections(body, unread)) == ParsePrimary(old(unread))
        invariant Laid(built, old(built), body) && node == Some(|built| - 1)
        invariant token == if unread == [] then None else Some(unread[0])
        decreases |unread|
      {
        var fd := token.value.fd;
        Advance();
        if fd == 2 {
          assert built == old(built) + Layout(body, old(|built|), false) + [];
          MarkStderrDiscarded(node.value, body, old(built), [], false);
        }
        node := AddRedirection(node.value, fd, old(built), body);
        if node.None? {
          return;
        }
        body := NullRedir(body, fd);
        token := Peek();
      }
    }

    method ParsePipelineNode() returns (node: Option<nat>)
      requires Valid()
      modifies this, nodes
      ensures Valid() && Follows(ParsePipeline(old(unread)), old(built), node)
      decreases |unread|, 2
    {
      hide ParsePrimary, Layout, Laid, Valid;
      node := ParsePrimaryNode();
      if node.None? {
        return;
      }
      ghost var tree := ParsePrimary(old(unread)).value.0;
      ghost var here := unread;
      var more := Accept(PipeOp);
      while more
        invariant Valid() && |here| < old(|unread|) && Laid(built, old(built), tree)
        invariant node == Some(|built| - 1)
        invariant PipelineRest(tree, here) == ParsePipeline(old(unread))
        invariant more <==> here != [] && here[0] == PipeOp
        invariant unread == if more then here[1..] else here
        decreases |here|, more
      {
        ghost var rest, mid := ParsePrimary(unread), built;
        var right := ParsePrimaryNode();
        if right.None? {
          return None;
        }
        node := AddPair(PipeNode, node.value, right.value, old(built), mid, PipeOf(tree, rest.value.0));
        if node.None? {
          return;
        }
        tree, here := PipeOf(tree, rest.value.0), unread;
        more := Accept(PipeOp);
      }
    }

    method ParseAndNode() returns (node: Option<nat>)
      requires Valid()
      modifies this, nodes
      ensures Valid() && Follows(ParseAnd(old(unread)), old(built), node)
      decreases |unread|, 3
    {
      hide ParsePipeline, Layout, Laid, Valid;
      node := ParsePipelineNode();
      if node.None? {
        return;
      }
      ghost var tree := ParsePipeline(old(unread)).value.0;
      ghost var here := unread;
      var more := Accept(AndOp);
      while more
        invariant Valid() && |here| < old(|unread|) && Laid(built, old(built), tree)
        invariant node == Some(|built| - 1)
        invariant AndRest(tree, here) == ParseAnd(old(unread))
        invariant more <==> here != [] && here[0] == AndOp
        invariant unread == if more then here[1..] else here
        decreases |here|, more
      {
        ghost var rest, mid := ParsePipeline(unread), built;
        var right := ParsePipelineNode();
        if right.None? {
          return None;
        }
        node := AddPair(AndNode, node.value, right.value, old(built), mid, AndOf(tree, rest.value.0));
        if node.None? {
          return;
        }
        tree, here := AndOf(tree, rest.value.0), unread;
        more := Accept(AndOp);
      }
    }

    method ParseSequenceNode() returns (node: Option<nat>)
      requires Valid()
      modifies this, nodes
      ensures Valid() && Follows(ParseSequence(old(unread)), old(built), node)
      decreases |unread|, 4
    {
      hide ParseAnd, Layout, Laid, Valid;
      node := ParseAndNode();
      if node.None? {
        return;
      }
      ghost var tree := ParseAnd(old(unread)).value.0;
      ghost var here := unread;
      var more := Accept(SemiOp);
      while more
        invariant Valid() && |here| < old(|unread|) && Laid(built, old(built), tree)
        invariant node == Some(|built| - 1)
        invariant SequenceRest(tree, here) == ParseSequence(old(unread))
        invariant more <==> here != [] && here[0] == SemiOp
        invariant unread == if more then here[1..] else here
        decreases |here|, more
      {
        var token := Peek();
        if token.None? || token.value.RParen? {
          break;
        }
        ghost var rest, mid := ParseAnd(unread), built;
        var right := ParseAndNode();
        if right.None? {
          return None;
        }
        node := AddPair(SeqNode, node.value, right.value, old(built), mid, SeqOf(tree, rest.value.0));
        if node.None? {
          return;
        }
        tree, here := SeqOf(tree, rest.value.0), unread;
        more := Accept(SemiOp);
      }
    }
  }

  /** A compiled plan: the nodes in use and the root's index. */
  datatype HelperPlan = HelperPlan(nodes: seq<Node>, root: nat)

  function PlanOf(command: string): Option<Tree> {
    var tokens := TokensOf(command);
    if tokens.None? then None else ParsePlan(tokens.value)
  }

  method ParseShellPlan(command: string) returns (plan: Option<HelperPlan>)
    requires '\0' !in command
    ensures plan.Some? <==> PlanOf(command).Some?
    ensures plan.Some? ==>
              plan.value.nodes == Layout(PlanOf(command).value, 0, false) && plan.value.root == |plan.value.nodes| - 1
  {
    var tokens := Tokenize(command);
    if tokens.None? {
      return None;
    }
    var parser := new Parser(tokens.value);
    var root := parser.ParseSequenceNode();
    if root.None? || parser.pos != |parser.tokens| {
      return None;
    }
    plan := Some(HelperPlan(parser.nodes[..parser.count], root.value));
  }

  /** Writing a plan tree as shell text and compiling the text gives the
      postorder layout of that tree. */
  lemma CompileWritten(t: Tree)
    requires Expressible(t) && Size(t) <= MAX_NODES && |Print(t, 0)| < MAX_TOKENS
    requires forall token :: token in Print(t, 0) ==> Writable(token)
    ensures PlanOf(WriteAll(Print(t, 0))) == Some(t)
  {
    PrintStarts(t, 0);
    TokenizeWritten(Print(t, 0));
    PrintThenParse(t);
  }
}
