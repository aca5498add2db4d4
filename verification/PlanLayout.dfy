/** What the node array of a compiled plan looks like: children before parents,
    every subtree one block of neighbours, and stderr marked exactly beneath the
    redirections of fd 2. */
module PlanLayout {
  import opened Wrappers
  import opened ShellPlan
  import opened ShellParser

  /** The child of `t` whose block holds node `k`, and where the block starts. */
  function ChildAt(t: Tree, k: nat): (child: Tree)
    requires k < Size(t) - 1
    ensures child < t && Base(t, k) <= k < Base(t, k) + Size(child)
  {
    if t.NullRedir? then t.body else if k < Size(t.left) then t.left else t.right
  }

  function Base(t: Tree, k: nat): nat
    requires k < Size(t) - 1
  {
    if t.NullRedir? || k < Size(t.left) then 0 else Size(t.left)
  }

  /** The subtree whose root is node `k` of the layout. */
  function SubtreeAt(t: Tree, k: nat): (u: Tree)
    requires k < Size(t)
    ensures Size(u) <= k + 1
    decreases t
  {
    if k == Size(t) - 1 then t else SubtreeAt(ChildAt(t, k), k - Base(t, k))
  }

  /** Does a redirection strictly above node `k` drop stderr? */
  function DroppedAt(t: Tree, k: nat, discarded: bool): bool
    requires k < Size(t)
    decreases t
  {
    if k == Size(t) - 1 then discarded
    else DroppedAt(ChildAt(t, k), k - Base(t, k), Dropped(t, discarded))
  }

  /** The index of the first node of the subtree rooted at node `k`. */
  function Start(t: Tree, k: nat): nat
    requires k < Size(t)
  {
    k + 1 - Size(SubtreeAt(t, k))
  }

  lemma SliceOfFirst(first: seq<Node>, second: seq<Node>, root: Node, lo: nat, hi: nat)
    requires lo <= hi <= |first|
    ensures (first + second + [root])[lo..hi] == first[lo..hi]
  {
  }

  lemma SliceOfSecond(first: seq<Node>, second: seq<Node>, root: Node, lo: nat, hi: nat)
    requires lo <= hi <= |second|
    ensures (first + second + [root])[|first| + lo..|first| + hi] == second[lo..hi]
  {
  }

  lemma WhichChild(t: Tree, off: nat, discarded: bool, k: nat)
    requires k < Size(t) - 1
    ensures !t.Command? && Base(t, k) + Size(ChildAt(t, k)) <= Size(t) - 1
    ensures Base(t, k) == 0 ==> ChildAt(t, k) == FirstChild(t)
    ensures Base(t, k) != 0 ==>
              && Base(t, k) == Size(FirstChild(t))
              && Second(t, off, discarded) == Layout(ChildAt(t, k), off + Base(t, k), Dropped(t, discarded))
  {
    hide Layout;
  }

  /** A child's block within its parent's. */
  lemma ChildBlock(t: Tree, off: nat, discarded: bool, k: nat, lo: nat, hi: nat)
    requires k < Size(t) - 1 && lo <= hi <= Size(ChildAt(t, k))
    ensures Layout(t, off, discarded)[Base(t, k) + lo..Base(t, k) + hi]
         == Layout(ChildAt(t, k), off + Base(t, k), Dropped(t, discarded))[lo..hi]
  {
    WhichChild(t, off, discarded, k);
    hide RootNode, Beneath, Size, ChildAt, Base, FirstChild, Second, Dropped;
    var first, second := Layout(FirstChild(t), off, Dropped(t, discarded)), Second(t, off, discarded);
    BeneathSplits(t, off, discarded);
    assert Layout(t, off, discarded) == first + second + [RootNode(t, off, discarded)];
    hide Layout;
    if Base(t, k) == 0 {
      SliceOfFirst(first, second, RootNode(t, off, discarded), lo, hi);
    } else {
      SliceOfSecond(first, second, RootNode(t, off, discarded), lo, hi);
    }
  }

  /** Every subtree is laid out on its own in the block that ends at its root. */
  lemma {:induction false} SubtreeIsBlock(t: Tree, off: nat, discarded: bool, k: nat)
    requires k < Size(t)
    ensures Layout(t, off, discarded)[Start(t, k)..k + 1]
         == Layout(SubtreeAt(t, k), off + Start(t, k), DroppedAt(t, k, discarded))
    decreases t
  {
    hide Layout, ChildAt, Base, Dropped;
    if k == Size(t) - 1 {
    } else {
      var child, base := ChildAt(t, k), Base(t, k);
      SubtreeIsBlock(child, off + base, Dropped(t, discarded), k - base);
      ChildBlock(t, off, discarded, k, Start(child, k - base), k - base + 1);
    }
  }

  lemma RootIsLast(t: Tree, off: nat, discarded: bool)
    ensures Layout(t, off, discarded)[Size(t) - 1] == RootNode(t, off, discarded)
  {
    hide RootNode, Beneath;
  }

  lemma LastOfSlice(nodes: seq<Node>, lo: nat, hi: nat)
    requires lo <= hi < |nodes|
    ensures nodes[lo..hi + 1][hi - lo] == nodes[hi]
  {
  }

  lemma NodeAt(t: Tree, k: nat)
    requires k < Size(t)
    ensures Layout(t, 0, false)[k] == RootNode(SubtreeAt(t, k), Start(t, k), DroppedAt(t, k, false))
  {
    hide RootNode, DroppedAt, Layout, SubtreeAt, Size;
    SubtreeIsBlock(t, 0, false, k);
    RootIsLast(SubtreeAt(t, k), Start(t, k), DroppedAt(t, k, false));
    LastOfSlice(Layout(t, 0, false), Start(t, k), k);
  }

  /** A subtree of a subtree is a subtree. */
  lemma {:induction false} SubtreeNests(t: Tree, k: nat, m: nat, discarded: bool)
    requires k < Size(t) && m < Size(SubtreeAt(t, k))
    ensures SubtreeAt(t, Start(t, k) + m) == SubtreeAt(SubtreeAt(t, k), m)
    ensures DroppedAt(t, Start(t, k) + m, discarded) == DroppedAt(SubtreeAt(t, k), m, DroppedAt(t, k, discarded))
    decreases t
  {
    hide Size, ChildAt, Base, Dropped;
    if k == Size(t) - 1 {
    } else {
      SubtreeNests(ChildAt(t, k), k - Base(t, k), m, Dropped(t, discarded));
      SameChild(t, k, Start(t, k) + m);
    }
  }

  lemma SameChild(t: Tree, k: nat, i: nat)
    requires k < Size(t) - 1 && Base(t, k) <= i < Base(t, k) + Size(ChildAt(t, k))
    ensures i < Size(t) - 1 && ChildAt(t, i) == ChildAt(t, k) && Base(t, i) == Base(t, k)
  {
  }

  // ---- Reachability in the node array

  /** Node `i` is reached from node `j` through child links. */
  predicate Under(nodes: seq<Node>, i: nat, j: nat)
    requires j < |nodes|
    decreases j
  {
    var node := nodes[j];
    || (0 <= node.left < j && (i == node.left || Under(nodes, i, node.left)))
    || (0 <= node.right < j && (i == node.right || Under(nodes, i, node.right)))
  }

  lemma RootSubtree(t: Tree, discarded: bool)
    ensures SubtreeAt(t, Size(t) - 1) == t && DroppedAt(t, Size(t) - 1, discarded) == discarded
  {
  }

  lemma BelowChild(u: Tree, k: nat, discarded: bool)
    requires k < Size(u) - 1
    ensures SubtreeAt(u, k) == SubtreeAt(ChildAt(u, k), k - Base(u, k))
    ensures DroppedAt(u, k, discarded) == DroppedAt(ChildAt(u, k), k - Base(u, k), Dropped(u, discarded))
  {
    hide Size;
  }

  lemma FirstSubtree(u: Tree, first: Tree, discarded: bool)
    requires !u.Command? && first == FirstChild(u)
    ensures Size(first) < Size(u) && SubtreeAt(u, Size(first) - 1) == first
    ensures DroppedAt(u, Size(first) - 1, discarded) == Dropped(u, discarded)
  {
    assert Size(first) < Size(u) && ChildAt(u, Size(first) - 1) == first && Base(u, Size(first) - 1) == 0;
    hide ChildAt, Base, Size, SubtreeAt, DroppedAt;
    BelowChild(u, Size(first) - 1, discarded);
    RootSubtree(first, Dropped(u, discarded));
  }

  lemma SecondSubtree(u: Tree, second: Tree, discarded: bool)
    requires !u.Command? && !u.NullRedir? && second == u.right
    ensures Size(second) + 1 < Size(u) && SubtreeAt(u, Size(u) - 2) == second
    ensures DroppedAt(u, Size(u) - 2, discarded) == discarded
  {
    assert Size(second) + 1 < Size(u) && ChildAt(u, Size(u) - 2) == second &&
           Base(u, Size(u) - 2) == Size(u) - 1 - Size(second) && !Dropped(u, false) && Dropped(u, true);
    hide ChildAt, Base, Size, SubtreeAt, DroppedAt;
    BelowChild(u, Size(u) - 2, discarded);
    RootSubtree(second, discarded);
  }

  /** Where the first child of a subtree ends. */
  lemma FirstAt(t: Tree, j: nat, first: Tree)
    requires j < Size(t) && !SubtreeAt(t, j).Command? && first == FirstChild(SubtreeAt(t, j))
    ensures var k := Start(t, j) + Size(first) - 1;
            k < j && SubtreeAt(t, k) == first && Start(t, k) == Start(t, j) &&
            DroppedAt(t, k, false) == Dropped(SubtreeAt(t, j), DroppedAt(t, j, false))
  {
    hide SubtreeAt, DroppedAt, Size;
    var u := SubtreeAt(t, j);
    FirstSubtree(u, first, DroppedAt(t, j, false));
    SubtreeNests(t, j, Size(first) - 1, false);
  }

  /** The second child of a subtree ends just before its root. */
  lemma SecondAt(t: Tree, j: nat, second: Tree)
    requires j < Size(t) && !SubtreeAt(t, j).Command? && !SubtreeAt(t, j).NullRedir?
    requires second == SubtreeAt(t, j).right
    ensures 1 <= j && SubtreeAt(t, j - 1) == second && Start(t, j - 1) == j - Size(second)
    ensures DroppedAt(t, j - 1, false) == DroppedAt(t, j, false)
  {
    hide SubtreeAt, DroppedAt, Size;
    var u := SubtreeAt(t, j);
    SecondSubtree(u, second, DroppedAt(t, j, false));
    SubtreeNests(t, j, Size(u) - 2, false);
  }

  /** The links of a subtree's root, by the sizes of its children. */
  lemma RootLinks(u: Tree, off: nat, discarded: bool)
    ensures var node := RootNode(u, off, discarded);
            && (u.Command? ==> Size(u) == 1 && node.left == node.right == -1)
            && (!u.Command? ==> node.left == off + Size(FirstChild(u)) - 1 >= off)
            && (u.NullRedir? ==> Size(u) == Size(FirstChild(u)) + 1 && node.right == -1)
            && (!u.Command? && !u.NullRedir? ==>
                  && Size(u) == Size(FirstChild(u)) + Size(u.right) + 1 && Size(u.right) >= 1
                  && node.right == off + Size(FirstChild(u)) + Size(u.right) - 1)
  {
  }

  /** A node's children end the blocks that fill its own. */
  lemma Children(t: Tree, j: nat)
    requires j < Size(t)
    ensures var node := Layout(t, 0, false)[j];
            && (node.left < 0 ==> node.left == node.right == -1 && Start(t, j) == j)
            && (node.left >= 0 ==> node.left < j && Start(t, node.left) == Start(t, j))
            && (node.left >= 0 > node.right ==> node.right == -1 && node.left == j - 1)
            && (node.right >= 0 ==> 0 <= node.left < node.right == j - 1 && Start(t, node.right) == node.left + 1)
  {
    hide Layout, SubtreeAt, DroppedAt, RootNode, Size;
    var u := SubtreeAt(t, j);
    NodeAt(t, j);
    RootLinks(u, Start(t, j), DroppedAt(t, j, false));
    if !u.Command? {
      FirstAt(t, j, FirstChild(u));
      if !u.NullRedir? {
        SecondAt(t, j, u.right);
      }
    }
  }

  /** Children come before their parents, the root comes last, and the nodes
      reached from a node are the block of neighbours just before it. */
  lemma {:induction false} LayoutIsPostorder(t: Tree, i: nat, j: nat)
    requires j < Size(t)
    ensures var nodes := Layout(t, 0, false);
            && -1 <= nodes[j].left < j && -1 <= nodes[j].right < j
            && (Under(nodes, i, j) <==> Start(t, j) <= i < j)
    decreases j
  {
    hide Layout, SubtreeAt, DroppedAt;
    var node := Layout(t, 0, false)[j];
    Children(t, j);
    if node.left >= 0 {
      LayoutIsPostorder(t, i, node.left);
    }
    if node.right >= 0 {
      LayoutIsPostorder(t, i, node.right);
    }
  }

  predicate DropsStderr(node: Node) {
    node.kind == RedirNode && node.fd == 2
  }

  lemma {:induction false} DroppedStays(t: Tree, k: nat)
    requires k < Size(t)
    ensures DroppedAt(t, k, true)
    decreases t
  {
    if k != Size(t) - 1 {
      DroppedStays(ChildAt(t, k), k - Base(t, k));
    }
  }

  lemma {:induction false} DroppingAncestor(t: Tree, i: nat) returns (j: nat)
    requires i < Size(t) && DroppedAt(t, i, false)
    ensures i < j < Size(t) && Start(t, j) <= i
    ensures SubtreeAt(t, j).NullRedir? && SubtreeAt(t, j).fd == 2
    decreases t
  {
    if Dropped(t, false) {
      j := Size(t) - 1;
    } else {
      hide Dropped, Size, Base, ChildAt;
      var base := Base(t, i);
      var k := DroppingAncestor(ChildAt(t, i), i - base);
      SameChild(t, i, base + k);
      j := base + k;
    }
  }

  lemma MarkedHasAncestor(t: Tree, i: nat) returns (j: nat)
    requires i < Size(t) && Layout(t, 0, false)[i].stderrDiscarded
    ensures var nodes := Layout(t, 0, false);
            i < j < |nodes| && DropsStderr(nodes[j]) && Under(nodes, i, j)
  {
    hide Layout;
    NodeAt(t, i);
    j := DroppingAncestor(t, i);
    NodeAt(t, j);
    LayoutIsPostorder(t, i, j);
  }

  lemma AncestorMarks(t: Tree, i: nat, j: nat)
    requires i < j < Size(t) && DropsStderr(Layout(t, 0, false)[j]) && Under(Layout(t, 0, false), i, j)
    ensures Layout(t, 0, false)[i].stderrDiscarded
  {
    hide Layout, Under, SubtreeAt, DroppedAt;
    NodeAt(t, i);
    NodeAt(t, j);
    LayoutIsPostorder(t, i, j);
    var u := SubtreeAt(t, j);
    var m := i - Start(t, j);
    SubtreeNests(t, j, m, false);
    DropsBelow(u, m, DroppedAt(t, j, false));
  }

  lemma DropsBelow(u: Tree, m: nat, discarded: bool)
    requires u.NullRedir? && u.fd == 2 && m < Size(u) - 1
    ensures DroppedAt(u, m, discarded)
  {
    assert ChildAt(u, m) == u.body && Base(u, m) == 0;
    DroppedStays(u.body, m);
  }

  /** Stderr is dropped at exactly the nodes below a redirection of fd 2. */
  lemma StderrMarksAncestors(t: Tree, i: nat)
    requires i < Size(t)
    ensures var nodes := Layout(t, 0, false);
            nodes[i].stderrDiscarded <==>
            exists j: nat :: i < j < |nodes| && DropsStderr(nodes[j]) && Under(nodes, i, j)
  {
    hide Layout, Under, DropsStderr;
    var nodes := Layout(t, 0, false);
    if nodes[i].stderrDiscarded {
      var j := MarkedHasAncestor(t, i);
    }
    forall j: nat | i < j < |nodes| && DropsStderr(nodes[j]) && Under(nodes, i, j)
      ensures nodes[i].stderrDiscarded
    {
      AncestorMarks(t, i, j);
    }
  }
}
