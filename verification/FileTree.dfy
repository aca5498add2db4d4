/** The file system the change guard watches: a tree of names, the operations
    other processes may perform on it, and which directory a dependency on a
    path makes the guard watch. */
module FileTree {

  type Name = string
  type Path = seq<Name>

  /** `stamp` stands for the rest of what stat tells of a file's state. */
  datatype Node = File(data: string, stamp: nat) | Dir

  ghost predicate WellFormed(fs: map<Path, Node>) {
    && [] in fs
    && fs[[]] == Dir
    && forall p {:trigger InDir(fs, p)} :: p in fs && p != [] ==> InDir(fs, p)
  }

  /** The path lies in a directory. */
  ghost predicate InDir(fs: map<Path, Node>, p: Path) {
    p != [] && Parent(p) in fs && fs[Parent(p)] == Dir
  }

  type Tree = fs: map<Path, Node> | WellFormed(fs) witness map[[] := Dir]

  function Parent(p: Path): Path
    requires p != []
  {
    p[..|p| - 1]
  }

  predicate IsDir(fs: Tree, p: Path) {
    p in fs && fs[p] == Dir
  }

  /** What a reader of one path observes: nothing, the bytes and metadata of a
      file, or the names in a directory. */
  datatype Value = Absent | Content(data: string, stamp: nat) | Listing(names: set<Name>)

  function Names(fs: Tree, d: Path): set<Name> {
    set q | q in fs && q != [] && Parent(q) == d :: q[|q| - 1]
  }

  function Lookup(fs: Tree, p: Path): Value {
    if p !in fs then Absent
    else match fs[p]
      case File(data, stamp) => Content(data, stamp)
      case Dir => Listing(Names(fs, p))
  }

  /** One change made by another process. A write, and a rename of a file, give
      the file a new stamp. */
  datatype Op =
    | Put(path: Path, data: string, stamp: nat)
    | MkDir(path: Path)
    | Remove(path: Path)
    | Move(path: Path, to: Path, stamp: nat)

  /** A rename replaces a file by a file, an empty directory by a directory, and
      never moves a directory below itself. */
  predicate Applicable(fs: Tree, op: Op) {
    && op.path != []
    && IsDir(fs, Parent(op.path))
    && match op
       case Put(p, _, _) => !IsDir(fs, p)
       case MkDir(p) => p !in fs
       case Remove(p) => p in fs && Names(fs, p) == {}
       case Move(p, to, _) =>
         && p in fs && to != [] && IsDir(fs, Parent(to)) && !(p <= to)
         && (to in fs ==> (IsDir(fs, p) <==> IsDir(fs, to)) && Names(fs, to) == {})
  }

  /** Where a moved path is found afterwards. */
  function Relocate(from: Path, to: Path, p: Path): Path {
    if from <= p then to + p[|from|..] else p
  }

  function Restamped(node: Node, stamp: nat): Node {
    if node.File? then node.(stamp := stamp) else node
  }

  /** Is there something at `p` after the rename? */
  predicate InMoved(fs: Tree, from: Path, to: Path, p: Path) {
    if to <= p then Relocate(to, from, p) in fs else p in fs && !(from <= p)
  }

  lemma Relocated(fs: Tree, from: Path, to: Path, p: Path)
    ensures (exists q :: q in fs && from <= q && Relocate(from, to, q) == p) <==>
            (to <= p && Relocate(to, from, p) in fs)
  {
    if to <= p {
      assert Relocate(from, to, Relocate(to, from, p)) == p;
    }
    if q :| q in fs && from <= q && Relocate(from, to, q) == p {
      assert Relocate(to, from, p) == q;
    }
  }

  function MovedPaths(fs: Tree, from: Path, to: Path): (paths: set<Path>)
    ensures forall p :: p in paths <==> InMoved(fs, from, to, p)
  {
    var paths := (set q | q in fs && !(to <= q) && !(from <= q)) +
                 set q | q in fs && from <= q :: Relocate(from, to, q);
    forall p
      ensures p in paths <==> InMoved(fs, from, to, p)
    {
      Relocated(fs, from, to, p);
    }
    paths
  }

  function AfterMove(fs: Tree, from: Path, to: Path, stamp: nat): map<Path, Node> {
    map p | p in MovedPaths(fs, from, to) ::
      if to <= p then
        var node := fs[Relocate(to, from, p)];
        if p == to then Restamped(node, stamp) else node
      else fs[p]
  }

  function Apply(fs: Tree, op: Op): Tree
    requires Applicable(fs, op)
  {
    ApplyWellFormed(fs, op);
    match op
    case Put(p, data, stamp) => fs[p := File(data, stamp)]
    case MkDir(p) => fs[p := Dir]
    case Remove(p) => fs - {p}
    case Move(from, to, stamp) => AfterMove(fs, from, to, stamp)
  }

  /** The kernel reports a change on the changed object and on its directory, a
      rename on both directories and on the object it replaces. */
  predicate Touches(op: Op, watched: Path)
    requires op.path != [] && (op.Move? ==> op.to != [])
  {
    || watched == op.path || watched == Parent(op.path)
    || (op.Move? && (watched == op.to || watched == Parent(op.to)))
  }

  /** A rename of a directory above takes the watched one along, unreported. */
  predicate Displaces(op: Op, watched: Path) {
    op.Move? && op.path < watched
  }

  /** The closest directory above a path. */
  function ExistingParent(fs: Tree, p: Path): (d: Path)
    requires p != []
    ensures IsDir(fs, d) && |d| < |p| && d == p[..|d|]
    ensures forall n :: |d| < n < |p| ==> !IsDir(fs, p[..n])
  {
    var q := Parent(p);
    if IsDir(fs, q) then q
    else
      PrefixesOfParent(p);
      ExistingParent(fs, q)
  }

  lemma PrefixesOfParent(p: Path)
    requires p != []
    ensures forall n :: 0 <= n < |p| ==> Parent(p)[..n] == p[..n]
  {
  }

  /** The directory watched for a dependency on `p`: the path itself when it is
      a directory, else the closest directory above it. */
  function WatchTarget(fs: Tree, p: Path): (d: Path)
    ensures IsDir(fs, d) && |d| <= |p| && d == p[..|d|]
    ensures forall n :: |d| < n <= |p| ==> !IsDir(fs, p[..n])
  {
    assert p[..|p|] == p;
    if IsDir(fs, p) then p else ExistingParent(fs, p)
  }

  lemma NamesMember(fs: Tree, d: Path, n: Name)
    ensures n in Names(fs, d) <==> d + [n] in fs
  {
    var q := d + [n];
    assert q != [] && Parent(q) == d && q[|q| - 1] == n;
    if n in Names(fs, d) {
      var r :| r in fs && r != [] && Parent(r) == d && r[|r| - 1] == n;
      assert r == Parent(r) + [r[|r| - 1]];
    }
  }

  lemma MoveWellFormed(fs: Tree, op: Op)
    requires Applicable(fs, op) && op.Move?
    ensures WellFormed(AfterMove(fs, op.path, op.to, op.stamp))
  {
    hide Names, MovedPaths;
    var fs' := AfterMove(fs, op.path, op.to, op.stamp);
    forall p | p in fs' && p != []
      ensures InDir(fs', p)
    {
      if op.to <= p {
        assert op.to < p ==> InDir(fs, Relocate(op.to, op.path, p));
      } else {
        assert InDir(fs, p);
      }
      if op.to < p {
        assert Parent(Relocate(op.to, op.path, p)) == Relocate(op.to, op.path, Parent(p));
      }
    }
  }

  lemma RemoveWellFormed(fs: Tree, p: Path)
    requires p in fs && p != [] && Names(fs, p) == {}
    ensures WellFormed(fs - {p})
  {
    hide Names;
    forall q | q in fs - {p} && q != []
      ensures InDir(fs - {p}, q)
    {
      assert InDir(fs, q);
      NamesMember(fs, Parent(q), q[|q| - 1]);
      assert q == Parent(q) + [q[|q| - 1]];
    }
  }

  lemma AddedWellFormed(fs: Tree, p: Path, node: Node)
    requires p != [] && IsDir(fs, Parent(p)) && !IsDir(fs, p)
    ensures WellFormed(fs[p := node])
  {
    var fs' := fs[p := node];
    forall q | q in fs' && q != []
      ensures InDir(fs', q)
    {
      if q != p {
        assert InDir(fs, q);
      }
    }
  }

  lemma ApplyWellFormed(fs: Tree, op: Op)
    requires Applicable(fs, op)
    ensures match op
            case Put(p, data, stamp) => WellFormed(fs[p := File(data, stamp)])
            case MkDir(p) => WellFormed(fs[p := Dir])
            case Remove(p) => WellFormed(fs - {p})
            case Move(from, to, stamp) => WellFormed(AfterMove(fs, from, to, stamp))
  {
    hide Names, AfterMove, WellFormed;
    match op
    case Put(p, data, stamp) => AddedWellFormed(fs, p, File(data, stamp));
    case MkDir(p) => AddedWellFormed(fs, p, Dir);
    case Remove(p) => RemoveWellFormed(fs, p);
    case Move(from, to, stamp) => MoveWellFormed(fs, op);
  }

  /** The change names neither the path nor, for a rename, anything above it. */
  predicate Spares(op: Op, p: Path) {
    if op.Move? then !(op.path <= p) && !(op.to <= p) else p != op.path
  }

  lemma Elsewhere(fs: Tree, op: Op, p: Path)
    requires Applicable(fs, op) && Spares(op, p)
    ensures p in Apply(fs, op) <==> p in fs
    ensures p in fs ==> Apply(fs, op)[p] == fs[p]
  {
  }

  /** A name on the way to something is in its directory. */
  lemma NamedOnTheWay(fs: Tree, d: Path, p: Path)
    requires p in fs && d < p
    ensures p[|d|] in Names(fs, d)
  {
    hide Names;
    assert Parent(p) == p[..|p| - 1] && p[..|d|] == d && p[..|p|] == p;
    assert p[..|d| + 1] == d + [p[|d|]];
    assert InDir(fs, p);
    if |d| + 1 < |p| {
      DirPrefix(fs, p, |p| - 1, |d| + 1);
    }
    NamesMember(fs, d, p[|d|]);
  }

  /** Nothing is moved onto a directory above something else. */
  lemma NotOntoAbove(fs: Tree, op: Op, p: Path)
    requires Applicable(fs, op) && op.Move? && p in fs
    ensures !(op.to < p)
  {
    hide Names;
    if op.to < p {
      NamedOnTheWay(fs, op.to, p);
      assert InDir(fs, p) && p[..|op.to|] == op.to;
      if |op.to| < |p| - 1 {
        DirPrefix(fs, p, |p| - 1, |op.to|);
      }
    }
  }

  lemma ChangedPlaces(fs: Tree, op: Op)
    requires Applicable(fs, op)
    ensures op.path != [] && IsDir(fs, Parent(op.path)) && !(op.path <= Parent(op.path))
    ensures op.Move? ==>
              && op.to != [] && IsDir(fs, Parent(op.to)) && !(op.to <= Parent(op.to))
              && !(op.path <= Parent(op.to)) && !(op.to <= Parent(op.path))
  {
    if op.Move? {
      assert Parent(op.to) <= op.to && Parent(op.path) <= op.path;
      NotOntoAbove(fs, op, op.path);
    }
  }

  lemma NamesUnchanged(fs: Tree, op: Op, d: Path)
    requires Applicable(fs, op) && Parent(op.path) != d && (op.Move? ==> Parent(op.to) != d && Spares(op, d))
    ensures Names(Apply(fs, op), d) == Names(fs, d)
  {
    hide Applicable, Apply, Names;
    var fs' := Apply(fs, op);
    ChangedPlaces(fs, op);
    forall n
      ensures n in Names(fs', d) <==> n in Names(fs, d)
    {
      NamesMember(fs', d, n);
      NamesMember(fs, d, n);
      ChildSpared(op, d, n);
      Elsewhere(fs, op, d + [n]);
    }
  }

  lemma ChildSpared(op: Op, d: Path, n: Name)
    requires op.path != [] && Parent(op.path) != d
    requires op.Move? ==> op.to != [] && Parent(op.to) != d && Spares(op, d)
    ensures Spares(op, d + [n])
  {
    assert Parent(d + [n]) == d;
    PrefixOfChild(op.path, d, n);
    if op.Move? {
      PrefixOfChild(op.to, d, n);
    }
  }

  lemma PrefixOfChild(p: Path, d: Path, n: Name)
    ensures p <= d + [n] ==> p <= d || p == d + [n]
  {
  }

  /** A directory that neither sees a change nor moves along is spared, with all
      it holds. */
  lemma UnreportedSpares(fs: Tree, op: Op, d: Path, n: Name)
    requires Applicable(fs, op) && d in fs && !Touches(op, d) && !Displaces(op, d)
    ensures Spares(op, d) && Spares(op, d + [n])
  {
    hide Names;
    if op.Move? {
      NotOntoAbove(fs, op, d);
    }
    ChildSpared(op, d, n);
  }

  lemma UnreportedChangeKeepsKind(fs: Tree, op: Op, d: Path, n: Name)
    requires Applicable(fs, op) && IsDir(fs, d) && !Touches(op, d) && !Displaces(op, d)
    ensures IsDir(Apply(fs, op), d)
    ensures Lookup(Apply(fs, op), d) == Lookup(fs, d)
    ensures IsDir(Apply(fs, op), d + [n]) <==> IsDir(fs, d + [n])
    ensures !IsDir(fs, d + [n]) ==> Lookup(Apply(fs, op), d + [n]) == Lookup(fs, d + [n])
  {
    hide Apply, Names;
    UnreportedSpares(fs, op, d, n);
    NamesUnchanged(fs, op, d);
    Elsewhere(fs, op, d);
    Elsewhere(fs, op, d + [n]);
  }

  /** A change that is not reported on the directory watched for `p`, and does
      not move it along, neither changes what a reader of `p` observes nor moves
      the directory to watch. */
  lemma UnreportedChangeInvisible(fs: Tree, op: Op, p: Path)
    requires Applicable(fs, op) && !Touches(op, WatchTarget(fs, p)) && !Displaces(op, WatchTarget(fs, p))
    ensures Lookup(Apply(fs, op), p) == Lookup(fs, p)
    ensures WatchTarget(Apply(fs, op), p) == WatchTarget(fs, p)
  {
    var t, fs' := WatchTarget(fs, p), Apply(fs, op);
    UnreportedChangeKeepsKind(fs, op, t, if t == p then "" else p[|t|]);
    if t != p {
      assert p[..|t| + 1] == t + [p[|t|]];
      OnlyDirAbove(fs', p, t);
      if |p| > |t| + 1 {
        NothingBelow(fs, p, |t| + 1);
        NothingBelow(fs', p, |t| + 1);
      } else {
        assert p == t + [p[|t|]];
      }
    }
  }

  /** Nothing is below what is no directory. */
  lemma NothingBelow(fs: Tree, p: Path, n: nat)
    requires n < |p| && !IsDir(fs, p[..n])
    ensures p !in fs
  {
    if p in fs {
      assert InDir(fs, p) && Parent(p) == p[..|p| - 1];
      DirPrefix(fs, p, |p| - 1, n);
    }
  }

  /** A directory whose child towards `path` is none is the one to watch. */
  lemma OnlyDirAbove(fs: Tree, path: Path, target: Path)
    requires target <= path && IsDir(fs, target)
    requires target != path ==> !IsDir(fs, target + [path[|target|]])
    ensures WatchTarget(fs, path) == target
  {
    var t := WatchTarget(fs, path);
    assert path[..|t|] == t && path[..|target|] == target;
    if |target| < |t| {
      assert path[..|target| + 1] == target + [path[|target|]];
      DirPrefix(fs, path, |t|, |target| + 1);
    }
  }

  lemma {:induction false} DirPrefix(fs: Tree, p: Path, n: nat, m: nat)
    requires m <= n <= |p| && IsDir(fs, p[..n])
    ensures IsDir(fs, p[..m])
    decreases n
  {
    if m < n {
      assert InDir(fs, p[..n]) && Parent(p[..n]) == p[..n - 1];
      DirPrefix(fs, p, n - 1, m);
    }
  }

  // ---- The workspace walk

  const SKIPPED: set<Name> := {".git", ".squire"}

  predicate Blocked(fs: Tree, p: Path, i: nat)
    requires i < |p|
  {
    p[i] in SKIPPED && IsDir(fs, p[..i + 1])
  }

  /** The paths a walk from `root` reaches: it does not enter a directory with
      a skipped name. */
  ghost predicate Reached(fs: Tree, root: Path, p: Path) {
    && root <= p
    && p in fs
    && forall i :: |root| <= i < |p| ==> !Blocked(fs, p, i)
  }

  ghost function View(fs: Tree, root: Path): map<Path, Value> {
    map p | p in fs && Reached(fs, root, p) :: Lookup(fs, p)
  }

  ghost predicate InPart(fs: Tree, dir: Path, done: set<Name>, p: Path) {
    Reached(fs, dir, p) && (p == dir || p[|dir|] in done)
  }

  /** The part of the view below the names already handled. */
  ghost function PartView(fs: Tree, dir: Path, done: set<Name>): map<Path, Value> {
    map p | p in fs && InPart(fs, dir, done, p) :: Lookup(fs, p)
  }

  /** Every directory the walk enters is watched. */
  ghost predicate Walked(fs: Tree, watched: set<Path>, root: Path) {
    forall p :: Reached(fs, root, p) && IsDir(fs, p) ==> p in watched
  }

  predicate Unreported(op: Op, watched: set<Path>) {
    && op.path != [] && op.path !in watched && Parent(op.path) !in watched
    && (op.Move? ==> op.to != [] && op.to !in watched && Parent(op.to) !in watched)
  }

  lemma ReachedPrefix(fs: Tree, root: Path, p: Path, n: nat)
    requires Reached(fs, root, p) && |root| <= n <= |p|
    ensures Reached(fs, root, p[..n])
    ensures n < |p| ==> IsDir(fs, p[..n])
    decreases |p|
  {
    if n < |p| {
      var q := Parent(p);
      assert InDir(fs, p) && root <= q;
      forall i | |root| <= i < |q|
        ensures !Blocked(fs, q, i)
      {
        assert !Blocked(fs, p, i);
        assert q[..i + 1] == p[..i + 1];
      }
      ReachedPrefix(fs, root, q, n);
      assert q[..n] == p[..n];
    } else {
      assert p[..n] == p;
    }
  }

  /** A path with no prefix equal to a changed one is reached as before. */
  lemma ReachedElsewhere(fs: Tree, op: Op, root: Path, p: Path)
    requires Applicable(fs, op) && root <= p && !(op.path <= p) && (op.Move? ==> !(op.to <= p))
    ensures Reached(Apply(fs, op), root, p) <==> Reached(fs, root, p)
  {
    var fs' := Apply(fs, op);
    forall i | |root| <= i < |p|
      ensures Blocked(fs', p, i) <==> Blocked(fs, p, i)
    {
      assert p[..i + 1] <= p;
      Elsewhere(fs, op, p[..i + 1]);
    }
    Elsewhere(fs, op, p);
  }

  /** The walked directories neither see the change nor move along. */
  predicate Unseen(op: Op, watched: set<Path>) {
    Unreported(op, watched) && forall d :: d in watched ==> !Displaces(op, d)
  }

  /** A change that no watched directory sees is not above the walked root. */
  lemma UnseenNotAbove(fs: Tree, op: Op, watched: set<Path>, root: Path)
    requires Applicable(fs, op) && Unseen(op, watched) && IsDir(fs, root) && root in watched
    ensures !(op.path <= root) && (op.Move? ==> !(op.to <= root))
  {
    hide Names;
    assert op.path != root && !Displaces(op, root);
    if op.Move? {
      NotOntoAbove(fs, op, root);
      assert op.to != root;
    } else if op.path < root {
      NamedOnTheWay(fs, op.path, root);
      assert root[..|op.path|] == op.path && root[..|root|] == root;
      DirPrefix(fs, root, |root|, |op.path|);
    }
  }

  /** A changed place is outside a walked view before and after, when the
      directory that holds it is not watched. */
  lemma OutsideAt(fs: Tree, op: Op, watched: set<Path>, root: Path, q: Path)
    requires Applicable(fs, op) && IsDir(fs, root) && Walked(fs, watched, root)
    requires q != [] && Parent(q) !in watched && !(q <= root) && IsDir(fs, Parent(q))
    requires !(op.path <= Parent(q)) && (op.Move? ==> !(op.to <= Parent(q)))
    ensures !Reached(fs, root, q) && !Reached(Apply(fs, op), root, q)
  {
    if root <= q {
      assert Parent(q) == q[..|q| - 1];
      ReachedElsewhere(fs, op, root, Parent(q));
      if Reached(fs, root, q) {
        ReachedPrefix(fs, root, q, |q| - 1);
      }
      if Reached(Apply(fs, op), root, q) {
        ReachedPrefix(Apply(fs, op), root, q, |q| - 1);
      }
    }
  }

  /** A change that no watched directory sees stays outside a walked view. */
  lemma UnseenOutsideView(fs: Tree, op: Op, watched: set<Path>, root: Path)
    requires Applicable(fs, op) && Unseen(op, watched)
    requires IsDir(fs, root) && Walked(fs, watched, root)
    ensures !(op.path <= root) && !Reached(fs, root, op.path) && !Reached(Apply(fs, op), root, op.path)
    ensures op.Move? ==>
              !(op.to <= root) && !Reached(fs, root, op.to) && !Reached(Apply(fs, op), root, op.to)
  {
    hide Walked, Applicable;
    assert Reached(fs, root, root);
    assert root in watched by {
      WalkedRoot(fs, watched, root);
    }
    UnseenNotAbove(fs, op, watched, root);
    ChangedPlaces(fs, op);
    OutsideAt(fs, op, watched, root, op.path);
    if op.Move? {
      OutsideAt(fs, op, watched, root, op.to);
    }
  }

  lemma WalkedRoot(fs: Tree, watched: set<Path>, root: Path)
    requires IsDir(fs, root) && Walked(fs, watched, root)
    ensures root in watched
  {
    assert Reached(fs, root, root);
  }

  lemma ReachedUnchanged(fs: Tree, op: Op, watched: set<Path>, root: Path, p: Path)
    requires Applicable(fs, op) && Unseen(op, watched)
    requires IsDir(fs, root) && Walked(fs, watched, root)
    ensures Reached(Apply(fs, op), root, p) <==> Reached(fs, root, p)
    ensures Reached(fs, root, p) ==> Lookup(Apply(fs, op), p) == Lookup(fs, p)
  {
    hide Applicable;
    UnseenOutsideView(fs, op, watched, root);
    if root <= p {
      if op.path <= p {
        NotReachedBelow(fs, op, root, op.path, p);
      } else if op.Move? && op.to <= p {
        NotReachedBelow(fs, op, root, op.to, p);
      } else {
        ReachedElsewhere(fs, op, root, p);
        Elsewhere(fs, op, p);
        if Reached(fs, root, p) && IsDir(fs, p) {
          NamesUnchanged(fs, op, p);
        }
      }
    }
  }

  lemma NotReachedBelow(fs: Tree, op: Op, root: Path, q: Path, p: Path)
    requires Applicable(fs, op) && root <= p && q <= p && !(q <= root)
    requires !Reached(fs, root, q) && !Reached(Apply(fs, op), root, q)
    ensures !Reached(fs, root, p) && !Reached(Apply(fs, op), root, p)
  {
    hide Applicable;
    assert p[..|q|] == q && p[..|root|] == root;
    assert |q| < |root| ==> q <= root;
    if Reached(fs, root, p) {
      ReachedPrefix(fs, root, p, |q|);
    }
    if Reached(Apply(fs, op), root, p) {
      ReachedPrefix(Apply(fs, op), root, p, |q|);
    }
  }

  lemma UnseenChangeKeepsView(fs: Tree, op: Op, watched: set<Path>, root: Path)
    requires Applicable(fs, op) && Unseen(op, watched)
    requires IsDir(fs, root) && Walked(fs, watched, root)
    ensures View(Apply(fs, op), root) == View(fs, root)
    ensures IsDir(Apply(fs, op), root)
  {
    hide Applicable;
    UnseenOutsideView(fs, op, watched, root);
    Elsewhere(fs, op, root);
    forall p
      ensures Reached(Apply(fs, op), root, p) <==> Reached(fs, root, p)
      ensures Reached(fs, root, p) ==> Lookup(Apply(fs, op), p) == Lookup(fs, p)
    {
      ReachedUnchanged(fs, op, watched, root, p);
    }
  }

  lemma ViewDeterminesReached(fs: Tree, fs': Tree, watched: set<Path>, root: Path)
    requires View(fs, root) == View(fs', root)
    ensures forall p :: Reached(fs, root, p) <==> Reached(fs', root, p)
    ensures forall p :: Reached(fs, root, p) ==> Lookup(fs, p) == Lookup(fs', p)
    ensures Walked(fs, watched, root) <==> Walked(fs', watched, root)
  {
    assert forall p :: Reached(fs, root, p) <==> p in View(fs, root);
    assert forall p :: Reached(fs', root, p) <==> p in View(fs', root);
    forall p | Reached(fs, root, p)
      ensures Lookup(fs, p) == Lookup(fs', p)
      ensures IsDir(fs, p) <==> IsDir(fs', p)
    {
      assert View(fs, root)[p] == View(fs', root)[p];
    }
  }

  lemma PartViewStarts(fs: Tree, dir: Path)
    requires IsDir(fs, dir)
    ensures PartView(fs, dir, {}) == map[dir := Lookup(fs, dir)]
  {
    hide Lookup;
    assert Reached(fs, dir, dir);
  }

  lemma PartViewComplete(fs: Tree, dir: Path)
    requires IsDir(fs, dir)
    ensures PartView(fs, dir, Names(fs, dir)) == View(fs, dir)
  {
    hide Lookup, Names;
    forall p
      ensures InPart(fs, dir, Names(fs, dir), p) <==> Reached(fs, dir, p)
    {
      if Reached(fs, dir, p) && p != dir {
        NamedOnTheWay(fs, dir, p);
      }
    }
  }

  predicate Skips(fs: Tree, dir: Path, n: Name) {
    n in SKIPPED && IsDir(fs, dir + [n])
  }

  lemma ReachedThrough(fs: Tree, dir: Path, n: Name, p: Path)
    requires IsDir(fs, dir)
    ensures (dir < p && p[|dir|] == n && Reached(fs, dir, p)) <==>
            (Reached(fs, dir + [n], p) && !Skips(fs, dir, n))
  {
    var child := dir + [n];
    if dir < p && p[|dir|] == n {
      assert p[..|dir| + 1] == child;
      assert Blocked(fs, p, |dir|) == Skips(fs, dir, n);
    }
  }

  lemma InPartStep(fs: Tree, dir: Path, done: set<Name>, n: Name, p: Path)
    requires IsDir(fs, dir)
    ensures InPart(fs, dir, done + {n}, p) <==>
            InPart(fs, dir, done, p) || (Reached(fs, dir + [n], p) && !Skips(fs, dir, n))
  {
    ReachedThrough(fs, dir, n, p);
  }

  lemma PartViewStep(fs: Tree, dir: Path, done: set<Name>, n: Name)
    requires IsDir(fs, dir)
    ensures PartView(fs, dir, done + {n}) ==
            if Skips(fs, dir, n) then PartView(fs, dir, done)
            else PartView(fs, dir, done) + View(fs, dir + [n])
  {
    hide Reached, InPart, Skips;
    var whole := PartView(fs, dir, done + {n});
    var parts := if Skips(fs, dir, n) then PartView(fs, dir, done)
                 else PartView(fs, dir, done) + View(fs, dir + [n]);
    forall p
      ensures p in whole <==> p in parts
      ensures p in whole ==> whole[p] == parts[p]
    {
      InPartStep(fs, dir, done, n, p);
    }
  }

  lemma WalkedParts(fs: Tree, watched: set<Path>, dir: Path)
    requires IsDir(fs, dir) && dir in watched
    requires forall n :: n in Names(fs, dir) && !Skips(fs, dir, n) ==> Walked(fs, watched, dir + [n])
    ensures Walked(fs, watched, dir)
  {
    forall p | Reached(fs, dir, p) && IsDir(fs, p)
      ensures p in watched
    {
      if p != dir {
        var n := p[|dir|];
        ReachedPrefix(fs, dir, p, |dir| + 1);
        assert p[..|dir| + 1] == dir + [n];
        NamesMember(fs, dir, n);
        assert Blocked(fs, p, |dir|) == Skips(fs, dir, n);
        ReachedThrough(fs, dir, n, p);
      }
    }
  }

  lemma ReachedExtends(fs: Tree, root: Path, dir: Path, p: Path)
    requires Reached(fs, root, dir) && Reached(fs, dir, p)
    ensures Reached(fs, root, p)
  {
    forall i | |root| <= i < |p|
      ensures !Blocked(fs, p, i)
    {
      if i < |dir| {
        assert !Blocked(fs, dir, i);
        assert p[..i + 1] == dir[..i + 1];
      }
    }
  }
}
