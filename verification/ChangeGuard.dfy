/** The kernel's change reports and the computations whose results the guard
    lets Squire keep: reads that depend on earlier reads. */
module ChangeGuard {
  import opened Wrappers
  import opened FileTree

  /** `watches` maps each open report queue to the objects it covers, by their
      present path; `dirty` holds the queues with a report waiting. No program can
      see the other two: `late` holds the queues on which a watch was registered
      for a path when the directory to watch for that path was already another,
      `moved` those of which a watched object went along with a directory above
      it without a report. */
  datatype Kernel = Kernel(fs: Tree, watches: map<nat, set<Path>>, dirty: set<nat>, late: set<nat>, moved: set<nat>)

  /** A watch stays on its object when that is renamed. */
  function Followed(op: Op, watched: set<Path>): set<Path> {
    if op.Move? then set p | p in watched :: Relocate(op.path, op.to, p) else watched
  }

  predicate Displaced(op: Op, watched: set<Path>) {
    Unreported(op, watched) && exists d :: d in watched && Displaces(op, d)
  }

  function Change(k: Kernel, op: Op): Kernel {
    if Applicable(k.fs, op) then
      Kernel(Apply(k.fs, op), map fd | fd in k.watches :: Followed(op, k.watches[fd]),
             k.dirty + (set fd | fd in k.watches && !Unreported(op, k.watches[fd])), k.late,
             k.moved + (set fd | fd in k.watches && Displaced(op, k.watches[fd])))
    else
      k
  }

  function Closed(k: Kernel, queue: nat): Kernel {
    Kernel(k.fs, k.watches - {queue}, k.dirty - {queue}, k.late - {queue}, k.moved - {queue})
  }

  function Run(k: Kernel, ops: seq<Op>): Kernel
    decreases |ops|
  {
    if ops == [] then k else Run(Change(k, ops[0]), ops[1..])
  }

  /** The trees other processes leave behind, one per change. */
  function Trees(k: Kernel, ops: seq<Op>): (trees: seq<Tree>)
    ensures |trees| == |ops|
    ensures ops != [] ==> trees[|ops| - 1] == Run(k, ops).fs
    decreases |ops|
  {
    if ops == [] then []
    else
      var k' := Change(k, ops[0]);
      [k'.fs] + Trees(k', ops[1..])
  }

  /** Nothing a guard watching `watched` depends on differs between the trees. */
  ghost predicate Undisturbed(watched: set<Path>, fs: Tree, fs': Tree) {
    && (forall p :: WatchTarget(fs, p) in watched ==>
          Lookup(fs', p) == Lookup(fs, p) && WatchTarget(fs', p) == WatchTarget(fs, p))
    && (forall root :: IsDir(fs, root) && Walked(fs, watched, root) ==>
          IsDir(fs', root) && View(fs', root) == View(fs, root))
    && (forall d, n :: d in watched && IsDir(fs, d) ==> (IsDir(fs', d + [n]) <==> IsDir(fs, d + [n])))
    && (forall d :: d in watched && d in fs ==> d in fs' && (IsDir(fs', d) <==> IsDir(fs, d)))
  }

  /** The queue has no report, and no watch of it has lost its place. */
  ghost predicate Silent(k: Kernel, fd: nat) {
    fd !in k.dirty && fd !in k.moved
  }

  /** `k'` can follow `k`: queues stay open, waiting reports, late and moved
      watches only accumulate, and a silent queue has the watches it had and saw
      nothing it covers change. */
  ghost predicate Later(k: Kernel, k': Kernel) {
    forall fd :: fd in k.watches ==>
      && fd in k'.watches
      && (fd in k.dirty ==> fd in k'.dirty)
      && (fd in k.late ==> fd in k'.late)
      && (fd in k.moved ==> fd in k'.moved)
      && (Silent(k', fd) ==> k.watches[fd] <= k'.watches[fd] && Undisturbed(k.watches[fd], k.fs, k'.fs))
  }

  lemma UndisturbedChange(fs: Tree, op: Op, watched: set<Path>)
    requires Applicable(fs, op) && Unseen(op, watched)
    ensures Undisturbed(watched, fs, Apply(fs, op)) && watched <= Followed(op, watched)
  {
    hide Applicable, Apply;
    var fs' := Apply(fs, op);
    forall p | WatchTarget(fs, p) in watched
      ensures Lookup(fs', p) == Lookup(fs, p) && WatchTarget(fs', p) == WatchTarget(fs, p)
    {
      UnreportedChangeInvisible(fs, op, p);
    }
    forall root | IsDir(fs, root) && Walked(fs, watched, root)
      ensures IsDir(fs', root) && View(fs', root) == View(fs, root)
    {
      UnseenChangeKeepsView(fs, op, watched, root);
    }
    forall d, n | d in watched && IsDir(fs, d)
      ensures IsDir(fs', d + [n]) <==> IsDir(fs, d + [n])
    {
      UnreportedChangeKeepsKind(fs, op, d, n);
    }
    forall d | d in watched && d in fs
      ensures d in fs' && (IsDir(fs', d) <==> IsDir(fs, d))
    {
      UnreportedSpares(fs, op, d, "");
      Elsewhere(fs, op, d);
    }
    UnseenFollowed(op, watched);
  }

  lemma StaysPut(op: Op, p: Path)
    requires op.Move? && op.path != p && !Displaces(op, p)
    ensures !(op.path <= p) && Relocate(op.path, op.to, p) == p
  {
  }

  lemma UnseenFollowed(op: Op, watched: set<Path>)
    requires Unseen(op, watched)
    ensures watched <= Followed(op, watched)
  {
    if op.Move? {
      forall p | p in watched
        ensures p in Followed(op, watched)
      {
        StaysPut(op, p);
        assert Relocate(op.path, op.to, p) == p;
      }
    }
  }

  lemma UndisturbedTransitive(w: set<Path>, w': set<Path>, fs0: Tree, fs1: Tree, fs2: Tree)
    requires w <= w' && Undisturbed(w, fs0, fs1) && Undisturbed(w', fs1, fs2)
    ensures Undisturbed(w, fs0, fs2)
  {
    forall root | IsDir(fs0, root) && Walked(fs0, w, root)
      ensures IsDir(fs2, root) && View(fs2, root) == View(fs0, root)
    {
      ViewDeterminesReached(fs0, fs1, w, root);
    }
    forall d, n | d in w && IsDir(fs0, d)
      ensures IsDir(fs2, d + [n]) <==> IsDir(fs0, d + [n])
    {
      assert WatchTarget(fs0, d) == d;
      assert IsDir(fs1, d);
    }
  }

  lemma LaterTransitive(k0: Kernel, k1: Kernel, k2: Kernel)
    requires Later(k0, k1) && Later(k1, k2)
    ensures Later(k0, k2)
  {
    forall fd | fd in k0.watches && Silent(k2, fd)
      ensures k0.watches[fd] <= k2.watches[fd] && Undisturbed(k0.watches[fd], k0.fs, k2.fs)
    {
      UndisturbedTransitive(k0.watches[fd], k1.watches[fd], k0.fs, k1.fs, k2.fs);
    }
  }

  lemma ChangeIsLater(k: Kernel, op: Op)
    ensures Later(k, Change(k, op)) && Change(k, op).late == k.late && Change(k, op).watches.Keys == k.watches.Keys
  {
    hide Applicable, Apply, Unreported, Undisturbed, Displaces, Followed;
    var k' := Change(k, op);
    if Applicable(k.fs, op) {
      forall fd | fd in k.watches && Silent(k', fd)
        ensures k.watches[fd] <= k'.watches[fd] && Undisturbed(k.watches[fd], k.fs, k'.fs)
      {
        UndisturbedChange(k.fs, op, k.watches[fd]);
      }
    } else {
      LaterReflexive(k);
    }
  }

  lemma LaterReflexive(k: Kernel)
    ensures Later(k, k)
  {
  }

  /** Whatever other processes do, a queue that stays silent covers nothing that
      changed. */
  lemma {:induction false} RunIsLater(k: Kernel, ops: seq<Op>)
    ensures Later(k, Run(k, ops)) && Run(k, ops).late == k.late && Run(k, ops).watches.Keys == k.watches.Keys
    decreases |ops|
  {
    hide Later, Change;
    if ops == [] {
      LaterReflexive(k);
    } else {
      ChangeIsLater(k, ops[0]);
      RunIsLater(Change(k, ops[0]), ops[1..]);
      LaterTransitive(k, Change(k, ops[0]), Run(k, ops));
    }
  }

  lemma {:induction false} RunKeepsQueues(k: Kernel, ops: seq<Op>)
    requires forall q :: q in k.dirty + k.late + k.moved ==> q in k.watches
    ensures forall q :: q in Run(k, ops).dirty + Run(k, ops).late + Run(k, ops).moved ==> q in Run(k, ops).watches
    decreases |ops|
  {
    if ops != [] {
      RunKeepsQueues(Change(k, ops[0]), ops[1..]);
    }
  }

  // ---- What a silent queue is worth

  /** While the queue is silent nobody has changed what a reader of `p` sees. */
  ghost predicate SilenceVouches(k: Kernel, fd: nat, p: Path) {
    forall ops :: fd !in Run(k, ops).dirty ==> Lookup(Run(k, ops).fs, p) == Lookup(k.fs, p)
  }

  lemma {:induction false} LongerName(names: set<Name>) returns (n: Name)
    ensures forall m :: m in names ==> |m| < |n|
  {
    if names == {} {
      n := "x";
    } else {
      var m :| m in names;
      var rest := LongerName(names - {m});
      n := rest + m;
      assert forall r :: r in names - {m} ==> |r| < |n|;
      n := n + "x";
    }
  }

  /** One more name in a directory. */
  lemma ListingMissed(fs: Tree, watched: set<Path>, p: Path) returns (op: Op)
    requires IsDir(fs, p) && p !in watched
    ensures Applicable(fs, op) && Unreported(op, watched) && Lookup(Apply(fs, op), p) != Lookup(fs, p)
  {
    hide Names;
    var n := LongerName(Names(fs, p) + set q | q in watched && q != [] :: q[|q| - 1]);
    op := Put(p + [n], "", 0);
    assert Parent(op.path) == p;
    NamesMember(fs, p, n);
    NamesMember(Apply(fs, op), p, n);
  }

  /** A file written or made. */
  lemma FileMissed(fs: Tree, watched: set<Path>, p: Path) returns (op: Op)
    requires p != [] && !IsDir(fs, p) && IsDir(fs, Parent(p)) && p !in watched && Parent(p) !in watched
    ensures Applicable(fs, op) && Unreported(op, watched) && Lookup(Apply(fs, op), p) != Lookup(fs, p)
  {
    op := Put(p, match Lookup(fs, p) case Content(data, _) => data + "x" case _ => "x", 0);
  }

  /** The next directory on the way to a missing path, or room for it. */
  lemma StepMissed(fs: Tree, watched: set<Path>, p: Path) returns (op: Op)
    requires var t := WatchTarget(fs, p); |t| + 1 < |p| && t !in watched && p[..|t| + 1] !in watched
    ensures Applicable(fs, op) && Unreported(op, watched) && !op.Move?
    ensures Lookup(Apply(fs, op), p) == Lookup(fs, p)
    ensures var t := WatchTarget(fs, p);
            if p[..|t| + 1] in fs then WatchTarget(Apply(fs, op), p) == t && p[..|t| + 1] !in Apply(fs, op)
            else WatchTarget(Apply(fs, op), p) == p[..|t| + 1]
  {
    hide Names;
    var t := WatchTarget(fs, p);
    var c := p[..|t| + 1];
    assert c == t + [p[|t|]] && Parent(c) == t;
    op := if c in fs then Remove(c) else MkDir(c);
    NoNamesOfFile(fs, c);
    NothingBelow(fs, p, |t| + 1);
    var fs' := Apply(fs, op);
    if c in fs {
      OnlyDirAbove(fs', p, t);
    } else {
      assert p[..|t| + 2] == c + [p[|t| + 1]] && p[..|t| + 2][..|t| + 1] == c;
      if |t| + 2 < |p| || p[..|t| + 2] in fs {
        NothingBelow(fs, p[..|t| + 2], |t| + 1);
      }
      OnlyDirAbove(fs', p, c);
    }
  }

  lemma ChildNeedsDir(fs: Tree, p: Path, n: Name)
    requires p + [n] in fs
    ensures IsDir(fs, p)
  {
    assert InDir(fs, p + [n]) && Parent(p + [n]) == p;
  }

  lemma NoNamesOfFile(fs: Tree, p: Path)
    requires !IsDir(fs, p)
    ensures Names(fs, p) == {}
  {
    forall n
      ensures n !in Names(fs, p)
    {
      NamesMember(fs, p, n);
      if p + [n] in fs {
        ChildNeedsDir(fs, p, n);
      }
    }
  }

  /** Others can change what a reader of `p` sees without a report, if no
      directory on the way is watched. */
  lemma {:induction false} ChangeMissed(k: Kernel, fd: nat, p: Path) returns (ops: seq<Op>)
    requires fd in k.watches && fd !in k.dirty
    requires forall n :: |WatchTarget(k.fs, p)| <= n <= |p| ==> p[..n] !in k.watches[fd]
    ensures fd !in Run(k, ops).dirty && Lookup(Run(k, ops).fs, p) != Lookup(k.fs, p)
    decreases |p| - |WatchTarget(k.fs, p)|,
              if |WatchTarget(k.fs, p)| < |p| && p[..|WatchTarget(k.fs, p)| + 1] in k.fs then 1 else 0
  {
    hide WatchTarget, Lookup, Applicable, Apply, Unreported, Displaced;
    var t, op := WatchTarget(k.fs, p), MkDir(p);
    assert p[..|p|] == p && p[..|t|] == t;
    if IsDir(k.fs, p) {
      op := ListingMissed(k.fs, k.watches[fd], p);
      ops := [op];
    } else if |p| == |t| + 1 {
      assert Parent(p) == t;
      op := FileMissed(k.fs, k.watches[fd], p);
      ops := [op];
    } else {
      op := StepMissed(k.fs, k.watches[fd], p);
      ops := ChangeMissed(Change(k, op), fd, p);
      ops := [op] + ops;
    }
  }

  /** No directory above `t` can be renamed without a report: each is watched, or
      the directory that holds it is. */
  predicate Anchored(watched: set<Path>, t: Path) {
    forall n :: 0 < n < |t| ==> t[..n] in watched || t[..n - 1] in watched
  }

  lemma PrefixParts(a: Path, t: Path)
    requires a < t && a != []
    ensures t[..|a|] == a && t[..|a| - 1] == Parent(a)
  {
  }

  /** A watched directory no directory above which moves unseen stays in place. */
  lemma AnchoredStays(op: Op, watched: set<Path>, t: Path)
    requires Unreported(op, watched) && t in watched && Anchored(watched, t)
    ensures !Displaces(op, t) && t in Followed(op, watched) && Anchored(Followed(op, watched), t)
  {
    if op.Move? {
      var n := |op.path|;
      if op.path < t {
        PrefixParts(op.path, t);
      }
      StaysPut(op, t);
      forall m | 0 <= m <= |t| && t[..m] in watched
        ensures t[..m] in Followed(op, watched)
      {
        assert t[..m] <= t;
        assert Relocate(op.path, op.to, t[..m]) == t[..m];
      }
      assert t[..|t|] == t;
    }
  }

  lemma {:induction false} SilenceKeeps(k: Kernel, fd: nat, p: Path, ops: seq<Op>)
    requires fd in k.watches && WatchTarget(k.fs, p) in k.watches[fd] && fd !in Run(k, ops).dirty
    requires Anchored(k.watches[fd], WatchTarget(k.fs, p))
    ensures Lookup(Run(k, ops).fs, p) == Lookup(k.fs, p)
    decreases |ops|
  {
    hide WatchTarget, Lookup, Applicable, Apply, Followed, Anchored;
    if ops != [] {
      var op, k' := ops[0], Change(k, ops[0]);
      RunIsLater(k', ops[1..]);
      if Applicable(k.fs, op) {
        AnchoredStays(op, k.watches[fd], WatchTarget(k.fs, p));
        UnreportedChangeInvisible(k.fs, op, p);
      }
      SilenceKeeps(k', fd, p, ops[1..]);
    }
  }

  /** A rename of a directory that is neither watched nor in a watched directory
      reaches what is below without a report. */
  lemma RenameUnseen(k: Kernel, fd: nat, p: Path, n: nat) returns (op: Op)
    requires fd in k.watches && fd !in k.dirty && 0 < n < |WatchTarget(k.fs, p)|
    requires p[..n] !in k.watches[fd] && p[..n - 1] !in k.watches[fd]
    ensures op.Move? && op.path == p[..n] && Applicable(k.fs, op) && Unreported(op, k.watches[fd])
    ensures fd !in Change(k, op).dirty && p !in Change(k, op).fs && fd in Change(k, op).watches
    ensures WatchTarget(Change(k, op).fs, p) == p[..n - 1]
    ensures forall m :: n - 1 <= m <= |p| ==> p[..m] !in Change(k, op).watches[fd]
  {
    var from, above, w := p[..n], p[..n - 1], k.watches[fd];
    assert InDir(k.fs, from) ==> IsDir(k.fs, Parent(from));
    assert Parent(from) == above;
    DirAbove(k.fs, p, n);
    var name := LongerName(Names(k.fs, above) + {p[n - 1]} + set q | q in w && q != [] :: q[|q| - 1]);
    var to := above + [name];
    assert Parent(to) == above && from[n - 1] == p[n - 1] && to[n - 1] == name;
    NamesMember(k.fs, above, name);
    op := Move(from, to, 0);
    RenameTakesAlong(k, op, fd, p);
  }

  lemma DirAbove(fs: Tree, p: Path, n: nat)
    requires n <= |WatchTarget(fs, p)|
    ensures IsDir(fs, p[..n])
  {
    var t := WatchTarget(fs, p);
    assert p[..|t|] == t;
    DirPrefix(fs, p, |t|, n);
  }

  lemma RenameTakesAlong(k: Kernel, op: Op, fd: nat, p: Path)
    requires op.Move? && Applicable(k.fs, op) && op.to !in k.fs && fd in k.watches && fd !in k.dirty
    requires op.path < p && Parent(op.to) == Parent(op.path) && Unreported(op, k.watches[fd])
    ensures fd !in Change(k, op).dirty && p !in Change(k, op).fs && fd in Change(k, op).watches
    ensures WatchTarget(Change(k, op).fs, p) == Parent(op.path)
    ensures forall m :: |op.path| - 1 <= m <= |p| ==> p[..m] !in Change(k, op).watches[fd]
  {
    hide Applicable, Apply, Followed, Unreported, Displaced, WatchTarget;
    ChangedPlaces(k.fs, op);
    RenameLeaves(k.fs, op, p);
    RenameTakesWatches(op, k.watches[fd], p);
  }

  lemma RenameLeaves(fs: Tree, op: Op, p: Path)
    requires op.Move? && Applicable(fs, op) && op.to !in fs && op.path < p && Parent(op.to) == Parent(op.path)
    ensures p !in Apply(fs, op) && WatchTarget(Apply(fs, op), p) == Parent(op.path)
    ensures op.path != op.to
  {
    hide Names, MovedPaths, WatchTarget;
    var n, above := |op.path|, Parent(op.path);
    PrefixParts(op.path, p);
    assert op.path == above + [p[n - 1]];
    Elsewhere(fs, op, above);
    assert !InMoved(fs, op.path, op.to, op.path);
    OnlyDirAbove(Apply(fs, op), p, above);
    NothingBelow(Apply(fs, op), p, n);
  }

  lemma RelocateMisses(op: Op, q: Path, p: Path, m: nat)
    requires op.Move? && op.path != [] && op.to != [] && Parent(op.to) == Parent(op.path) && op.path != op.to
    requires op.path < p && |op.path| - 1 <= m <= |p|
    ensures Relocate(op.path, op.to, q) == p[..m] ==> q == p[..m] && m < |op.path|
  {
    var n, r := |op.path|, Relocate(op.path, op.to, q);
    assert op.path == Parent(op.path) + [op.path[n - 1]] && op.to == Parent(op.to) + [op.to[n - 1]];
    if op.path <= q {
      assert r[n - 1] == op.to[n - 1] != p[n - 1];
    } else {
      assert m >= n ==> op.path <= p[..m];
    }
  }

  /** The watches below move along, and none on the way was there before. */
  lemma RenameTakesWatches(op: Op, watched: set<Path>, p: Path)
    requires op.Move? && op.path != [] && op.to != [] && Parent(op.to) == Parent(op.path) && op.path != op.to
    requires op.path < p && Unreported(op, watched)
    ensures forall m :: |op.path| - 1 <= m <= |p| ==> p[..m] !in Followed(op, watched)
  {
    PrefixParts(op.path, p);
    forall m, q | |op.path| - 1 <= m <= |p| && q in watched
      ensures Relocate(op.path, op.to, q) != p[..m]
    {
      RelocateMisses(op, q, p, m);
    }
  }

  /** A silent queue vouches for a path exactly if the directory to watch for
      the path is among the watched ones, and no directory above can be renamed
      without a report. */
  lemma CoverageExact(k: Kernel, fd: nat, p: Path)
    requires fd in k.watches && fd !in k.dirty
    requires forall d :: d in k.watches[fd] ==> IsDir(k.fs, d)
    ensures SilenceVouches(k, fd, p) <==>
            WatchTarget(k.fs, p) in k.watches[fd] && Anchored(k.watches[fd], WatchTarget(k.fs, p))
  {
    hide Lookup, Run, WatchTarget, IsDir;
    var t := WatchTarget(k.fs, p);
    if t !in k.watches[fd] {
      forall n | |t| <= n <= |p|
        ensures p[..n] !in k.watches[fd]
      {
      }
      var ops := ChangeMissed(k, fd, p);
    } else if Anchored(k.watches[fd], t) {
      forall ops | fd !in Run(k, ops).dirty
        ensures Lookup(Run(k, ops).fs, p) == Lookup(k.fs, p)
      {
        SilenceKeeps(k, fd, p, ops);
      }
    } else {
      var n :| 0 < n < |t| && t[..n] !in k.watches[fd] && t[..n - 1] !in k.watches[fd];
      assert t[..n] == p[..n] && t[..n - 1] == p[..n - 1];
      var ops := RenameMissed(k, fd, p, n);
    }
  }

  /** Others can then change what a reader of `p` sees: the rename hides it, or
      makes way for something new. */
  lemma RenameMissed(k: Kernel, fd: nat, p: Path, n: nat) returns (ops: seq<Op>)
    requires fd in k.watches && fd !in k.dirty && 0 < n < |WatchTarget(k.fs, p)|
    requires p[..n] !in k.watches[fd] && p[..n - 1] !in k.watches[fd]
    ensures fd !in Run(k, ops).dirty && Lookup(Run(k, ops).fs, p) != Lookup(k.fs, p)
  {
    hide WatchTarget, Change;
    var op := RenameUnseen(k, fd, p, n);
    if p in k.fs {
      ops := [op];
    } else {
      ops := ChangeMissed(Change(k, op), fd, p);
      ops := [op] + ops;
    }
  }

  lemma {:induction false} AllAnchoredStay(k: Kernel, fd: nat, ops: seq<Op>)
    requires fd in k.watches && fd !in k.moved && fd !in Run(k, ops).dirty
    requires forall d :: d in k.watches[fd] ==> Anchored(k.watches[fd], d)
    ensures fd !in Run(k, ops).moved
    decreases |ops|
  {
    hide Applicable, Apply;
    if ops != [] {
      var op, k', w := ops[0], Change(k, ops[0]), k.watches[fd];
      RunIsLater(k', ops[1..]);
      if Applicable(k.fs, op) {
        forall d | d in w
          ensures !Displaces(op, d)
        {
          AnchoredStays(op, w, d);
        }
        AllStayPut(op, w);
      }
      AllAnchoredStay(k', fd, ops[1..]);
    }
  }

  lemma AllStayPut(op: Op, watched: set<Path>)
    requires Unseen(op, watched)
    ensures Followed(op, watched) == watched
  {
    if op.Move? {
      forall p | p in watched
        ensures Relocate(op.path, op.to, p) == p
      {
        StaysPut(op, p);
      }
      UnseenFollowed(op, watched);
    }
  }

  /** Others cannot move a watched directory along unseen exactly if each
      directory above a watched one is watched, or in a watched one. */
  lemma MovedExact(k: Kernel, fd: nat)
    requires fd in k.watches && fd !in k.dirty && fd !in k.moved
    requires forall d :: d in k.watches[fd] ==> IsDir(k.fs, d)
    ensures (forall ops :: fd !in Run(k, ops).dirty ==> fd !in Run(k, ops).moved) <==>
            forall d :: d in k.watches[fd] ==> Anchored(k.watches[fd], d)
  {
    hide Run;
    var w := k.watches[fd];
    if forall d :: d in w ==> Anchored(w, d) {
      forall ops | fd !in Run(k, ops).dirty
        ensures fd !in Run(k, ops).moved
      {
        AllAnchoredStay(k, fd, ops);
      }
    } else {
      var d :| d in w && !Anchored(w, d);
      var n :| 0 < n < |d| && d[..n] !in w && d[..n - 1] !in w;
      OneMoved(k, fd, d, n);
    }
  }

  lemma OneMoved(k: Kernel, fd: nat, d: Path, n: nat)
    requires fd in k.watches && fd !in k.dirty && d in k.watches[fd] && IsDir(k.fs, d)
    requires 0 < n < |d| && d[..n] !in k.watches[fd] && d[..n - 1] !in k.watches[fd]
    ensures exists ops :: fd !in Run(k, ops).dirty && fd in Run(k, ops).moved
  {
    hide Applicable, Apply, Unreported;
    var op := RenameUnseen(k, fd, d, n);
    assert Displaces(op, d);
    assert Run(k, [op]) == Change(k, op);
  }

  // ---- Computations

  /** What a fingerprint computation does next. */
  datatype Step = Fail | Done(value: string) | Read(path: Path) | Scan

  /** What it learnt from a read: one path, or the whole walked workspace. */
  datatype Seen = SawPath(value: Value) | SawView(view: map<Path, Value>)

  /** A fingerprint computation: each step depends on everything seen so far;
      `steps` bounds the number of steps. */
  datatype Probe = Probe(steps: nat, next: seq<Seen> -> Step)

  /** The fingerprints a guard remembers between commands. */
  datatype MemoId =
    | GitContext | GitTool | RgTool | GitIndex | GitConfig | GitHead | GitIgnore
    | GitAttributes | GitLogView | GitObjectNamespace | RgConfig | Workspace

  datatype Args = NoArgs | WorkspaceArgs(needContent: bool, maxContentFiles: nat)

  /** What an epoch computation does next: ask for a remembered fingerprint, or
      compute one that is not remembered. */
  datatype PlanStep = Abort | Give(epoch: string) | Ask(id: MemoId, args: Args) | Direct(probe: Probe)

  datatype Plan = Plan(asks: nat, next: seq<string> -> PlanStep)

  /** The computations of one repository root under one environment: the
      remembered fingerprints, and the epoch of each command key. */
  datatype Library = Library(probes: (MemoId, Args) -> Probe, plans: string -> Plan)

  /** The result of a probe computed afresh on one tree. */
  ghost function EvalProbe(fs: Tree, root: Path, t: Probe, seen: seq<Seen> := []): Option<string>
    decreases t.steps - |seen|
  {
    if |seen| > t.steps then None
    else
      match t.next(seen)
      case Fail => None
      case Done(value) => Some(value)
      case Read(path) => EvalProbe(fs, root, t, seen + [SawPath(Lookup(fs, path))])
      case Scan => if IsDir(fs, root) then EvalProbe(fs, root, t, seen + [SawView(View(fs, root))]) else None
  }

  /** Every path the computation reads on this tree is covered by a watch. */
  ghost predicate Watched(fs: Tree, w: set<Path>, root: Path, t: Probe, seen: seq<Seen> := [])
    decreases t.steps - |seen|
  {
    |seen| <= t.steps ==>
      match t.next(seen)
      case Fail => true
      case Done(_) => true
      case Read(path) =>
        && WatchTarget(fs, path) in w
        && Watched(fs, w, root, t, seen + [SawPath(Lookup(fs, path))])
      case Scan =>
        && IsDir(fs, root)
        && Walked(fs, w, root)
        && Watched(fs, w, root, t, seen + [SawView(View(fs, root))])
  }

  /** The epoch a fresh computation without any memory gives on one tree. */
  ghost function EvalPlan(fs: Tree, root: Path, lib: Library, t: Plan, heard: seq<string> := []): Option<string>
    decreases t.asks - |heard|
  {
    if |heard| > t.asks then None
    else
      match t.next(heard)
      case Abort => None
      case Give(epoch) => Some(epoch)
      case Ask(id, args) =>
        var r := EvalProbe(fs, root, lib.probes(id, args));
        if r.None? then None else EvalPlan(fs, root, lib, t, heard + [r.value])
      case Direct(probe) =>
        var r := EvalProbe(fs, root, probe);
        if r.None? then None else EvalPlan(fs, root, lib, t, heard + [r.value])
  }

  ghost predicate PlanWatched(fs: Tree, w: set<Path>, root: Path, lib: Library, t: Plan, heard: seq<string> := [])
    decreases t.asks - |heard|
  {
    |heard| <= t.asks ==>
      match t.next(heard)
      case Abort => true
      case Give(_) => true
      case Ask(id, args) => ProbeThenPlanWatched(fs, w, root, lib, t, heard, lib.probes(id, args))
      case Direct(probe) => ProbeThenPlanWatched(fs, w, root, lib, t, heard, probe)
  }

  ghost predicate ProbeThenPlanWatched(fs: Tree, w: set<Path>, root: Path, lib: Library, t: Plan,
                                       heard: seq<string>, probe: Probe)
    requires |heard| <= t.asks
    decreases t.asks - |heard|, 0
  {
    var r := EvalProbe(fs, root, probe);
    Watched(fs, w, root, probe) && (r.Some? ==> PlanWatched(fs, w, root, lib, t, heard + [r.value]))
  }

  /** `value` is what the probe gives on this tree, and every path it read is
      covered. */
  ghost predicate Proven(fs: Tree, w: set<Path>, root: Path, t: Probe, value: string, seen: seq<Seen> := []) {
    EvalProbe(fs, root, t, seen) == Some(value) && Watched(fs, w, root, t, seen)
  }

  ghost predicate PlanProven(fs: Tree, w: set<Path>, root: Path, lib: Library, t: Plan, epoch: string,
                             heard: seq<string> := [])
  {
    EvalPlan(fs, root, lib, t, heard) == Some(epoch) && PlanWatched(fs, w, root, lib, t, heard)
  }

  lemma {:induction false} ProvenStays(fs: Tree, fs': Tree, w: set<Path>, w': set<Path>, root: Path, t: Probe,
                                       value: string, seen: seq<Seen>)
    requires Proven(fs, w, root, t, value, seen)
    requires w <= w' && Undisturbed(w, fs, fs')
    ensures Proven(fs', w', root, t, value, seen)
    decreases t.steps - |seen|
  {
    match t.next(seen)
    case Fail =>
    case Done(_) =>
    case Read(path) =>
      ProvenStays(fs, fs', w, w', root, t, value, seen + [SawPath(Lookup(fs, path))]);
    case Scan =>
      ViewDeterminesReached(fs, fs', w, root);
      ProvenStays(fs, fs', w, w', root, t, value, seen + [SawView(View(fs, root))]);
  }

  /** A proven epoch stays the freshly computed one as long as nothing the
      guard covers changes. */
  lemma {:induction false} PlanProvenStays(fs: Tree, fs': Tree, w: set<Path>, w': set<Path>, root: Path,
                                           lib: Library, t: Plan, epoch: string, heard: seq<string>)
    requires PlanProven(fs, w, root, lib, t, epoch, heard)
    requires w <= w' && Undisturbed(w, fs, fs')
    ensures PlanProven(fs', w', root, lib, t, epoch, heard)
    decreases t.asks - |heard|
  {
    match t.next(heard)
    case Abort =>
    case Give(_) =>
    case Ask(id, args) =>
      var r := EvalProbe(fs, root, lib.probes(id, args));
      assert ProbeThenPlanWatched(fs, w, root, lib, t, heard, lib.probes(id, args));
      ProvenStays(fs, fs', w, w', root, lib.probes(id, args), r.value, []);
      PlanProvenStays(fs, fs', w, w', root, lib, t, epoch, heard + [r.value]);
    case Direct(probe) =>
      var r := EvalProbe(fs, root, probe);
      assert ProbeThenPlanWatched(fs, w, root, lib, t, heard, probe);
      ProvenStays(fs, fs', w, w', root, probe, r.value, []);
      PlanProvenStays(fs, fs', w, w', root, lib, t, epoch, heard + [r.value]);
  }

  // ---- Which reads the workspace walk covers

  /** A workspace path, for which the guard relies on the walk. */
  predicate InWorkspace(root: Path, p: Path) {
    root <= p && (|root| < |p| ==> p[|root|] !in SKIPPED)
  }

  ghost predicate OutsideSkipped(root: Path, p: Path) {
    forall i :: |root| <= i < |p| ==> p[i] !in SKIPPED
  }

  /** No workspace path is read below a directory the walk does not enter. */
  ghost predicate Coverable(root: Path, t: Probe) {
    forall seen :: t.next(seen).Read? && InWorkspace(root, t.next(seen).path) ==>
      OutsideSkipped(root, t.next(seen).path)
  }

  ghost predicate PlanCoverable(root: Path, lib: Library, t: Plan) {
    && (forall id, args :: Coverable(root, lib.probes(id, args)))
    && (forall heard :: t.next(heard).Direct? ==> Coverable(root, t.next(heard).probe))
  }

  /** After the walk, the directory to watch for a workspace path is watched. */
  lemma WalkCovers(fs: Tree, w: set<Path>, root: Path, p: Path)
    requires IsDir(fs, root) && Walked(fs, w, root) && root <= p && OutsideSkipped(root, p)
    ensures WatchTarget(fs, p) in w
  {
    var t := WatchTarget(fs, p);
    assert p[..|root|] == root;
    assert |root| <= |t|;
    assert t[..|root|] == p[..|root|];
    assert Reached(fs, root, t);
  }

  // ---- A walk under interference

  lemma ChildViewStays(fs: Tree, fs': Tree, w: set<Path>, dir: Path, n: Name)
    requires Undisturbed(w, fs, fs') && dir in w && IsDir(fs, dir) && n in Names(fs, dir)
    requires IsDir(fs, dir + [n]) && !Skips(fs, dir, n) ==> Walked(fs, w, dir + [n])
    ensures Skips(fs', dir, n) <==> Skips(fs, dir, n)
    ensures IsDir(fs', dir + [n]) <==> IsDir(fs, dir + [n])
    ensures !Skips(fs, dir, n) ==> View(fs', dir + [n]) == View(fs, dir + [n])
  {
    var child := dir + [n];
    if !IsDir(fs, child) {
      assert Parent(child) == dir;
      assert WatchTarget(fs, child) == dir;
      NamesMember(fs, dir, n);
      FileView(fs, child);
      FileView(fs', child);
    }
  }

  lemma FileReachesItself(fs: Tree, p: Path, q: Path)
    requires p in fs && !IsDir(fs, p)
    ensures Reached(fs, p, q) <==> q == p
  {
    if Reached(fs, p, q) {
      assert q[..|p|] == p;
      ReachedPrefix(fs, p, q, |p|);
    }
  }

  lemma FileView(fs: Tree, p: Path)
    requires p in fs && !IsDir(fs, p)
    ensures View(fs, p) == map[p := Lookup(fs, p)]
  {
    forall q
      ensures Reached(fs, p, q) <==> q == p
    {
      FileReachesItself(fs, p, q);
    }
  }

  /** The names of `dir` in `done` were walked: directories among them are
      watched all the way down. */
  ghost predicate WalkedNames(fs: Tree, w: set<Path>, dir: Path, done: set<Name>) {
    && IsDir(fs, dir)
    && dir in w
    && done <= Names(fs, dir)
    && forall n :: n in done && !Skips(fs, dir, n) ==> Walked(fs, w, dir + [n])
  }

  lemma WalkedNameStays(fs: Tree, fs': Tree, w: set<Path>, w': set<Path>, dir: Path, done: set<Name>, n: Name)
    requires Undisturbed(w, fs, fs') && w <= w' && WalkedNames(fs, w, dir, done) && n in done
    ensures Skips(fs', dir, n) <==> Skips(fs, dir, n)
    ensures !Skips(fs', dir, n) ==> Walked(fs', w', dir + [n])
    ensures forall p :: dir < p && p[|dir|] == n ==>
              (Reached(fs', dir, p) <==> Reached(fs, dir, p)) &&
              (Reached(fs, dir, p) ==> Lookup(fs', p) == Lookup(fs, p))
  {
    ChildViewStays(fs, fs', w, dir, n);
    assert WatchTarget(fs, dir) == dir;
    assert IsDir(fs', dir);
    if !Skips(fs, dir, n) {
      ViewDeterminesReached(fs, fs', w, dir + [n]);
    }
    forall p | dir < p && p[|dir|] == n
      ensures Reached(fs', dir, p) <==> Reached(fs, dir, p)
      ensures Reached(fs, dir, p) ==> Lookup(fs', p) == Lookup(fs, p)
    {
      ReachedThrough(fs, dir, n, p);
      ReachedThrough(fs', dir, n, p);
    }
  }

  lemma PartViewFromParts(fs: Tree, fs': Tree, dir: Path, done: set<Name>)
    requires IsDir(fs, dir) && IsDir(fs', dir) && Lookup(fs', dir) == Lookup(fs, dir)
    requires forall p :: dir < p && p[|dir|] in done ==>
               (Reached(fs', dir, p) <==> Reached(fs, dir, p)) &&
               (Reached(fs, dir, p) ==> Lookup(fs', p) == Lookup(fs, p))
    ensures PartView(fs', dir, done) == PartView(fs, dir, done)
  {
    forall p
      ensures InPart(fs', dir, done, p) <==> InPart(fs, dir, done, p)
      ensures InPart(fs, dir, done, p) ==> Lookup(fs', p) == Lookup(fs, p)
    {
      assert Reached(fs, dir, dir) && Reached(fs', dir, dir);
      if dir <= p && p != dir && p[|dir|] in done {
        assert dir < p;
        assert Reached(fs', dir, p) <==> Reached(fs, dir, p);
      }
    }
    SamePartView(fs, fs', dir, done);
  }

  lemma SamePartView(fs: Tree, fs': Tree, dir: Path, done: set<Name>)
    requires forall p :: InPart(fs', dir, done, p) <==> InPart(fs, dir, done, p)
    requires forall p :: InPart(fs, dir, done, p) ==> p in fs && p in fs' && Lookup(fs', p) == Lookup(fs, p)
    ensures PartView(fs', dir, done) == PartView(fs, dir, done)
  {
    hide InPart, Lookup;
  }

  lemma WalkedNamesStay(fs: Tree, fs': Tree, w: set<Path>, w': set<Path>, dir: Path, done: set<Name>)
    requires Undisturbed(w, fs, fs') && w <= w' && WalkedNames(fs, w, dir, done)
    ensures WalkedNames(fs', w', dir, done) && Names(fs', dir) == Names(fs, dir)
    ensures PartView(fs', dir, done) == PartView(fs, dir, done)
  {
    assert WatchTarget(fs, dir) == dir;
    assert Lookup(fs', dir) == Lookup(fs, dir) && IsDir(fs', dir);
    forall n | n in done
      ensures !Skips(fs', dir, n) ==> Walked(fs', w', dir + [n])
    {
      WalkedNameStays(fs, fs', w, w', dir, done, n);
    }
    forall p | dir < p && p[|dir|] in done
      ensures Reached(fs', dir, p) <==> Reached(fs, dir, p)
      ensures Reached(fs, dir, p) ==> Lookup(fs', p) == Lookup(fs, p)
    {
      WalkedNameStays(fs, fs', w, w', dir, done, p[|dir|]);
    }
    PartViewFromParts(fs, fs', dir, done);
  }

  lemma FileJoinsView(fs: Tree, w: set<Path>, dir: Path, done: set<Name>, n: Name)
    requires WalkedNames(fs, w, dir, done) && n in Names(fs, dir)
    requires dir + [n] in fs && !IsDir(fs, dir + [n])
    ensures WalkedNames(fs, w, dir, done + {n})
    ensures PartView(fs, dir, done + {n}) == PartView(fs, dir, done)[dir + [n] := Lookup(fs, dir + [n])]
  {
    FileView(fs, dir + [n]);
    PartViewStep(fs, dir, done, n);
    forall p
      ensures Reached(fs, dir + [n], p) <==> p == dir + [n]
    {
      FileReachesItself(fs, dir + [n], p);
    }
  }
}
