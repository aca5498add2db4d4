/** The cache of repository worlds: per repository root one change guard with its
    remembered fingerprints and the proven epoch of each command. Between any two
    steps of a call other processes change the file system. */
module RepoWorld {
  import opened Wrappers
  import opened FileTree
  import opened ChangeGuard

  const WORLD_SLOTS := 4
  const COMMAND_SLOTS := 256
  const MAX_EXTERNAL_PATHS := 1024
  const MAX_PATH_DEPTH := 4096

  datatype Memo = Memo(args: Args, value: string)

  datatype Guard = Guard(root: Path, queue: nat, complete: bool, registered: bool, memos: map<MemoId, Memo>,
                         external: seq<Path>)

  datatype Command = Command(occupied: bool, key: string, epoch: string, lastUsed: nat)

  datatype World = World(occupied: bool, root: Path, environment: string, commands: seq<Command>, lastUsed: nat,
                         guard: Option<Guard>)

  const NO_COMMANDS: seq<Command> := seq(COMMAND_SLOTS, _ => Command(false, "", "", 0))
  const EMPTY_WORLD := World(false, [], "", NO_COMMANDS, 0, None)

  /** The guard saw everything it should and no report is waiting. */
  ghost predicate Clean(k: Kernel, g: Guard) {
    g.complete && g.queue !in k.dirty
  }

  /** Besides, each of its watches was registered in time and none moved along
      with a directory above. */
  ghost predicate Trusted(k: Kernel, g: Guard) {
    Clean(k, g) && g.queue !in k.late && g.queue !in k.moved
  }

  /** Everything the guard remembers is current, unless a report is waiting, the
      guard is incomplete or one of its watches was late or moved along. */
  ghost predicate GuardCurrent(k: Kernel, lib: Library, g: Guard) {
    g.queue in k.watches &&
    (Trusted(k, g) ==>
      && (g.registered ==> IsDir(k.fs, g.root) && Walked(k.fs, k.watches[g.queue], g.root))
      && (forall id :: id in g.memos ==>
           Proven(k.fs, k.watches[g.queue], g.root, lib.probes(id, g.memos[id].args), g.memos[id].value, []))
      && (forall p :: p in g.external ==> p in k.watches[g.queue] && IsDir(k.fs, p)))
  }

  ghost predicate ProvenIfTrusted(k: Kernel, g: Guard, t: Probe, value: string, seen: seq<Seen>)
    requires g.queue in k.watches
  {
    Trusted(k, g) ==> Proven(k.fs, k.watches[g.queue], g.root, t, value, seen)
  }

  ghost predicate PlanProvenIfTrusted(k: Kernel, g: Guard, lib: Library, t: Plan, epoch: string, heard: seq<string>)
    requires g.queue in k.watches
  {
    Trusted(k, g) ==> PlanProven(k.fs, k.watches[g.queue], g.root, lib, t, epoch, heard)
  }

  /** `saw` is what the step shows on the current tree, and it is covered. */
  ghost predicate Sees(k: Kernel, g: Guard, step: Step, saw: Seen)
    requires g.queue in k.watches
  {
    match step
    case Read(path) => WatchTarget(k.fs, path) in k.watches[g.queue] && saw == SawPath(Lookup(k.fs, path))
    case Scan =>
      && IsDir(k.fs, g.root)
      && Walked(k.fs, k.watches[g.queue], g.root)
      && saw == SawView(View(k.fs, g.root))
    case _ => false
  }

  ghost predicate CommandsCurrent(k: Kernel, lib: Library, g: Guard, commands: seq<Command>)
    requires g.queue in k.watches
  {
    Trusted(k, g) ==>
      forall c :: c in commands && c.occupied ==>
        PlanProven(k.fs, k.watches[g.queue], g.root, lib, lib.plans(c.key), c.epoch)
  }

  ghost predicate UniqueKeys(commands: seq<Command>) {
    forall i, j :: 0 <= i < j < |commands| && commands[i].occupied && commands[j].occupied ==>
      commands[i].key != commands[j].key
  }

  ghost predicate WorldCurrent(k: Kernel, libs: (Path, string) -> Library, w: World) {
    && |w.commands| == COMMAND_SLOTS
    && UniqueKeys(w.commands)
    && if w.occupied then
         && w.guard.Some?
         && w.guard.value.root == w.root
         && GuardCurrent(k, libs(w.root, w.environment), w.guard.value)
         && CommandsCurrent(k, libs(w.root, w.environment), w.guard.value, w.commands)
       else
         w.guard.None?
  }

  /** At most one world per root, each with its own report queue. */
  ghost predicate Separate(ws: seq<World>) {
    forall i, j :: 0 <= i < j < |ws| && ws[i].occupied && ws[j].occupied ==>
      && ws[i].root != ws[j].root
      && (ws[i].guard.Some? && ws[j].guard.Some? ==> ws[i].guard.value.queue != ws[j].guard.value.queue)
  }

  ghost predicate WorldsCurrent(k: Kernel, libs: (Path, string) -> Library, ws: seq<World>) {
    && |ws| == WORLD_SLOTS
    && Separate(ws)
    && forall i :: 0 <= i < |ws| ==> WorldCurrent(k, libs, ws[i])
  }

  /** The world remembers the epoch of a command. */
  ghost predicate StoredIn(w: World, root: Path, environment: string, key: string, epoch: string) {
    && w.occupied && w.root == root && w.environment == environment
    && exists c :: 0 <= c < |w.commands| &&
                   w.commands[c].occupied && w.commands[c].key == key && w.commands[c].epoch == epoch
  }

  /** No watch of the world was late or moved along with a directory above. */
  ghost predicate Reliable(k: Kernel, w: World) {
    w.guard.Some? ==> w.guard.value.queue !in k.late && w.guard.value.queue !in k.moved
  }

  ghost predicate RootFree(ws: seq<World>, root: Path) {
    forall i :: 0 <= i < |ws| ==> !(ws[i].occupied && ws[i].root == root)
  }

  lemma GuardStaysCurrent(k: Kernel, k': Kernel, lib: Library, g: Guard)
    requires Later(k, k') && GuardCurrent(k, lib, g)
    ensures GuardCurrent(k', lib, g)
  {
    if Trusted(k', g) {
      var w, w' := k.watches[g.queue], k'.watches[g.queue];
      if g.registered {
        ViewDeterminesReached(k.fs, k'.fs, w, g.root);
      }
      forall id | id in g.memos
        ensures Proven(k'.fs, w', g.root, lib.probes(id, g.memos[id].args), g.memos[id].value)
      {
        ProvenStays(k.fs, k'.fs, w, w', g.root, lib.probes(id, g.memos[id].args), g.memos[id].value, []);
      }
      forall p | p in g.external
        ensures p in w' && IsDir(k'.fs, p)
      {
        assert WatchTarget(k.fs, p) == p;
      }
    }
  }

  lemma SawThenProven(k: Kernel, k': Kernel, g: Guard, g': Guard, t: Probe, value: string, seen: seq<Seen>, saw: Seen)
    requires Later(k, k') && Continues(g, g') && g.queue in k.watches && |seen| <= t.steps
    requires Trusted(k, g) ==> Sees(k, g, t.next(seen), saw)
    requires ProvenIfTrusted(k', g', t, value, seen + [saw])
    ensures ProvenIfTrusted(k', g', t, value, seen)
  {
    if Trusted(k', g') && t.next(seen).Scan? {
      ViewDeterminesReached(k.fs, k'.fs, k.watches[g.queue], g.root);
    }
  }

  lemma AnswerThenProven(k: Kernel, k': Kernel, g: Guard, g': Guard, lib: Library, t: Plan, epoch: string,
                         heard: seq<string>, probe: Probe, answer: string)
    requires Later(k, k') && Continues(g, g') && g.queue in k.watches && |heard| <= t.asks
    requires t.next(heard) == Direct(probe) ||
             (t.next(heard).Ask? && probe == lib.probes(t.next(heard).id, t.next(heard).args))
    requires ProvenIfTrusted(k, g, probe, answer, [])
    requires PlanProvenIfTrusted(k', g', lib, t, epoch, heard + [answer])
    ensures PlanProvenIfTrusted(k', g', lib, t, epoch, heard)
  {
    if Trusted(k', g') {
      var w, w' := k.watches[g.queue], k'.watches[g.queue];
      ProvenStays(k.fs, k'.fs, w, w', g.root, probe, answer, []);
      assert ProbeThenPlanWatched(k'.fs, w', g.root, lib, t, heard, probe);
    }
  }

  lemma MemoJoinsGuard(k: Kernel, lib: Library, g: Guard, id: MemoId, memo: Memo)
    requires GuardCurrent(k, lib, g)
    requires ProvenIfTrusted(k, g, lib.probes(id, memo.args), memo.value, [])
    ensures GuardCurrent(k, lib, g.(memos := g.memos[id := memo]))
    ensures ProvenIfTrusted(k, g.(memos := g.memos[id := memo]), lib.probes(id, memo.args), memo.value, [])
  {
  }

  lemma IncompleteStaysCurrent(k: Kernel, lib: Library, g: Guard, g': Guard)
    requires GuardCurrent(k, lib, g) && g' == g.(complete := g'.complete) && (g'.complete ==> g.complete)
    ensures GuardCurrent(k, lib, g')
  {
  }

  /** A registered watch joins the guard; a late one ends the trust in it. */
  /** The watch of the queue is late if another directory is the one to watch. */
  function Noted(k: Kernel, queue: nat, path: Path, target: Path): Kernel {
    k.(late := if WatchTarget(k.fs, path) == target then k.late else k.late + {queue})
  }

  lemma WatchJoinsGuard(k: Kernel, k': Kernel, lib: Library, g: Guard, path: Path, target: Path)
    requires GuardCurrent(k, lib, g) && target in k.watches[g.queue]
    requires k' == Noted(k, g.queue, path, target)
    ensures GuardCurrent(k', lib, g.(external := g.external + [target])) && Later(k, k')
    ensures Trusted(k', g) ==> WatchTarget(k'.fs, path) in k'.watches[g.queue]
  {
  }

  lemma TargetStays(k: Kernel, k': Kernel, g: Guard, path: Path)
    requires Later(k, k') && g.queue in k.watches && Trusted(k', g)
    requires Trusted(k, g) ==> WatchTarget(k.fs, path) in k.watches[g.queue]
    ensures WatchTarget(k'.fs, path) in k'.watches[g.queue]
  {
  }

  lemma ChildStaysNoDir(k: Kernel, k': Kernel, lib: Library, g: Guard, d: Path, n: Name)
    requires Later(k, k') && GuardCurrent(k, lib, g) && d in g.external && Trusted(k', g)
    requires !IsDir(k.fs, d + [n])
    ensures !IsDir(k'.fs, d + [n])
  {
  }

  /** The directory to watch for `path` is the same in all these states. */
  ghost predicate Settled(states: seq<Tree>, path: Path) {
    forall i, j :: 0 <= i < j < |states| ==> WatchTarget(states[i], path) == WatchTarget(states[j], path)
  }

  /** The looks for the directory to watch have come down to `target`. */
  ghost predicate Looking(k: Kernel, g: Guard, states: seq<Tree>, path: Path, target: Path) {
    && target <= path
    && states != [] && states[|states| - 1] == k.fs
    && (target in g.external && Trusted(k, g) && target != path ==> !IsDir(k.fs, target + [path[|target|]]))
    && (Settled(states, path) ==> |WatchTarget(k.fs, path)| <= |target|)
  }

  lemma OneState(states: seq<Tree>, path: Path)
    requires |states| == 1
    ensures Settled(states, path)
  {
  }

  lemma LookStarts(k: Kernel, g: Guard, states: seq<Tree>, path: Path)
    requires states != [] && states[|states| - 1] == k.fs
    ensures Later(k, k) && Looking(k, g, states, path, path)
  {
  }

  /** A look that found no directory found none to watch either. */
  lemma LookFails(k: Kernel, k': Kernel, lib: Library, g: Guard, seen: seq<Tree>, states: seq<Tree>, path: Path,
                  target: Path)
    requires Later(k, k') && GuardCurrent(k, lib, g) && Looking(k, g, seen, path, target) && !IsDir(k.fs, target)
    requires seen <= states && states[|states| - 1] == k'.fs
    ensures target != [] && Looking(k', g, states, path, Parent(target))
  {
    hide GuardCurrent, Later, WatchTarget, Settled;
    var above := Parent(target);
    assert above <= path;
    assert path[..|target|] == target == above + [path[|above|]];
    if above in g.external && Trusted(k', g) {
      ChildStaysNoDir(k, k', lib, g, above, path[|above|]);
    }
    if Settled(states, path) {
      SettledEnds(seen, states, path);
    }
  }

  lemma LookEnds(k: Kernel, g: Guard, states: seq<Tree>, path: Path, target: Path)
    requires Looking(k, g, states, path, target) && IsDir(k.fs, target)
    ensures (target in g.external && Trusted(k, g)) || Settled(states, path) ==> target == WatchTarget(k.fs, path)
  {
    assert path[..|target|] == target;
    if target in g.external && Trusted(k, g) {
      OnlyDirAbove(k.fs, path, target);
    }
  }

  lemma SettledWithin(h: seq<Tree>, h': seq<Tree>, path: Path, from: nat, before: nat)
    requires h <= h' && from <= before <= |h| && Settled(h'[from..], path)
    ensures Settled(h[before..], path)
  {
    var all, part := h'[from..], h[before..];
    assert forall i :: 0 <= i < |part| ==> part[i] == all[i + (before - from)];
  }

  lemma SettledEnds(seen: seq<Tree>, states: seq<Tree>, path: Path)
    requires seen != [] && seen <= states && Settled(states, path)
    ensures Settled(seen, path)
    ensures WatchTarget(seen[|seen| - 1], path) == WatchTarget(states[|states| - 1], path)
  {
    assert |seen| < |states| ==> WatchTarget(states[|seen| - 1], path) == WatchTarget(states[|states| - 1], path);
  }

  lemma RegisteredCovers(k: Kernel, lib: Library, g: Guard, path: Path)
    requires GuardCurrent(k, lib, g) && g.registered && Trusted(k, g)
    requires InWorkspace(g.root, path) && OutsideSkipped(g.root, path)
    ensures WatchTarget(k.fs, path) in k.watches[g.queue]
  {
    WalkCovers(k.fs, k.watches[g.queue], g.root, path);
  }

  lemma ExternalIsWatched(k: Kernel, lib: Library, g: Guard, target: Path)
    requires GuardCurrent(k, lib, g) && target in g.external && Trusted(k, g)
    ensures target in k.watches[g.queue]
  {
  }

  lemma MemoIsProven(k: Kernel, lib: Library, g: Guard, id: MemoId)
    requires GuardCurrent(k, lib, g) && id in g.memos
    ensures ProvenIfTrusted(k, g, lib.probes(id, g.memos[id].args), g.memos[id].value, [])
  {
  }

  lemma CommandsStayCurrent(k: Kernel, k': Kernel, lib: Library, g: Guard, commands: seq<Command>)
    requires Later(k, k') && g.queue in k.watches && CommandsCurrent(k, lib, g, commands)
    ensures CommandsCurrent(k', lib, g, commands)
  {
    if Trusted(k', g) {
      var w, w' := k.watches[g.queue], k'.watches[g.queue];
      forall c | c in commands && c.occupied
        ensures PlanProven(k'.fs, w', g.root, lib, lib.plans(c.key), c.epoch)
      {
        PlanProvenStays(k.fs, k'.fs, w, w', g.root, lib, lib.plans(c.key), c.epoch, []);
      }
    }
  }

  /** What others do after the last read of a computation shows in the queue. */
  lemma EpochStaysProven(k: Kernel, k': Kernel, lib: Library, g: Guard, t: Plan, epoch: string)
    requires Later(k, k') && GuardCurrent(k, lib, g) && PlanProvenIfTrusted(k, g, lib, t, epoch, [])
    ensures GuardCurrent(k', lib, g) && PlanProvenIfTrusted(k', g, lib, t, epoch, [])
  {
    GuardStaysCurrent(k, k', lib, g);
    if Trusted(k', g) {
      PlanProvenStays(k.fs, k'.fs, k.watches[g.queue], k'.watches[g.queue], g.root, lib, t, epoch, []);
    }
  }

  /** No interference makes a cached epoch stale without a report waiting. */
  lemma WorldsStayCurrent(k: Kernel, k': Kernel, libs: (Path, string) -> Library, ws: seq<World>)
    requires Later(k, k') && WorldsCurrent(k, libs, ws)
    ensures WorldsCurrent(k', libs, ws)
  {
    forall i | 0 <= i < |ws|
      ensures WorldCurrent(k', libs, ws[i])
    {
      var w := ws[i];
      assert WorldCurrent(k, libs, w);
      if w.occupied {
        GuardStaysCurrent(k, k', libs(w.root, w.environment), w.guard.value);
        CommandsStayCurrent(k, k', libs(w.root, w.environment), w.guard.value, w.commands);
      }
    }
  }

  /** Dropping one world and closing its queue leaves the others current. */
  lemma DroppedWorld(k: Kernel, libs: (Path, string) -> Library, ws: seq<World>, i: nat)
    requires WorldsCurrent(k, libs, ws) && i < |ws| && ws[i].guard.Some?
    ensures WorldsCurrent(Closed(k, ws[i].guard.value.queue), libs, ws[i := EMPTY_WORLD])
  {
    assert WorldCurrent(k, libs, ws[i]);
    var queue := ws[i].guard.value.queue;
    var k' := Closed(k, queue);
    forall j | 0 <= j < |ws| && j != i
      ensures WorldCurrent(k', libs, ws[j])
    {
      assert WorldCurrent(k, libs, ws[j]);
      if ws[j].occupied {
        assert ws[j].guard.value.queue != queue;
        QueueElsewhere(k, k', libs(ws[j].root, ws[j].environment), ws[j].guard.value, ws[j].commands);
      }
    }
    assert WorldCurrent(k', libs, EMPTY_WORLD);
  }

  lemma QueueElsewhere(k: Kernel, k': Kernel, lib: Library, g: Guard, commands: seq<Command>)
    requires GuardCurrent(k, lib, g) && CommandsCurrent(k, lib, g, commands)
    requires k'.fs == k.fs && g.queue in k'.watches && k'.watches[g.queue] == k.watches[g.queue]
    requires g.queue in k'.dirty <==> g.queue in k.dirty
    requires (g.queue in k'.late <==> g.queue in k.late) && (g.queue in k'.moved <==> g.queue in k.moved)
    ensures GuardCurrent(k', lib, g) && CommandsCurrent(k', lib, g, commands)
  {
  }

  ghost predicate KeyFree(commands: seq<Command>, key: string) {
    forall i :: 0 <= i < |commands| ==> !(commands[i].occupied && commands[i].key == key)
  }

  /** The epoch is what a computation without any memory gives on this tree. */
  ghost predicate FreshEpoch(fs: Tree, libs: (Path, string) -> Library, root: Path, environment: string, key: string,
                             epoch: string)
  {
    var lib := libs(root, environment);
    EvalPlan(fs, root, lib, lib.plans(key)) == Some(epoch)
  }

  /** The epoch is a fresh one in one of these states. */
  ghost predicate FreshSince(states: seq<Tree>, libs: (Path, string) -> Library, root: Path, environment: string,
                             key: string, epoch: string)
  {
    exists i :: 0 <= i < |states| && FreshEpoch(states[i], libs, root, environment, key, epoch)
  }

  lemma CommandTouched(k: Kernel, libs: (Path, string) -> Library, w: World, c: nat, now: nat)
    requires WorldCurrent(k, libs, w) && w.occupied && c < |w.commands|
    ensures WorldCurrent(k, libs, w.(commands := w.commands[c := w.commands[c].(lastUsed := now)]))
  {
    var lib, g := libs(w.root, w.environment), w.guard.value;
    var touched := w.commands[c := w.commands[c].(lastUsed := now)];
    if Trusted(k, g) {
      forall d | d in touched && d.occupied
        ensures PlanProven(k.fs, k.watches[g.queue], g.root, lib, lib.plans(d.key), d.epoch)
      {
        var j :| 0 <= j < |touched| && touched[j] == d;
        assert w.commands[j] in w.commands;
      }
    }
  }

  lemma CommandStored(k: Kernel, lib: Library, g: Guard, g': Guard, commands: seq<Command>, stored: seq<Command>,
                      key: string, epoch: string, now: nat, slot: nat)
    requires slot < |commands| && stored == commands[slot := Command(true, key, epoch, now)]
    requires g.queue in k.watches && Continues(g, g')
    requires CommandsCurrent(k, lib, g, commands) && UniqueKeys(commands) && KeyFree(commands, key)
    requires PlanProvenIfTrusted(k, g', lib, lib.plans(key), epoch, [])
    ensures CommandsCurrent(k, lib, g', stored) && UniqueKeys(stored)
  {
    forall d | Trusted(k, g') && d in stored && d.occupied
      ensures PlanProven(k.fs, k.watches[g'.queue], g'.root, lib, lib.plans(d.key), d.epoch)
    {
      if d.key != key || d.epoch != epoch {
        assert d in commands;
      }
    }
  }

  lemma ReplacedWorld(k: Kernel, libs: (Path, string) -> Library, ws: seq<World>, i: nat, w: World)
    requires WorldsCurrent(k, libs, ws) && i < |ws| && ws[i].occupied
    requires WorldCurrent(k, libs, w) && w.occupied && w.root == ws[i].root && w.guard.Some? && ws[i].guard.Some?
    requires w.guard.value.queue == ws[i].guard.value.queue
    ensures WorldsCurrent(k, libs, ws[i := w])
  {
  }

  /** A queue opened for an attempt that failed is closed again. */
  lemma UnusedQueue(k0: Kernel, k: Kernel, libs: (Path, string) -> Library, ws: seq<World>, queue: nat)
    requires WorldsCurrent(k0, libs, ws) && queue !in k0.watches && WorldsCurrent(k, libs, ws)
    ensures WorldsCurrent(Closed(k, queue), libs, ws)
  {
    var k' := Closed(k, queue);
    forall j | 0 <= j < |ws|
      ensures WorldCurrent(k', libs, ws[j])
    {
      assert WorldCurrent(k0, libs, ws[j]) && WorldCurrent(k, libs, ws[j]);
      if ws[j].occupied {
        QueueElsewhere(k, k', libs(ws[j].root, ws[j].environment), ws[j].guard.value, ws[j].commands);
      }
    }
  }

  lemma NewWorld(k0: Kernel, k: Kernel, libs: (Path, string) -> Library, ws: seq<World>, i: nat, w: World, slot: nat,
                 now: nat, key: string, epoch: string)
    requires WorldsCurrent(k0, libs, ws) && WorldsCurrent(k, libs, ws)
    requires i < |ws| && !ws[i].occupied && RootFree(ws, w.root)
    requires w.occupied && w.guard.Some? && w.guard.value.root == w.root && w.guard.value.queue !in k0.watches
    requires GuardCurrent(k, libs(w.root, w.environment), w.guard.value)
    requires slot < COMMAND_SLOTS && w.commands == NO_COMMANDS[slot := Command(true, key, epoch, now)]
    requires PlanProvenIfTrusted(k, w.guard.value, libs(w.root, w.environment),
                               libs(w.root, w.environment).plans(key), epoch, [])
    ensures WorldsCurrent(k, libs, ws[i := w])
  {
    forall j | 0 <= j < |ws| && ws[j].occupied
      ensures ws[j].guard.Some? && ws[j].guard.value.queue != w.guard.value.queue
    {
      assert WorldCurrent(k0, libs, ws[j]);
    }
    assert forall j :: 0 <= j < COMMAND_SLOTS && j != slot ==> !w.commands[j].occupied;
    assert WorldCurrent(k, libs, w);
  }

  class Cache {
    const libs: (Path, string) -> Library
    var k: Kernel
    /** Every state of the file system so far, the current one last. */
    ghost var history: seq<Tree>
    /** Changes by others so far, refusals, and lists and trees that grew too large. */
    ghost var setbacks: nat
    var nextQueue: nat
    /** The guard of the computation under way. */
    var active: Guard
    var worlds: array<World>
    var clock: nat

    ghost predicate Tracks()
      reads `k, `history, `nextQueue
    {
      && history != []
      && history[|history| - 1] == k.fs
      && (forall q :: q in k.watches ==> q < nextQueue)
      && (forall q :: q in k.dirty + k.late + k.moved ==> q in k.watches)
    }

    ghost predicate Valid()
      reads `k, `history, `nextQueue, `worlds, worlds
    {
      && Tracks()
      && worlds.Length == WORLD_SLOTS
      && WorldsCurrent(k, libs, worlds[..])
      && forall root, env, key :: PlanCoverable(root, libs(root, env), libs(root, env).plans(key))
    }

    /** Nothing was set back since, so the tree is the same, and the guard is
        trusted if it was. */
    ghost predicate Calm(before: nat, was: Kernel, g: Guard)
      reads `k, `active, `setbacks
    {
      before <= setbacks && (setbacks == before ==> k.fs == was.fs && (Trusted(was, g) ==> Trusted(k, active)))
    }

    constructor (libs: (Path, string) -> Library, fs: Tree)
      requires forall root, env, key :: PlanCoverable(root, libs(root, env), libs(root, env).plans(key))
      ensures Valid() && fresh(worlds)
      ensures this.libs == libs && k.fs == fs
    {
      this.libs := libs;
      k := Kernel(fs, map[], {}, {}, {});
      history := [fs];
      setbacks := 0;
      nextQueue := 0;
      active := Guard([], 0, false, false, map[], []);
      worlds := new World[WORLD_SLOTS](_ => EMPTY_WORLD);
      clock := 0;
    }

    /** Other processes change the file system any number of times. */
    method Interfere()
      requires Tracks()
      modifies `k, `history, `setbacks
      ensures Tracks() && Later(old(k), k) && old(history) <= history
      ensures k.watches.Keys == old(k.watches.Keys) && k.late == old(k.late)
      ensures old(setbacks) <= setbacks
      ensures setbacks == old(setbacks) ==> k == old(k) && history == old(history)
    {
      var ops: seq<Op> := *;
      setbacks := setbacks + |ops|;
      RunIsLater(k, ops);
      RunKeepsQueues(k, ops);
      history := history + Trees(k, ops);
      k := Run(k, ops);
    }

    method OpenQueue() returns (queue: nat)
      requires Tracks()
      modifies `k, `nextQueue
      ensures Tracks() && k.fs == old(k.fs)
      ensures queue !in old(k.watches) && k.watches == old(k.watches)[queue := {}]
      ensures k.dirty == old(k.dirty) && k.late == old(k.late) && k.moved == old(k.moved)
    {
      queue := nextQueue;
      k := k.(watches := k.watches[queue := {}]);
      nextQueue := nextQueue + 1;
    }

    method CloseQueue(queue: nat)
      requires Tracks()
      modifies `k
      ensures Tracks() && k == Closed(old(k), queue)
    {
      k := Closed(k, queue);
    }

    /** Ask the kernel to report changes of an object; it can refuse. */
    method AddWatch(path: Path)
      requires Tracks() && active.queue in k.watches
      modifies `k, `active, `setbacks
      ensures Tracks() && k == old(k).(watches := k.watches) && Later(old(k), k)
      ensures active == old(active).(complete := active.complete) && (active.complete ==> old(active.complete))
      ensures active.complete ==> path in k.watches[active.queue]
      ensures path in k.fs ==> Calm(old(setbacks), old(k), old(active))
      ensures old(setbacks) <= setbacks
    {
      var refused: bool := *;
      setbacks := if refused then setbacks + 1 else setbacks;
      if !active.complete || refused || path !in k.fs {
        active := active.(complete := false);
        return;
      }
      k := k.(watches := k.watches[active.queue := k.watches[active.queue] + {path}]);
    }

    /** Choose the directory to watch for `path`, one look at a time: the path
        itself, then each directory above, while others act. */
    method ChooseTarget(ghost lib: Library, path: Path) returns (target: Path)
      requires Tracks() && GuardCurrent(k, lib, active)
      modifies `k, `history, `setbacks
      ensures Tracks() && Later(old(k), k) && old(history) <= history && k.late == old(k.late)
      ensures GuardCurrent(k, lib, active)
      ensures target in active.external && Trusted(k, active) ==> target == WatchTarget(k.fs, path)
      ensures Settled(history[|old(history)| - 1..], path) ==> target == WatchTarget(k.fs, path)
      ensures old(setbacks) <= setbacks
      ensures setbacks == old(setbacks) ==> k == old(k) && target == WatchTarget(k.fs, path)
    {
      hide GuardCurrent, Settled, WatchTarget, Later, Looking;
      target := path;
      ghost var from := |history| - 1;
      LookStarts(k, active, history[from..], path);
      while !IsDir(k.fs, target)
        invariant Tracks() && Later(old(k), k) && old(history) <= history && k.late == old(k.late)
        invariant GuardCurrent(k, lib, active) && Looking(k, active, history[from..], path, target)
        invariant old(setbacks) <= setbacks
        invariant setbacks == old(setbacks) ==> k == old(k) && history == old(history)
        decreases |target|
      {
        ghost var looked, seen := k, history;
        Interfere();
        LaterTransitive(old(k), looked, k);
        GuardStaysCurrent(looked, k, lib, active);
        LookFails(looked, k, lib, active, seen[from..], history[from..], path, target);
        target := Parent(target);
      }
      if setbacks == old(setbacks) {
        OneState(history[from..], path);
      }
      LookEnds(k, active, history[from..], path, target);
    }

    /** Note a registered watch, by now perhaps no longer of the directory to
        watch. */
    method NoteTarget(ghost lib: Library, path: Path, target: Path)
      requires Tracks() && GuardCurrent(k, lib, active) && active.complete
      requires active.queue in k.watches && target in k.watches[active.queue]
      modifies `k, `active
      ensures Tracks() && Later(old(k), k) && GuardCurrent(k, lib, active)
      ensures active == old(active).(external := active.external)
      ensures k == Noted(old(k), active.queue, path, target)
      ensures Trusted(k, active) ==> WatchTarget(k.fs, path) in k.watches[active.queue]
    {
      hide GuardCurrent, WatchTarget, Later;
      ghost var k2 := k;
      k := Noted(k, active.queue, path, target);
      WatchJoinsGuard(k2, k, lib, active, path, target);
      active := active.(external := active.external + [target]);
    }

    /** Register the watch of the directory chosen for `path`. */
    method RegisterTarget(ghost lib: Library, path: Path, target: Path)
      requires Tracks() && GuardCurrent(k, lib, active)
      modifies `k, `history, `setbacks, `active
      ensures Tracks() && Later(old(k), k) && old(history) <= history
      ensures GuardCurrent(k, lib, active) && Continues(old(active), active)
      ensures Trusted(k, active) ==> WatchTarget(k.fs, path) in k.watches[active.queue]
      ensures active.complete && WatchTarget(k.fs, path) != target ==> k.late == old(k.late) + {active.queue}
      ensures !active.complete || WatchTarget(k.fs, path) == target ==> k.late == old(k.late)
      ensures old(setbacks) <= setbacks
      ensures target == WatchTarget(old(k.fs), path) ==> Calm(old(setbacks), old(k), old(active))
    {
      hide GuardCurrent, WatchTarget, Later;
      Interfere();
      GuardStaysCurrent(old(k), k, lib, active);
      ghost var k1, g1 := k, active;
      AddWatch(target);
      LaterTransitive(old(k), k1, k);
      GuardStaysCurrent(k1, k, lib, g1);
      IncompleteStaysCurrent(k, lib, g1, active);
      if active.complete {
        ghost var k2 := k;
        NoteTarget(lib, path, target);
        LaterTransitive(old(k), k2, k);
      }
    }

    /** Watch for a path that no walk covers. Others act between the choice of
        the directory and the registration. */
    method WatchOutside(ghost lib: Library, path: Path)
      requires Tracks() && GuardCurrent(k, lib, active)
      modifies `k, `history, `setbacks, `active
      ensures Tracks() && Later(old(k), k) && old(history) <= history
      ensures GuardCurrent(k, lib, active) && Continues(old(active), active)
      ensures Trusted(k, active) ==> WatchTarget(k.fs, path) in k.watches[active.queue]
      ensures k.late <= old(k.late) + {active.queue}
      ensures Settled(history[|old(history)| - 1..], path) ==> k.late == old(k.late)
      ensures Calm(old(setbacks), old(k), old(active))
    {
      hide GuardCurrent, WatchTarget, Later, Settled;
      ghost var from := |history| - 1;
      var target := ChooseTarget(lib, path);
      if target in active.external {
        if Trusted(k, active) {
          ExternalIsWatched(k, lib, active, target);
        }
        return;
      }
      if |active.external| >= MAX_EXTERNAL_PATHS {
        IncompleteStaysCurrent(k, lib, active, active.(complete := false));
        active := active.(complete := false);
        setbacks := setbacks + 1;
        return;
      }
      ghost var chosen, seen := k, history;
      RegisterTarget(lib, path, target);
      LaterTransitive(old(k), chosen, k);
      if Settled(history[from..], path) {
        SettledEnds(seen[from..], history[from..], path);
      }
    }

    /** Watch before reading `path`, unless the workspace walk covers it. */
    method WatchDependency(ghost lib: Library, path: Path)
      requires Tracks() && GuardCurrent(k, lib, active)
      requires InWorkspace(active.root, path) ==> OutsideSkipped(active.root, path)
      modifies `k, `history, `setbacks, `active
      ensures Tracks() && Later(old(k), k) && old(history) <= history
      ensures GuardCurrent(k, lib, active) && Continues(old(active), active)
      ensures Trusted(k, active) ==> WatchTarget(k.fs, path) in k.watches[active.queue]
      ensures k.late <= old(k.late) + {active.queue}
      ensures Settled(history[|old(history)| - 1..], path) ==> k.late == old(k.late)
      ensures Calm(old(setbacks), old(k), old(active))
    {
      hide GuardCurrent, WatchTarget, Later, Settled, InWorkspace, OutsideSkipped;
      LaterReflexive(k);
      if !active.complete {
        return;
      }
      if active.registered && InWorkspace(active.root, path) {
        if Trusted(k, active) {
          RegisteredCovers(k, lib, active, path);
        }
        return;
      }
      WatchOutside(lib, path);
    }

    /** Read one path: watch, then look, with interference before each step. */
    method ReadPath(ghost lib: Library, path: Path) returns (value: Value)
      requires Tracks() && GuardCurrent(k, lib, active)
      requires InWorkspace(active.root, path) ==> OutsideSkipped(active.root, path)
      modifies `k, `history, `setbacks, `active
      ensures Tracks() && Later(old(k), k) && old(history) <= history
      ensures GuardCurrent(k, lib, active) && Continues(old(active), active)
      ensures Trusted(k, active) ==> WatchTarget(k.fs, path) in k.watches[active.queue] && value == Lookup(k.fs, path)
      ensures Settled(history[|old(history)| - 1..], path) ==> k.late == old(k.late)
      ensures Calm(old(setbacks), old(k), old(active))
    {
      hide GuardCurrent, Later, WatchTarget, InWorkspace, OutsideSkipped, Settled;
      ghost var k0 := k;
      Interfere();
      GuardStaysCurrent(k0, k, lib, active);
      ghost var k1, before := k, |history| - 1;
      WatchDependency(lib, path);
      ghost var watching := history;
      LaterTransitive(k0, k1, k);
      ghost var k2, g2 := k, active;
      Interfere();
      LaterTransitive(k0, k2, k);
      GuardStaysCurrent(k2, k, lib, active);
      if Trusted(k, active) {
        TargetStays(k2, k, active, path);
      }
      if Settled(history[|old(history)| - 1..], path) {
        SettledWithin(watching, history, path, |old(history)| - 1, before);
      }
      value := Lookup(k.fs, path);
    }

    /** Other processes act while a walk is under way. */
    method InterfereWithWalk(ghost lib: Library, ghost dir: Path)
      requires Tracks() && Walking(k, lib, active, dir)
      modifies `k, `history, `setbacks
      ensures Tracks() && old(history) <= history
      ensures WalkStep(old(k), k, active, active) && Walking(k, lib, active, dir)
      ensures Calm(old(setbacks), old(k), active)
    {
      Interfere();
      WalkingStays(old(k), k, lib, active, active, dir);
    }

    /** On the first walk each directory is watched before it is listed. */
    method WatchWalkedDir(ghost lib: Library, dir: Path)
      requires Tracks() && Walking(k, lib, active, dir)
      modifies `k, `active, `setbacks
      ensures Tracks() && k.fs == old(k).fs
      ensures WalkStep(old(k), k, old(active), active) && Walking(k, lib, active, dir)
      ensures !active.registered && Trusted(k, active) ==> dir in k.watches[active.queue]
      ensures old(setbacks) <= setbacks && (IsDir(k.fs, dir) ==> Calm(old(setbacks), old(k), old(active)))
    {
      if active.registered {
        return;
      }
      AddWatch(dir);
      WalkingStays(old(k), k, lib, old(active), active, dir);
    }

    /** Walk one directory: watch it, list it, then visit each name. Fails when
        something vanished or is too deep. */
    method WalkDir(ghost lib: Library, dir: Path) returns (ok: bool, view: map<Path, Value>)
      requires Tracks() && Walking(k, lib, active, dir) && |dir| <= MAX_PATH_DEPTH
      modifies `k, `history, `setbacks, `active
      ensures Tracks() && old(history) <= history
      ensures WalkStep(old(k), k, old(active), active) && Walking(k, lib, active, dir)
      ensures ok && Trusted(k, active) ==> DirWalked(k, active, dir, view)
      ensures old(setbacks) <= setbacks
      ensures IsDir(old(k.fs), dir) ==> Calm(old(setbacks), old(k), old(active)) && (setbacks == old(setbacks) ==> ok)
      decreases MAX_PATH_DEPTH - |dir|
    {
      hide GuardCurrent, Later, PartWalked, DirWalked;
      ghost var k0, g0 := k, active;
      InterfereWithWalk(lib, dir);
      ghost var k1 := k;
      WatchWalkedDir(lib, dir);
      WalkStepTransitive(k0, k1, k, g0, g0, active);
      ghost var k2, g2 := k, active;
      InterfereWithWalk(lib, dir);
      WalkStepTransitive(k0, k2, k, g0, g2, active);
      if !IsDir(k.fs, dir) {
        return false, map[];
      }
      var names := Names(k.fs, dir);
      ghost var k3, g3 := k, active;
      if Trusted(k, active) {
        ListingStarts(k2, k, lib, active, dir);
      }
      ok, view := WalkNames(lib, dir, names, map[dir := Listing(names)]);
      WalkStepTransitive(k0, k3, k, g0, g3, active);
    }

    method WalkNames(ghost lib: Library, dir: Path, names: set<Name>, listing: map<Path, Value>)
      returns (ok: bool, view: map<Path, Value>)
      requires Tracks() && Walking(k, lib, active, dir) && |dir| <= MAX_PATH_DEPTH
      requires Trusted(k, active) ==> PartWalked(k, active, dir, names, {}, listing)
      modifies `k, `history, `setbacks, `active
      ensures Tracks() && old(history) <= history
      ensures WalkStep(old(k), k, old(active), active) && Walking(k, lib, active, dir)
      ensures ok && Trusted(k, active) ==> DirWalked(k, active, dir, view)
      ensures old(setbacks) <= setbacks
      ensures names == Names(old(k.fs), dir) ==>
                Calm(old(setbacks), old(k), old(active)) && (setbacks == old(setbacks) ==> ok)
      decreases MAX_PATH_DEPTH - |dir|, 0
    {
      hide GuardCurrent, Later, PartWalked, DirWalked;
      ok, view := true, listing;
      WalkStepReflexive(k, active);
      var rest := names;
      ghost var done: set<Name> := {};
      while rest != {}
        invariant done + rest == names
        invariant Tracks() && old(history) <= history
        invariant WalkStep(old(k), k, old(active), active) && Walking(k, lib, active, dir)
        invariant ok && Trusted(k, active) ==> PartWalked(k, active, dir, names, done, view)
        invariant old(setbacks) <= setbacks
        invariant names == Names(old(k.fs), dir) ==>
                    Calm(old(setbacks), old(k), old(active)) && (setbacks == old(setbacks) ==> ok)
        decreases rest
      {
        var n :| n in rest;
        ghost var k0, g0 := k, active;
        ok, view := WalkChild(lib, dir, names, n, ok, view, done);
        WalkStepTransitive(old(k), k0, k, old(active), g0, active);
        done := done + {n};
        rest := rest - {n};
      }
      if ok && Trusted(k, active) {
        AllNamesWalked(k, active, dir, names, view);
      }
    }

    /** Visit one name: a file is read, a directory walked unless skipped. */
    method WalkChild(ghost lib: Library, dir: Path, ghost names: set<Name>, n: Name, soFar: bool,
                     part: map<Path, Value>, ghost done: set<Name>)
      returns (ok: bool, view: map<Path, Value>)
      requires Tracks() && Walking(k, lib, active, dir) && |dir| <= MAX_PATH_DEPTH && n in names
      requires soFar && Trusted(k, active) ==> PartWalked(k, active, dir, names, done, part)
      modifies `k, `history, `setbacks, `active
      ensures Tracks() && old(history) <= history
      ensures WalkStep(old(k), k, old(active), active) && Walking(k, lib, active, dir)
      ensures ok && Trusted(k, active) ==> soFar && PartWalked(k, active, dir, names, done + {n}, view)
      ensures old(setbacks) <= setbacks
      ensures n in Names(old(k.fs), dir) ==>
                Calm(old(setbacks), old(k), old(active)) && (setbacks == old(setbacks) ==> ok == soFar)
      decreases MAX_PATH_DEPTH - |dir|, 0, 0
    {
      hide GuardCurrent, Later, PartWalked, DirWalked;
      ok, view := soFar, part;
      var child := dir + [n];
      ghost var k0 := k;
      InterfereWithWalk(lib, dir);
      if soFar && Trusted(k, active) {
        WalkStepTrusted(k0, k, active, active);
        PartWalkedStays(k0, k, active, active, dir, names, done, part);
      }
      NamesMember(k.fs, dir, n);
      var value := Lookup(k.fs, child);
      if value.Absent? {
        return false, view;
      }
      if value.Content? {
        view := view[child := value];
        if soFar && Trusted(k, active) {
          FileWalked(k, active, dir, names, done, part, n, value);
        }
        return;
      }
      if n in SKIPPED {
        if soFar && Trusted(k, active) {
          SkippedWalked(k, active, dir, names, done, part, n);
        }
        return;
      }
      if |child| > MAX_PATH_DEPTH {
        setbacks := setbacks + 1;
        return false, view;
      }
      WalkingBelow(k, lib, active, dir, n);
      ghost var k1, g1 := k, active;
      var good, below := WalkDir(lib, child);
      WalkStepTransitive(k0, k1, k, g1, g1, active);
      WalkingStays(k1, k, lib, g1, active, dir);
      ok, view := ok && good, view + below;
      if ok && Trusted(k, active) {
        WalkStepTrusted(k1, k, g1, active);
        PartWalkedStays(k1, k, g1, active, dir, names, done, part);
        DirJoinsWalk(k, active, dir, names, done, part, n, below);
      }
    }

    /** Walk the workspace; from then on the guard relies on its watches. */
    method WalkWorkspace(ghost lib: Library) returns (r: Option<map<Path, Value>>)
      requires Tracks() && GuardCurrent(k, lib, active) && |active.root| <= MAX_PATH_DEPTH
      modifies `k, `history, `setbacks, `active
      ensures Tracks() && Later(old(k), k) && old(history) <= history
      ensures Continues(old(active), active)
      ensures r.Some? ==> GuardCurrent(k, lib, active)
      ensures r.Some? && Trusted(k, active) ==> Sees(k, active, Scan, SawView(r.value))
      ensures old(setbacks) <= setbacks
      ensures IsDir(old(k.fs), active.root) ==>
                Calm(old(setbacks), old(k), old(active)) && (setbacks == old(setbacks) ==> r.Some?)
    {
      assert active.registered && Trusted(k, active) ==> Reached(k.fs, active.root, active.root);
      var ok, view := WalkDir(lib, active.root);
      active := active.(registered := active.complete);
      r := if ok then Some(view) else None;
    }

    /** One fingerprint computation on the live file system. If the guard is
        clean when it ends, the value is the one computed afresh right then. */
    method RunProbe(ghost lib: Library, t: Probe, seen: seq<Seen>) returns (r: Option<string>)
      requires Tracks() && GuardCurrent(k, lib, active) && Coverable(active.root, t)
      requires |active.root| <= MAX_PATH_DEPTH
      modifies `k, `history, `setbacks, `active
      ensures Tracks() && Later(old(k), k) && old(history) <= history
      ensures Continues(old(active), active)
      ensures r.Some? ==> GuardCurrent(k, lib, active) && ProvenIfTrusted(k, active, t, r.value, seen)
      ensures old(setbacks) <= setbacks
      ensures Trusted(old(k), old(active)) && EvalProbe(old(k.fs), active.root, t, seen).Some? ==>
                Calm(old(setbacks), old(k), old(active)) && (setbacks == old(setbacks) ==> r.Some?)
      decreases t.steps - |seen|
    {
      if |seen| > t.steps {
        return None;
      }
      var step := t.next(seen);
      var saw;
      if step.Fail? {
        return None;
      } else if step.Done? {
        return Some(step.value);
      } else if step.Read? {
        var value := ReadPath(lib, step.path);
        saw := SawPath(value);
      } else {
        var view := WalkWorkspace(lib);
        if view.None? {
          return None;
        }
        saw := SawView(view.value);
      }
      ghost var k1, g1 := k, active;
      r := RunProbe(lib, t, seen + [saw]);
      LaterTransitive(old(k), k1, k);
      if r.Some? {
        SawThenProven(k1, k, g1, active, t, r.value, seen, saw);
      }
    }

    /** A remembered fingerprint, or a fresh one that is then remembered. */
    method Remembered(ghost lib: Library, id: MemoId, args: Args, probe: Probe) returns (r: Option<string>)
      requires Tracks() && GuardCurrent(k, lib, active) && Coverable(active.root, probe)
      requires |active.root| <= MAX_PATH_DEPTH && probe == lib.probes(id, args)
      modifies `k, `history, `setbacks, `active
      ensures Tracks() && Later(old(k), k) && old(history) <= history
      ensures Continues(old(active), active)
      ensures r.Some? ==> GuardCurrent(k, lib, active) && ProvenIfTrusted(k, active, probe, r.value, [])
      ensures old(setbacks) <= setbacks
      ensures Trusted(old(k), old(active)) && EvalProbe(old(k.fs), active.root, probe).Some? ==>
                Calm(old(setbacks), old(k), old(active)) && (setbacks == old(setbacks) ==> r.Some?)
    {
      if id in active.memos && active.memos[id].args == args {
        MemoIsProven(k, lib, active, id);
        return Some(active.memos[id].value);
      }
      r := RunProbe(lib, probe, []);
      if r.Some? && (id != Workspace || active.complete) {
        MemoJoinsGuard(k, lib, active, id, Memo(args, r.value));
        active := active.(memos := active.memos[id := Memo(args, r.value)]);
      }
    }

    /** The epoch computation of one command with the active guard's memory. */
    method RunPlan(ghost lib: Library, probes: (MemoId, Args) -> Probe, t: Plan, heard: seq<string>)
      returns (r: Option<string>)
      requires Tracks() && GuardCurrent(k, lib, active) && PlanCoverable(active.root, lib, t)
      requires |active.root| <= MAX_PATH_DEPTH && probes == lib.probes
      modifies `k, `history, `setbacks, `active
      ensures Tracks() && Later(old(k), k) && old(history) <= history
      ensures Continues(old(active), active)
      ensures r.Some? ==>
                GuardCurrent(k, lib, active) && PlanProvenIfTrusted(k, active, lib, t, r.value, heard)
      ensures old(setbacks) <= setbacks
      ensures Trusted(old(k), old(active)) && EvalPlan(old(k.fs), active.root, lib, t, heard).Some? ==>
                Calm(old(setbacks), old(k), old(active)) && (setbacks == old(setbacks) ==> r.Some?)
      decreases t.asks - |heard|
    {
      if |heard| > t.asks {
        return None;
      }
      var step := t.next(heard);
      if step.Abort? {
        return None;
      } else if step.Give? {
        return Some(step.epoch);
      }
      var probe := if step.Ask? then probes(step.id, step.args) else step.probe;
      var answer;
      if step.Ask? {
        answer := Remembered(lib, step.id, step.args, probe);
      } else {
        answer := RunProbe(lib, probe, []);
      }
      if answer.None? {
        return None;
      }
      ghost var k1, g1 := k, active;
      r := RunPlan(lib, probes, t, heard + [answer.value]);
      LaterTransitive(old(k), k1, k);
      if r.Some? {
        AnswerThenProven(k1, k, g1, active, lib, t, r.value, heard, probe, answer.value);
      }
    }

    /** Empty the guard's report queue; clean when it was empty already. A failed
        read counts as a report. */
    method DrainClean(g: Guard) returns (clean: bool, failed: bool)
      requires Tracks()
      modifies `k, `setbacks
      ensures Tracks() && k == old(k).(dirty := k.dirty) && k.dirty - {g.queue} == old(k).dirty - {g.queue}
      ensures old(setbacks) <= setbacks && (failed ==> setbacks > old(setbacks))
      ensures clean <==> !failed && Clean(old(k), g)
      ensures clean ==> k == old(k)
      ensures g.complete && !failed ==> g.queue !in k.dirty
    {
      failed := *;
      setbacks := if failed then setbacks + 1 else setbacks;
      if !g.complete || failed {
        return false, failed;
      }
      clean := g.queue !in k.dirty;
      k := k.(dirty := k.dirty - {g.queue});
      if clean {
        assert k.dirty == old(k).dirty;
      }
    }

    lemma OneWorld(i: nat)
      requires Valid() && i < WORLD_SLOTS && worlds[i].occupied
      ensures forall j :: 0 <= j < WORLD_SLOTS && j != i && worlds[j].occupied ==> worlds[j].root != worlds[i].root
    {
      forall j | 0 <= j < WORLD_SLOTS && j != i && worlds[j].occupied
        ensures worlds[j].root != worlds[i].root
      {
        assert worlds[..][j] == worlds[j] && worlds[..][i] == worlds[i];
      }
    }

    method DropWorld(i: nat)
      requires Valid() && i < WORLD_SLOTS
      modifies `k, worlds
      ensures Valid() && k.fs == old(k).fs
      ensures worlds[..] == old(worlds[..])[i := EMPTY_WORLD]
    {
      if worlds[i].guard.Some? {
        DroppedWorld(k, libs, worlds[..], i);
        CloseQueue(worlds[i].guard.value.queue);
      }
      worlds[i] := EMPTY_WORLD;
    }

    /** Nothing the world covers changed; else it is dropped. */
    method CheckWorld(i: nat) returns (clean: bool)
      requires Valid() && i < WORLD_SLOTS && worlds[i].occupied
      modifies `k, `history, `setbacks, worlds
      ensures Valid() && old(history) <= history && old(setbacks) <= setbacks
      ensures worlds[..] == if clean then old(worlds[..]) else old(worlds[..])[i := EMPTY_WORLD]
      ensures clean ==> worlds[i].guard.Some? && Clean(k, worlds[i].guard.value)
      ensures setbacks == old(setbacks) ==> k.fs == old(k.fs)
      ensures setbacks == old(setbacks) && clean ==> k.late == old(k.late) && k.moved == old(k.moved)
    {
      assert WorldCurrent(k, libs, worlds[..][i]);
      ghost var k0 := k;
      Interfere();
      WorldsStayCurrent(k0, k, libs, worlds[..]);
      ghost var k1 := k;
      var drained, _ := DrainClean(worlds[i].guard.value);
      clean := drained;
      if !clean {
        DroppedWorld(k1, libs, worlds[..], i);
        CloseQueue(worlds[i].guard.value.queue);
        worlds[i] := EMPTY_WORLD;
      }
    }

    /** The world of this root, if its environment is the same and nothing it
        covers changed; a world that fails either test is dropped. */
    method FindWorld(root: Path, environment: string) returns (found: Option<nat>)
      requires Valid()
      modifies `k, `history, `setbacks, worlds
      ensures Valid() && old(history) <= history && old(setbacks) <= setbacks
      ensures found.None? ==> RootFree(worlds[..], root)
      ensures found.Some? ==>
                && found.value < WORLD_SLOTS
                && worlds[found.value].occupied
                && worlds[found.value].root == root
                && worlds[found.value].environment == environment
                && worlds[found.value].guard.Some?
                && Clean(k, worlds[found.value].guard.value)
      ensures setbacks == old(setbacks) ==> k.fs == old(k.fs)
      ensures found.Some? && setbacks == old(setbacks) ==>
                worlds[..] == old(worlds[..]) && k.late == old(k.late) && k.moved == old(k.moved)
    {
      for i := 0 to WORLD_SLOTS
        invariant Valid() && history == old(history) && k == old(k) && setbacks == old(setbacks)
        invariant worlds[..] == old(worlds[..])
        invariant forall j :: 0 <= j < i ==> !(worlds[j].occupied && worlds[j].root == root)
      {
        if !worlds[i].occupied || worlds[i].root != root {
          continue;
        }
        OneWorld(i);
        if worlds[i].environment != environment {
          DropWorld(i);
          return None;
        }
        var clean := CheckWorld(i);
        return if clean then Some(i) else None;
      }
      return None;
    }

    /** The slot of a command key, if the key is stored. */
    method FindCommand(commands: seq<Command>, key: string) returns (found: Option<nat>)
      ensures found.Some? ==>
                found.value < |commands| && commands[found.value].occupied && commands[found.value].key == key
      ensures found.None? ==> KeyFree(commands, key)
    {
      for i := 0 to |commands|
        invariant forall j :: 0 <= j < i ==> !(commands[j].occupied && commands[j].key == key)
      {
        if commands[i].occupied && commands[i].key == key {
          return Some(i);
        }
      }
      return None;
    }

    /** Store an epoch in a free slot, or else over the least recently used one. */
    method StoreCommand(commands: seq<Command>, key: string, epoch: string)
      returns (stored: seq<Command>, selected: nat)
      requires |commands| == COMMAND_SLOTS
      modifies `clock
      ensures clock == old(clock) + 1
      ensures selected < |commands| && stored == commands[selected := Command(true, key, epoch, clock)]
      ensures commands[selected].occupied ==> forall j :: 0 <= j < |commands| ==>
                commands[j].occupied && commands[selected].lastUsed <= commands[j].lastUsed
    {
      selected := 0;
      var i := 0;
      while i < |commands| && commands[i].occupied
        invariant 0 <= i <= |commands| && 0 <= selected < |commands|
        invariant forall j :: 0 <= j < i ==>
                    commands[j].occupied && commands[selected].lastUsed <= commands[j].lastUsed
        invariant selected < i || selected == i == 0
      {
        if commands[i].lastUsed < commands[selected].lastUsed {
          selected := i;
        }
        i := i + 1;
      }
      if i < |commands| {
        selected := i;
      }
      clock := clock + 1;
      stored := commands[selected := Command(true, key, epoch, clock)];
    }

    /** The slot for a new world: a free one, else the least recently used. */
    method SelectWorld() returns (selected: nat)
      requires worlds.Length == WORLD_SLOTS
      ensures selected < WORLD_SLOTS
      ensures worlds[selected].occupied ==> forall j :: 0 <= j < WORLD_SLOTS ==>
                worlds[j].occupied && worlds[selected].lastUsed <= worlds[j].lastUsed
    {
      selected := 0;
      var i := 0;
      while i < worlds.Length && worlds[i].occupied
        invariant 0 <= i <= worlds.Length && 0 <= selected < worlds.Length
        invariant forall j :: 0 <= j < i ==> worlds[j].occupied && worlds[selected].lastUsed <= worlds[j].lastUsed
        invariant selected < i || selected == i == 0
      {
        if worlds[i].lastUsed < worlds[selected].lastUsed {
          selected := i;
        }
        i := i + 1;
      }
      if i < worlds.Length {
        selected := i;
      }
    }

    /** Note the use of a stored epoch. */
    method TouchCommand(i: nat, c: nat)
      requires Valid() && i < WORLD_SLOTS && worlds[i].occupied && c < |worlds[i].commands|
      modifies `clock, worlds
      ensures Valid() && clock == old(clock) + 1
      ensures worlds[..] == old(worlds[..])[i := old(worlds[i]).(
                commands := old(worlds[i]).commands[c := old(worlds[i]).commands[c].(lastUsed := clock)])]
    {
      var world := worlds[i];
      assert WorldCurrent(k, libs, worlds[..][i]);
      clock := clock + 1;
      var touched := world.commands[c := world.commands[c].(lastUsed := clock)];
      CommandTouched(k, libs, world, c, clock);
      ReplacedWorld(k, libs, worlds[..], i, world.(commands := touched));
      worlds[i] := world.(commands := touched);
    }

    /** A computation on this tree gives an epoch. */
    ghost predicate EpochThere(fs: Tree, root: Path, environment: string, key: string) {
      EvalPlan(fs, root, libs(root, environment), libs(root, environment).plans(key)).Some?
    }

    /** Answer from a clean world: a stored epoch at once, a new one after a
        computation and another clean drain. */
    method AnswerFrom(i: nat, key: string) returns (r: Option<string>)
      requires Valid() && i < WORLD_SLOTS && worlds[i].occupied && worlds[i].guard.Some?
      requires Clean(k, worlds[i].guard.value) && |worlds[i].root| <= MAX_PATH_DEPTH
      modifies `k, `history, `setbacks, `active, `clock, worlds
      ensures Valid() && old(history) <= history
      ensures r.Some? && Reliable(k, worlds[i]) ==>
                FreshEpoch(k.fs, libs, old(worlds[i].root), old(worlds[i].environment), key, r.value)
      ensures r.Some? ==> StoredIn(worlds[i], old(worlds[i].root), old(worlds[i].environment), key, r.value)
      ensures r.None? ==>
                && !worlds[i].occupied
                && forall j :: 0 <= j < WORLD_SLOTS && j != i ==> worlds[j] == old(worlds[j])
      ensures forall epoch :: old(StoredIn(worlds[i], worlds[i].root, worlds[i].environment, key, epoch)) ==>
                r == Some(epoch) && k == old(k)
      ensures old(setbacks) <= setbacks
      ensures old(Reliable(k, worlds[i])) && setbacks == old(setbacks) &&
                old(EpochThere(k.fs, worlds[i].root, worlds[i].environment, key)) ==>
                r.Some?
    {
      assert WorldCurrent(k, libs, worlds[..][i]);
      clock := clock + 1;
      ReplacedWorld(k, libs, worlds[..], i, worlds[i].(lastUsed := clock));
      worlds[i] := worlds[i].(lastUsed := clock);
      var commands := worlds[i].commands;
      var command := FindCommand(commands, key);
      if command.Some? {
        assert commands[command.value] in commands;
        TouchCommand(i, command.value);
        assert worlds[i].commands[command.value].epoch == commands[command.value].epoch;
        return Some(commands[command.value].epoch);
      }
      r := ComputeFrom(i, key);
    }

    /** Store a finished computation in its world, with the guard it extended. */
    method KeepCommand(i: nat, key: string, epoch: string)
      requires Valid() && i < WORLD_SLOTS && worlds[i].occupied && worlds[i].guard.Some?
      requires KeyFree(worlds[i].commands, key) && Continues(worlds[i].guard.value, active)
      requires GuardCurrent(k, libs(worlds[i].root, worlds[i].environment), active)
      requires PlanProvenIfTrusted(k, active, libs(worlds[i].root, worlds[i].environment),
                                 libs(worlds[i].root, worlds[i].environment).plans(key), epoch, [])
      modifies `clock, worlds
      ensures Valid() && StoredIn(worlds[i], old(worlds[i].root), old(worlds[i].environment), key, epoch)
      ensures worlds[i].guard == Some(active)
    {
      var world := worlds[i];
      assert WorldCurrent(k, libs, worlds[..][i]);
      var stored, slot := StoreCommand(world.commands, key, epoch);
      CommandStored(k, libs(world.root, world.environment), world.guard.value, active, world.commands, stored, key,
                    epoch, clock, slot);
      ReplacedWorld(k, libs, worlds[..], i, world.(commands := stored, guard := Some(active)));
      worlds[i] := world.(commands := stored, guard := Some(active));
      assert worlds[i].commands[slot].key == key;
    }

    /** The drain after a computation, with others acting in between: a clean one
        proves the epoch. `before` is the state it found. */
    method DrainAfter(ghost k0: Kernel, ghost lib: Library, ghost plan: Plan, epoch: Option<string>)
      returns (clean: bool, ghost before: Kernel)
      requires Tracks() && Later(k0, k) && WorldsCurrent(k0, libs, worlds[..])
      requires epoch.Some? ==>
                 GuardCurrent(k, lib, active) && PlanProvenIfTrusted(k, active, lib, plan, epoch.value, [])
      modifies `k, `history, `setbacks
      ensures Tracks() && old(history) <= history && WorldsCurrent(before, libs, worlds[..])
      ensures k == before.(dirty := k.dirty) && k.dirty - {active.queue} == before.dirty - {active.queue}
      ensures Later(k0, before) && before.watches.Keys == old(k.watches.Keys)
      ensures clean ==>
                && epoch.Some? && k == before && Clean(k, active) && GuardCurrent(k, lib, active)
                && PlanProvenIfTrusted(k, active, lib, plan, epoch.value, [])
      ensures old(setbacks) <= setbacks
      ensures setbacks == old(setbacks) && epoch.Some? && Trusted(old(k), active) ==> clean
    {
      hide Later, GuardCurrent, WorldsCurrent;
      ghost var k1 := k;
      Interfere();
      LaterTransitive(k0, k1, k);
      WorldsStayCurrent(k0, k, libs, worlds[..]);
      before := k;
      clean := false;
      if epoch.Some? {
        EpochStaysProven(k1, k, lib, active, plan, epoch.value);
        var drained, _ := DrainClean(active);
        clean := drained;
      }
    }

    /** Compute an epoch with the memory of a world and drain its queue. */
    method RunUnder(world: World, key: string) returns (r: Option<string>, ghost before: Kernel)
      requires Valid() && world in worlds[..] && world.occupied && world.guard.Some?
      requires |world.root| <= MAX_PATH_DEPTH
      modifies `k, `history, `setbacks, `active
      ensures Tracks() && old(history) <= history && WorldsCurrent(before, libs, worlds[..])
      ensures k == before.(dirty := k.dirty) && k.dirty - {active.queue} == before.dirty - {active.queue}
      ensures Continues(world.guard.value, active) && before.watches.Keys == k.watches.Keys
      ensures r.Some? ==>
                && k == before && Clean(k, active) && GuardCurrent(k, libs(world.root, world.environment), active)
                && PlanProvenIfTrusted(k, active, libs(world.root, world.environment),
                                       libs(world.root, world.environment).plans(key), r.value, [])
      ensures old(setbacks) <= setbacks
      ensures old(Trusted(k, world.guard.value)) && setbacks == old(setbacks) &&
                EpochThere(old(k.fs), world.root, world.environment, key) ==>
                r.Some?
    {
      hide Later, RootFree, Separate;
      var i :| 0 <= i < worlds.Length && worlds[i] == world;
      assert WorldCurrent(k, libs, worlds[..][i]);
      var lib := libs(world.root, world.environment);
      active := world.guard.value;
      r := RunPlan(lib, lib.probes, lib.plans(key), []);
      var clean, k2 := DrainAfter(old(k), lib, lib.plans(key), r);
      before := k2;
      r := if clean then r else None;
    }

    /** Compute a new epoch under the memory of an existing world. */
    method ComputeFrom(i: nat, key: string) returns (r: Option<string>)
      requires Valid() && i < WORLD_SLOTS && worlds[i].occupied && worlds[i].guard.Some?
      requires |worlds[i].root| <= MAX_PATH_DEPTH && KeyFree(worlds[i].commands, key)
      modifies `k, `history, `setbacks, `active, `clock, worlds
      ensures Valid() && old(history) <= history
      ensures r.Some? && Reliable(k, worlds[i]) ==>
                FreshEpoch(k.fs, libs, old(worlds[i].root), old(worlds[i].environment), key, r.value)
      ensures r.Some? ==> StoredIn(worlds[i], old(worlds[i].root), old(worlds[i].environment), key, r.value)
      ensures r.None? ==> worlds[..] == old(worlds[..])[i := EMPTY_WORLD]
      ensures old(setbacks) <= setbacks
      ensures old(Trusted(k, worlds[i].guard.value)) && setbacks == old(setbacks) &&
                old(EpochThere(k.fs, worlds[i].root, worlds[i].environment, key)) ==>
                r.Some?
    {
      hide StoredIn, Later, RootFree, KeyFree, Separate, EpochThere, GuardCurrent, CommandsCurrent;
      var world := worlds[i];
      assert worlds[..][i] == world;
      ghost var k2;
      r, k2 := RunUnder(world, key);
      if r.Some? {
        KeepCommand(i, key, r.value);
        return;
      }
      assert WorldCurrent(k2, libs, worlds[..][i]);
      DroppedWorld(k2, libs, worlds[..], i);
      CloseQueue(active.queue);
      worlds[i] := EMPTY_WORLD;
    }

    /** A new guard with an empty report queue and nothing remembered. */
    method StartGuard(root: Path, ghost lib: Library)
      requires Tracks()
      modifies `k, `nextQueue, `active
      ensures Tracks() && Later(old(k), k) && k.fs == old(k).fs
      ensures active.root == root && active.queue !in old(k).watches && GuardCurrent(k, lib, active)
      ensures Trusted(k, active)
    {
      var queue := OpenQueue();
      active := Guard(root, queue, true, false, map[], []);
    }

    /** Keep the finished computation as a world of its own. */
    method KeepWorld(ghost k0: Kernel, i: nat, root: Path, environment: string, key: string, epoch: string)
      requires Valid() && i < WORLD_SLOTS && !worlds[i].occupied && RootFree(worlds[..], root)
      requires WorldsCurrent(k0, libs, worlds[..]) && active.root == root && active.queue !in k0.watches
      requires GuardCurrent(k, libs(root, environment), active)
      requires PlanProvenIfTrusted(k, active, libs(root, environment), libs(root, environment).plans(key), epoch, [])
      modifies `clock, worlds
      ensures Valid() && StoredIn(worlds[i], root, environment, key, epoch) && worlds[i].guard == Some(active)
    {
      clock := clock + 1;
      var now := clock;
      var stored, slot := StoreCommand(NO_COMMANDS, key, epoch);
      var world := World(true, root, environment, stored, now, Some(active));
      NewWorld(k0, k, libs, worlds[..], i, world, slot, clock, key, epoch);
      worlds[i] := world;
      assert worlds[i].commands[slot].key == key;
    }

    /** One attempt to build a world in a free slot. */
    method BuildWorld(i: nat, root: Path, environment: string, key: string) returns (r: Option<string>)
      requires Valid() && i < WORLD_SLOTS && !worlds[i].occupied && RootFree(worlds[..], root)
      requires |root| <= MAX_PATH_DEPTH
      modifies `k, `history, `setbacks, `active, `clock, `nextQueue, worlds
      ensures Valid() && old(history) <= history && old(setbacks) <= setbacks
      ensures setbacks == old(setbacks) && EpochThere(old(k.fs), root, environment, key) ==> r.Some?
      ensures r.Some? && Reliable(k, worlds[i]) ==> FreshEpoch(k.fs, libs, root, environment, key, r.value)
      ensures r.Some? ==> StoredIn(worlds[i], root, environment, key, r.value)
      ensures r.None? ==> worlds[..] == old(worlds[..])
    {
      hide StoredIn, Later, RootFree, CommandsCurrent;
      ghost var k0 := k;
      var lib := libs(root, environment);
      StartGuard(root, lib);
      ghost var k1 := k;
      r := RunPlan(lib, lib.probes, lib.plans(key), []);
      LaterTransitive(k0, k1, k);
      var clean, k2 := DrainAfter(k0, lib, lib.plans(key), r);
      if clean {
        KeepWorld(k0, i, root, environment, key, r.value);
        return r;
      }
      UnusedQueue(k0, k2, libs, worlds[..], active.queue);
      CloseQueue(active.queue);
      return None;
    }

    /** The world of the root, if there is one, is reliable. */
    ghost predicate AllReliable(root: Path)
      reads `k, `worlds, worlds
    {
      forall i :: 0 <= i < worlds.Length && worlds[i].occupied && worlds[i].root == root ==> Reliable(k, worlds[i])
    }

    /** The epoch of one command: from the world of its root when that is clean,
        else from a world built anew, with one retry. An answer is the epoch a
        fresh computation gives on the file system as it was at one instant
        between the start and the end of the call. There is an answer if a
        computation gives one, nobody changes anything, nothing is refused or too
        large, and the world of the root, if there is one, is reliable. */
    method RepoWorldEpoch(root: Path, environment: string, key: string) returns (r: Option<string>)
      requires Valid() && |root| <= MAX_PATH_DEPTH
      modifies this, worlds
      ensures Valid() && old(history) <= history
      ensures r.Some? ==> exists w ::
                && 0 <= w < WORLD_SLOTS
                && StoredIn(worlds[w], root, environment, key, r.value)
                && (Reliable(k, worlds[w]) ==>
                      FreshSince(history[|old(history)| - 1..], libs, root, environment, key, r.value))
      ensures r.None? ==> RootFree(worlds[..], root)
      ensures setbacks == old(setbacks) && EpochThere(old(k.fs), root, environment, key) &&
                old(AllReliable(root)) ==>
                r.Some?
    {
      hide StoredIn;
      var found := FindWorld(root, environment);
      if found.Some? {
        OneWorld(found.value);
        assert worlds[..][found.value] == worlds[found.value];
        assert old(worlds[..])[found.value] == old(worlds[found.value]);
        r := AnswerFrom(found.value, key);
        assert history[|history| - 1] == k.fs;
        return;
      }
      var selected := SelectWorld();
      DropWorld(selected);
      for attempt := 0 to 2
        invariant Valid() && old(history) <= history && worlds == old(worlds)
        invariant !worlds[selected].occupied && RootFree(worlds[..], root)
        invariant old(setbacks) <= setbacks
        invariant setbacks == old(setbacks) && EpochThere(old(k.fs), root, environment, key) ==>
                    attempt == 0 && k.fs == old(k.fs)
      {
        var refused: bool := *;
        if refused {
          setbacks := setbacks + 1;
          break;
        }
        r := BuildWorld(selected, root, environment, key);
        if r.Some? {
          assert history[|history| - 1] == k.fs;
          return;
        }
      }
      r := None;
    }
  }

  /** The guard while the walk is at `dir`. */
  ghost predicate Walking(k: Kernel, lib: Library, g: Guard, dir: Path) {
    && GuardCurrent(k, lib, g)
    && g.queue in k.watches
    && g.root <= dir
    && (g.registered && Trusted(k, g) ==> Reached(k.fs, g.root, dir))
  }

  ghost predicate WalkStep(k: Kernel, k': Kernel, g: Guard, g': Guard) {
    && Later(k, k')
    && g' == g.(complete := g'.complete)
    && (g'.complete ==> g.complete)
  }

  /** The names of `dir` in `done` are walked and `view` holds what they show. */
  ghost predicate PartWalked(k: Kernel, g: Guard, dir: Path, names: set<Name>, done: set<Name>,
                             view: map<Path, Value>)
  {
    && g.queue in k.watches
    && Names(k.fs, dir) == names
    && WalkedNames(k.fs, k.watches[g.queue], dir, done)
    && view == PartView(k.fs, dir, done)
  }

  ghost predicate DirWalked(k: Kernel, g: Guard, dir: Path, view: map<Path, Value>) {
    && g.queue in k.watches
    && IsDir(k.fs, dir)
    && Walked(k.fs, k.watches[g.queue], dir)
    && view == View(k.fs, dir)
  }

  lemma WalkStepReflexive(k: Kernel, g: Guard)
    ensures WalkStep(k, k, g, g)
  {
  }

  lemma WalkStepTrusted(k: Kernel, k': Kernel, g: Guard, g': Guard)
    requires WalkStep(k, k', g, g') && g.queue in k.watches && Trusted(k', g')
    ensures Trusted(k, g)
  {
  }

  lemma WalkStepTransitive(k0: Kernel, k1: Kernel, k2: Kernel, g0: Guard, g1: Guard, g2: Guard)
    requires WalkStep(k0, k1, g0, g1) && WalkStep(k1, k2, g1, g2)
    ensures WalkStep(k0, k2, g0, g2)
  {
    LaterTransitive(k0, k1, k2);
  }

  lemma WalkingStays(k: Kernel, k': Kernel, lib: Library, g: Guard, g': Guard, dir: Path)
    requires WalkStep(k, k', g, g') && Walking(k, lib, g, dir)
    ensures Walking(k', lib, g', dir)
  {
    GuardStaysCurrent(k, k', lib, g);
    if Trusted(k', g') && g.registered {
      ViewDeterminesReached(k.fs, k'.fs, k.watches[g.queue], g.root);
    }
  }

  /** On a clean listing the directory is watched: just before, or since the
      workspace was registered. */
  lemma ListingStarts(k: Kernel, k': Kernel, lib: Library, g: Guard, dir: Path)
    requires WalkStep(k, k', g, g) && Walking(k, lib, g, dir) && Walking(k', lib, g, dir)
    requires Trusted(k', g) && IsDir(k'.fs, dir)
    requires Trusted(k, g) && !g.registered ==> dir in k.watches[g.queue]
    ensures PartWalked(k', g, dir, Names(k'.fs, dir), {}, map[dir := Listing(Names(k'.fs, dir))])
  {
    PartViewStarts(k'.fs, dir);
  }

  lemma PartWalkedStays(k: Kernel, k': Kernel, g: Guard, g': Guard, dir: Path, names: set<Name>, done: set<Name>,
                        view: map<Path, Value>)
    requires WalkStep(k, k', g, g') && Trusted(k', g') && PartWalked(k, g, dir, names, done, view)
    ensures PartWalked(k', g', dir, names, done, view)
  {
    WalkedNamesStay(k.fs, k'.fs, k.watches[g.queue], k'.watches[g.queue], dir, done);
  }

  lemma AllNamesWalked(k: Kernel, g: Guard, dir: Path, names: set<Name>, view: map<Path, Value>)
    requires PartWalked(k, g, dir, names, names, view)
    ensures DirWalked(k, g, dir, view)
  {
    PartViewComplete(k.fs, dir);
    WalkedParts(k.fs, k.watches[g.queue], dir);
  }

  lemma FileWalked(k: Kernel, g: Guard, dir: Path, names: set<Name>, done: set<Name>, view: map<Path, Value>, n: Name,
                   value: Value)
    requires PartWalked(k, g, dir, names, done, view) && n in names
    requires value.Content? && Lookup(k.fs, dir + [n]) == value
    ensures PartWalked(k, g, dir, names, done + {n}, view[dir + [n] := value])
  {
    FileJoinsView(k.fs, k.watches[g.queue], dir, done, n);
  }

  lemma SkippedWalked(k: Kernel, g: Guard, dir: Path, names: set<Name>, done: set<Name>, view: map<Path, Value>,
                      n: Name)
    requires PartWalked(k, g, dir, names, done, view) && n in names && Skips(k.fs, dir, n)
    ensures PartWalked(k, g, dir, names, done + {n}, view)
  {
    PartViewStep(k.fs, dir, done, n);
  }

  lemma DirJoinsWalk(k: Kernel, g: Guard, dir: Path, names: set<Name>, done: set<Name>, view: map<Path, Value>,
                     n: Name, below: map<Path, Value>)
    requires PartWalked(k, g, dir, names, done, view) && n in names && n !in SKIPPED
    requires DirWalked(k, g, dir + [n], below)
    ensures PartWalked(k, g, dir, names, done + {n}, view + below)
  {
    PartViewStep(k.fs, dir, done, n);
  }

  lemma WalkingBelow(k: Kernel, lib: Library, g: Guard, dir: Path, n: Name)
    requires Walking(k, lib, g, dir) && IsDir(k.fs, dir + [n]) && n !in SKIPPED
    ensures Walking(k, lib, g, dir + [n])
  {
    var child := dir + [n];
    if g.registered && Trusted(k, g) {
      assert Reached(k.fs, child, child);
      assert InDir(k.fs, child) && Parent(child) == dir;
      ReachedThrough(k.fs, dir, n, child);
      ReachedExtends(k.fs, g.root, dir, child);
    }
  }

  // ---- Runs that leave a stale epoch under a clean guard

  const DEEP: Path := ["a", "b", "c"]

  /** Says whether the deep path is there. */
  const LOOK := Probe(1, seen => if seen == [] then Read(DEEP)
                                 else Done(if seen[0] == SawPath(Absent) then "absent" else "present"))

  const LOOK_PLAN := Plan(1, heard => if heard == [] then Direct(LOOK) else Give(heard[0]))

  lemma LookGives(fs: Tree, root: Path, lib: Library)
    ensures EvalPlan(fs, root, lib, LOOK_PLAN) ==
            Some(if Lookup(fs, DEEP) == Absent then "absent" else "present")
  {
    hide Lookup;
    LookAnswers(fs, root);
    var heard := [if Lookup(fs, DEEP) == Absent then "absent" else "present"];
    assert [] + heard == heard && LOOK_PLAN.next(heard) == Give(heard[0]);
    assert EvalPlan(fs, root, lib, LOOK_PLAN, heard) == Some(heard[0]);
  }

  lemma LookAnswers(fs: Tree, root: Path)
    ensures EvalProbe(fs, root, LOOK) == Some(if Lookup(fs, DEEP) == Absent then "absent" else "present")
  {
    hide Lookup;
    var seen := [SawPath(Lookup(fs, DEEP))];
    assert [] + seen == seen && LOOK.next(seen).Done?;
    assert EvalProbe(fs, root, LOOK, seen) == Some(LOOK.next(seen).value);
  }

  /** A world whose guard watches one directory and which stores one epoch. */
  ghost predicate Stores(w: World, watched: Path, key: string, epoch: string) {
    && w.occupied && w.guard == Some(Guard(w.root, 0, true, false, map[], [watched]))
    && |w.commands| == COMMAND_SLOTS
    && w.commands[0].occupied && w.commands[0].key == key && w.commands[0].epoch == epoch
    && forall i :: 0 < i < COMMAND_SLOTS ==> !w.commands[i].occupied
  }

  /** The world meets the invariant and its queue is clean, so it answers with the
      epoch it holds, which is not what a computation now gives. */
  ghost predicate StaleHit(k: Kernel, libs: (Path, string) -> Library, w: World, key: string, epoch: string) {
    && WorldCurrent(k, libs, w) && w.guard.Some? && Clean(k, w.guard.value)
    && StoredIn(w, w.root, w.environment, key, epoch)
    && !FreshEpoch(k.fs, libs, w.root, w.environment, key, epoch)
  }

  lemma StoredIsStale(k: Kernel, libs: (Path, string) -> Library, w: World, watched: Path, key: string, epoch: string)
    requires 0 in k.watches && 0 !in k.dirty && (0 in k.late || 0 in k.moved)
    requires Stores(w, watched, key, epoch) && libs(w.root, w.environment).plans(key) == LOOK_PLAN
    requires epoch != if Lookup(k.fs, DEEP) == Absent then "absent" else "present"
    ensures StaleHit(k, libs, w, key, epoch)
  {
    hide EvalPlan, Lookup;
    LookGives(k.fs, w.root, libs(w.root, w.environment));
  }

  /** An empty report queue on a tree with only the directory a. */
  function OneDir(): Kernel {
    Change(Kernel(map[[] := Dir], map[0 := {}], {}, {}, {}), MkDir(["a"]))
  }

  function TwoDirs(): Kernel {
    Change(OneDir(), MkDir(["a", "b"]))
  }

  /** The directory b appears after a was chosen, and then a is watched. */
  function WatchedLate(): Kernel {
    TwoDirs().(watches := map[0 := {["a"]}], late := {0})
  }

  function DeepAppears(): Kernel {
    Change(WatchedLate(), Put(DEEP, "x", 0))
  }

  lemma LateTrees()
    ensures OneDir().fs == map[[] := Dir, ["a"] := Dir] && OneDir().dirty == {}
    ensures TwoDirs().fs == map[[] := Dir, ["a"] := Dir, ["a", "b"] := Dir] && TwoDirs().dirty == {}
    ensures TwoDirs().late == TwoDirs().moved == {}
    ensures Lookup(TwoDirs().fs, DEEP) == Absent && Applicable(TwoDirs().fs, Put(DEEP, "x", 0))
  {
    assert Parent(["a"]) == [] && Parent(["a", "b"]) == ["a"] && Parent(DEEP) == ["a", "b"];
  }

  lemma LateTargets()
    ensures WatchTarget(OneDir().fs, DEEP) == ["a"] && WatchTarget(WatchedLate().fs, DEEP) == ["a", "b"]
  {
    hide OneDir, TwoDirs;
    LateTrees();
    assert DEEP[..1] == ["a"] && DEEP[..2] == ["a", "b"];
  }

  lemma LateChange()
    ensures 0 in DeepAppears().watches && 0 !in DeepAppears().dirty && 0 in DeepAppears().late
    ensures Lookup(DeepAppears().fs, DEEP) == Content("x", 0)
  {
    hide OneDir, TwoDirs, Applicable;
    LateTrees();
    assert Parent(DEEP) == ["a", "b"];
  }

  /** A directory that appears between the choice and the registration leaves the
      guard clean and the epoch stale: the read finds nothing, the file appears
      below the unwatched directory, and no report comes. */
  lemma LateWatchMisread(libs: (Path, string) -> Library, w: World, key: string)
    requires Stores(w, ["a"], key, "absent") && libs(w.root, w.environment).plans(key) == LOOK_PLAN
    ensures WatchTarget(OneDir().fs, DEEP) == ["a"] && WatchTarget(WatchedLate().fs, DEEP) == ["a", "b"]
    ensures FreshEpoch(WatchedLate().fs, libs, w.root, w.environment, key, "absent")
    ensures StaleHit(DeepAppears(), libs, w, key, "absent")
  {
    hide OneDir, TwoDirs, DeepAppears, WatchTarget, Lookup, EvalPlan, StaleHit, Stores;
    LateTrees();
    LateTargets();
    LateChange();
    LookGives(WatchedLate().fs, w.root, libs(w.root, w.environment));
    StoredIsStale(DeepAppears(), libs, w, ["a"], key, "absent");
  }

  /** The file is there and its directory watched, in time. */
  function Watched(): Kernel {
    Change(TwoDirs(), Put(DEEP, "x", 0)).(watches := map[0 := {["a", "b"]}])
  }

  const RENAME := Move(["a"], ["d"], 1)

  /** The directory above is renamed. */
  function Renamed(): Kernel {
    Change(Watched(), RENAME)
  }

  lemma WatchedTree()
    ensures Watched().fs == map[[] := Dir, ["a"] := Dir, ["a", "b"] := Dir, DEEP := File("x", 0)]
    ensures Watched().dirty == {} && Watched().late == {} && Lookup(Watched().fs, DEEP) == Content("x", 0)
  {
    hide TwoDirs, Applicable;
    LateTrees();
    QueueUnused();
    assert Parent(DEEP) == ["a", "b"];
  }

  lemma QueueUnused()
    ensures TwoDirs().watches == map[0 := {}]
  {
  }

  lemma RenameApplies()
    ensures Applicable(Watched().fs, RENAME) && Unreported(RENAME, {["a", "b"]}) && Displaces(RENAME, ["a", "b"])
  {
    hide Watched;
    WatchedTree();
    assert Parent(["a"]) == [] && Parent(["d"]) == [];
    assert "a"[0] != "d"[0];
    assert ["a"][0] != ["d"][0];
  }

  lemma RenameHides()
    ensures WatchTarget(Watched().fs, DEEP) == ["a", "b"]
    ensures 0 in Renamed().watches && 0 !in Renamed().dirty && 0 in Renamed().moved
    ensures Lookup(Renamed().fs, DEEP) == Absent
  {
    hide Apply, Applicable, Displaces, WatchTarget;
    WatchedTree();
    RenameApplies();
    assert DEEP[..2] == ["a", "b"];
    OnlyDirAbove(Watched().fs, DEEP, ["a", "b"]);
    RenameLeaves(Watched().fs, RENAME, DEEP);
  }

  /** A rename of a directory above the watched one leaves the guard clean and
      the epoch stale, although the watch was in time. */
  lemma RenameMisread(libs: (Path, string) -> Library, w: World, key: string)
    requires Stores(w, ["a", "b"], key, "present") && libs(w.root, w.environment).plans(key) == LOOK_PLAN
    ensures WatchTarget(Watched().fs, DEEP) in Watched().watches[0] && Watched().late == {}
    ensures FreshEpoch(Watched().fs, libs, w.root, w.environment, key, "present")
    ensures StaleHit(Renamed(), libs, w, key, "present")
  {
    hide Renamed, EvalPlan, StaleHit, Stores;
    RenameHides();
    assert Lookup(Watched().fs, DEEP) == Content("x", 0);
    LookGives(Watched().fs, w.root, libs(w.root, w.environment));
    StoredIsStale(Renamed(), libs, w, ["a", "b"], key, "present");
  }

  /** The same guard, further along one computation. */
  ghost predicate Continues(g: Guard, g': Guard) {
    && g'.root == g.root
    && g'.queue == g.queue
    && (g'.complete ==> g.complete)
  }
}
