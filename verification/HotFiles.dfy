/** Single files kept in memory while their directory reports no change: the
    same guard as for repositories, over one path, and a second look at the
    file's state before every answer. */
module HotFiles {
  import opened Wrappers
  import opened FileTree
  import opened ChangeGuard

  const HOT_FILE_SLOTS := 64
  const MAX_WARM_FILE_BYTES := 256 * 1024

  datatype Entry = Entry(occupied: bool, path: Path, content: string, stamp: nat, queue: nat, lastUsed: nat)

  const NO_ENTRY := Entry(false, [], "", 0, 0, 0)

  // ---- Stamps: every write gives a file a state it never had before

  predicate Stamped(op: Op, stamp: nat) {
    op.Put? || op.Move? ==> op.stamp == stamp
  }

  function WithStamp(op: Op, stamp: nat): (stamped: Op)
    ensures Stamped(stamped, stamp)
  {
    if op.Put? || op.Move? then op.(stamp := stamp) else op
  }

  /** What the file holds that the change gives a new stamp. */
  function Written(fs: Tree, op: Op): string {
    if op.Put? then op.data
    else if op.Move? && op.path in fs && fs[op.path].File? then fs[op.path].data
    else ""
  }

  /** The change renames a directory: what lies below keeps its stamp. */
  predicate RenamesDir(fs: Tree, op: Op) {
    Applicable(fs, op) && op.Move? && IsDir(fs, op.path)
  }

  /** `log` tells what was written under each stamp. */
  ghost predicate Logged(fs: Tree, log: seq<string>) {
    forall p :: p in fs && fs[p].File? ==> fs[p].stamp < |log| && log[fs[p].stamp] == fs[p].data
  }

  /** No file with this stamp is there. */
  ghost predicate Lost(fs: Tree, p: Path, stamp: nat) {
    p in fs && fs[p].File? ==> fs[p].stamp != stamp
  }

  lemma StampedChange(fs: Tree, op: Op, log: seq<string>)
    requires Applicable(fs, op) && Stamped(op, |log|) && Logged(fs, log)
    ensures Logged(Apply(fs, op), log + [Written(fs, op)])
  {
    hide Applicable, Names, MovedPaths, WellFormed;
    var fs' := Apply(fs, op);
    forall p | p in fs' && fs'[p].File?
      ensures fs'[p].stamp <= |log| && (log + [Written(fs, op)])[fs'[p].stamp] == fs'[p].data
    {
      if op.Move? && op.to <= p {
        assert op.path + p[|op.to|..] in fs;
        assert p == op.to ==> op.path + p[|op.to|..] == op.path;
      }
    }
  }

  lemma LostStays(fs: Tree, op: Op, log: seq<string>, p: Path, stamp: nat)
    requires Applicable(fs, op) && Stamped(op, |log|) && !RenamesDir(fs, op)
    requires stamp < |log| && Lost(fs, p, stamp)
    ensures Lost(Apply(fs, op), p, stamp)
  {
    hide Names, MovedPaths, WellFormed;
    if op.Move? && op.to < p {
      NothingBelow(fs, Relocate(op.to, op.path, p), |op.path|);
    }
  }

  /** One state of the world can follow another: the watches as in Later, and no
      stamp comes back unless a directory is renamed. */
  ghost predicate Onward(k: Kernel, log: seq<string>, renames: nat, k': Kernel, log': seq<string>, renames': nat) {
    && Later(k, k') && k'.watches.Keys == k.watches.Keys && k'.late == k.late && k.moved <= k'.moved
    && log <= log' && renames <= renames'
    && (renames' == renames ==>
          forall p, stamp: nat :: stamp < |log| && Lost(k.fs, p, stamp) ==> Lost(k'.fs, p, stamp))
  }

  lemma OnwardTransitive(k0: Kernel, log0: seq<string>, renames0: nat, k1: Kernel, log1: seq<string>, renames1: nat,
                         k2: Kernel, log2: seq<string>, renames2: nat)
    requires Onward(k0, log0, renames0, k1, log1, renames1) && Onward(k1, log1, renames1, k2, log2, renames2)
    ensures Onward(k0, log0, renames0, k2, log2, renames2)
  {
    hide Later, Lost;
    LaterTransitive(k0, k1, k2);
  }

  lemma OnwardReflexive(k: Kernel, log: seq<string>, renames: nat)
    ensures Onward(k, log, renames, k, log, renames)
  {
    hide Later, Lost;
    LaterReflexive(k);
  }

  lemma OneOnward(k: Kernel, op: Op, log: seq<string>, renames: nat)
    requires Stamped(op, |log|) && Logged(k.fs, log)
    ensures Logged(Change(k, op).fs, log + [Written(k.fs, op)])
    ensures Onward(k, log, renames, Change(k, op), log + [Written(k.fs, op)],
                   if RenamesDir(k.fs, op) then renames + 1 else renames)
  {
    hide Later, Lost, Applicable, Apply, Followed, Displaced, Unreported;
    ChangeIsLater(k, op);
    if Applicable(k.fs, op) {
      StampedChange(k.fs, op, log);
      if !RenamesDir(k.fs, op) {
        forall p, stamp: nat | stamp < |log| && Lost(k.fs, p, stamp)
          ensures Lost(Change(k, op).fs, p, stamp)
        {
          LostStays(k.fs, op, log, p, stamp);
        }
      }
    } else {
      LoggedMore(k.fs, log, Written(k.fs, op));
    }
  }

  lemma LoggedMore(fs: Tree, log: seq<string>, data: string)
    requires Logged(fs, log)
    ensures Logged(fs, log + [data])
  {
  }

  // ---- Entries

  /** While its queue is silent the entry holds the file's present content, unless
      its watch was late. */
  ghost predicate EntryCurrent(k: Kernel, e: Entry) {
    e.occupied ==>
      && e.queue in k.watches
      && (Silent(k, e.queue) && e.queue !in k.late ==>
            Covers(k, e.queue, e.path) && Lookup(k.fs, e.path) == Content(e.content, e.stamp))
  }

  /** The queue watches what a dependency on the path needs. */
  ghost predicate Covers(k: Kernel, queue: nat, path: Path) {
    queue in k.watches && WatchTarget(k.fs, path) in k.watches[queue]
  }

  ghost predicate EntriesCurrent(k: Kernel, entries: seq<Entry>) {
    && (forall i :: 0 <= i < |entries| ==> EntryCurrent(k, entries[i]))
    && (forall i, j :: 0 <= i < j < |entries| && entries[i].occupied && entries[j].occupied ==>
          entries[i].queue != entries[j].queue && entries[i].path != entries[j].path)
  }

  /** The content is what was written under the stamp, unless the read was torn. */
  ghost predicate Genuine(log: seq<string>, torn: set<nat>, e: Entry) {
    e.occupied ==> e.stamp < |log| && (e.queue !in torn ==> log[e.stamp] == e.content)
  }

  ghost predicate AllGenuine(log: seq<string>, torn: set<nat>, entries: seq<Entry>) {
    forall i :: 0 <= i < |entries| ==> Genuine(log, torn, entries[i])
  }

  lemma EntryStays(k: Kernel, k': Kernel, e: Entry)
    requires Later(k, k') && k'.late == k.late && EntryCurrent(k, e)
    ensures EntryCurrent(k', e)
  {
    hide WatchTarget, Lookup;
  }

  lemma EntriesStay(k: Kernel, k': Kernel, entries: seq<Entry>)
    requires Later(k, k') && k'.late == k.late && EntriesCurrent(k, entries)
    ensures EntriesCurrent(k', entries)
  {
    hide EntryCurrent, Later;
    forall i | 0 <= i < |entries|
      ensures EntryCurrent(k', entries[i])
    {
      EntryStays(k, k', entries[i]);
    }
  }

  /** The kernel's state differs in one queue only. */
  ghost predicate SameBut(k: Kernel, k': Kernel, queue: nat) {
    k'.fs == k.fs && forall q :: q != queue ==>
      && (q in k.watches ==> q in k'.watches && k'.watches[q] == k.watches[q])
      && (q in k'.dirty <==> q in k.dirty)
      && (q in k'.late <==> q in k.late)
      && (q in k'.moved <==> q in k.moved)
  }

  lemma QueueElsewhere(k: Kernel, k': Kernel, e: Entry, queue: nat)
    requires SameBut(k, k', queue) && EntryCurrent(k, e) && (e.occupied ==> e.queue != queue)
    ensures EntryCurrent(k', e)
  {
    hide WatchTarget, Lookup;
  }

  /** Closing or opening a queue, or another watch on it, concerns no entry with
      another queue. */
  lemma QueuesElsewhere(k: Kernel, k': Kernel, entries: seq<Entry>, queue: nat)
    requires SameBut(k, k', queue) && EntriesCurrent(k, entries) && NoneUses(entries, queue)
    ensures EntriesCurrent(k', entries)
  {
    hide EntryCurrent, SameBut;
    forall i | 0 <= i < |entries|
      ensures EntryCurrent(k', entries[i])
    {
      QueueElsewhere(k, k', entries[i], queue);
    }
  }

  ghost predicate NoneUses(entries: seq<Entry>, queue: nat) {
    forall i :: 0 <= i < |entries| && entries[i].occupied ==> entries[i].queue != queue
  }

  lemma EntryDropped(k: Kernel, log: seq<string>, torn: set<nat>, entries: seq<Entry>, i: nat)
    requires EntriesCurrent(k, entries) && AllGenuine(log, torn, entries) && i < |entries|
    ensures EntriesCurrent(k, entries[i := NO_ENTRY]) && AllGenuine(log, torn, entries[i := NO_ENTRY])
    ensures entries[i].occupied ==> NoneUses(entries[i := NO_ENTRY], entries[i].queue)
  {
    hide EntryCurrent, Genuine;
    assert EntryCurrent(k, NO_ENTRY) && Genuine(log, torn, NO_ENTRY) by {
      FreeSlot(k, log, torn);
    }
  }

  lemma FreeSlot(k: Kernel, log: seq<string>, torn: set<nat>)
    ensures EntryCurrent(k, NO_ENTRY) && Genuine(log, torn, NO_ENTRY)
  {
  }

  lemma QueueForgotten(log: seq<string>, torn: set<nat>, entries: seq<Entry>, queue: nat)
    requires AllGenuine(log, torn, entries) && NoneUses(entries, queue)
    ensures AllGenuine(log, torn - {queue}, entries) && AllGenuine(log, torn + {queue}, entries)
  {
    forall i | 0 <= i < |entries|
      ensures Genuine(log, torn - {queue}, entries[i]) && Genuine(log, torn + {queue}, entries[i])
    {
      assert Genuine(log, torn, entries[i]);
    }
  }

  lemma GenuineStays(log: seq<string>, log': seq<string>, torn: set<nat>, entries: seq<Entry>)
    requires AllGenuine(log, torn, entries) && log <= log'
    ensures AllGenuine(log', torn, entries)
  {
    forall i | 0 <= i < |entries|
      ensures Genuine(log', torn, entries[i])
    {
      assert Genuine(log, torn, entries[i]);
    }
  }

  /** Another entry that leaves the rest alone. */
  lemma EntryStored(k: Kernel, log: seq<string>, torn: set<nat>, entries: seq<Entry>, i: nat, e: Entry)
    requires EntriesCurrent(k, entries) && AllGenuine(log, torn, entries) && i < |entries| && e.occupied
    requires EntryCurrent(k, e) && Genuine(log, torn, e)
    requires forall j :: 0 <= j < |entries| && j != i && entries[j].occupied ==>
                           entries[j].queue != e.queue && entries[j].path != e.path
    ensures EntriesCurrent(k, entries[i := e]) && AllGenuine(log, torn, entries[i := e])
  {
    hide EntryCurrent, Genuine;
  }

  lemma Used(k: Kernel, log: seq<string>, torn: set<nat>, entries: seq<Entry>, i: nat, now: nat)
    requires EntriesCurrent(k, entries) && AllGenuine(log, torn, entries) && i < |entries|
    ensures EntriesCurrent(k, entries[i := entries[i].(lastUsed := now)])
    ensures AllGenuine(log, torn, entries[i := entries[i].(lastUsed := now)])
  {
    assert EntryCurrent(k, entries[i]) && Genuine(log, torn, entries[i]);
  }

  // ---- Looking for the directory to watch

  /** The objects watched already are there, if the queue is silent. */
  ghost predicate Known(k: Kernel, queue: nat, seen: set<Path>) {
    queue in k.watches && (Silent(k, queue) ==> forall d :: d in seen ==> d in k.watches[queue] && d in k.fs)
  }

  /** The looks have come down to `target`: if it is watched already, its child
      towards the path was no directory. */
  ghost predicate Looking(k: Kernel, queue: nat, seen: set<Path>, path: Path, target: Path) {
    && target <= path
    && (target in seen && Silent(k, queue) && IsDir(k.fs, target) && target != path ==>
          !IsDir(k.fs, target + [path[|target|]]))
  }

  lemma LookFails(k0: Kernel, k: Kernel, k': Kernel, queue: nat, seen: set<Path>, path: Path, target: Path)
    requires Known(k0, queue, seen) && Later(k0, k) && Later(k, k')
    requires Looking(k, queue, seen, path, target) && !IsDir(k.fs, target)
    ensures target != [] && Looking(k', queue, seen, path, Parent(target))
  {
    hide WatchTarget, View, Walked;
    var above := Parent(target);
    assert path[..|target|] == target == above + [path[|above|]];
  }

  lemma LookEnds(k: Kernel, queue: nat, seen: set<Path>, path: Path, target: Path)
    requires Looking(k, queue, seen, path, target) && IsDir(k.fs, target)
    ensures target in seen && Silent(k, queue) ==> target == WatchTarget(k.fs, path)
  {
    if target in seen && Silent(k, queue) {
      OnlyDirAbove(k.fs, path, target);
    }
  }

  // ---- Reading

  /** Under a silent queue with its watch in time: the path is covered and holds
      `data`, of which `loaded` is what was read. */
  ghost predicate Holds(k: Kernel, queue: nat, path: Path, data: string, stamp: nat, loaded: string) {
    Silent(k, queue) && queue !in k.late ==>
      Covers(k, queue, path) && Lookup(k.fs, path) == Content(data, stamp) && loaded <= data
  }

  /** Or else, while a file with this stamp is there: `loaded` is part of what was
      written under it. */
  ghost predicate Agrees(k: Kernel, log: seq<string>, path: Path, stamp: nat, size: nat, loaded: string) {
    stamp < |log| && (!Lost(k.fs, path, stamp) ==> size == |log[stamp]| && loaded <= log[stamp])
  }

  lemma HoldsStays(k: Kernel, k': Kernel, queue: nat, path: Path, data: string, stamp: nat, loaded: string)
    requires Later(k, k') && k'.late == k.late && queue in k.watches && Holds(k, queue, path, data, stamp, loaded)
    ensures Holds(k', queue, path, data, stamp, loaded)
  {
    hide WatchTarget, Lookup;
  }

  lemma HoldsGrows(k: Kernel, queue: nat, path: Path, data: string, stamp: nat, loaded: string, c: char)
    requires Holds(k, queue, path, data, stamp, loaded) && |loaded| < |data|
    requires Lookup(k.fs, path).Content? && |loaded| < |Lookup(k.fs, path).data|
    requires c == Lookup(k.fs, path).data[|loaded|]
    ensures Holds(k, queue, path, data, stamp, loaded + [c])
  {
    hide WatchTarget, Lookup;
    assert loaded <= data && c == data[|loaded|] ==> loaded + [c] <= data;
  }

  lemma AgreesStays(k: Kernel, log: seq<string>, renames: nat, k': Kernel, log': seq<string>, path: Path, stamp: nat,
                    size: nat, loaded: string)
    requires Onward(k, log, renames, k', log', renames) && Agrees(k, log, path, stamp, size, loaded)
    ensures Agrees(k', log', path, stamp, size, loaded)
  {
    hide Lost;
  }

  lemma AgreesGrows(k: Kernel, log: seq<string>, path: Path, stamp: nat, size: nat, loaded: string, c: char)
    requires Logged(k.fs, log) && Agrees(k, log, path, stamp, size, loaded) && |loaded| < size
    requires Lookup(k.fs, path).Content? && |loaded| < |Lookup(k.fs, path).data|
    requires c == Lookup(k.fs, path).data[|loaded|]
    ensures Agrees(k, log, path, stamp, size, loaded + [c])
  {
    assert path in k.fs && k.fs[path].File?;
    assert loaded <= log[stamp] && |loaded| < |log[stamp]| && c == log[stamp][|loaded|] ==> loaded + [c] <= log[stamp];
  }

  /** A regular file that is not too large. */
  predicate Readable(fs: Tree, path: Path) {
    Lookup(fs, path).Content? && |Lookup(fs, path).data| <= MAX_WARM_FILE_BYTES
  }

  class Cache {
    var k: Kernel
    ghost var history: seq<Tree>            // every state of the file system so far
    var log: seq<string>                    // what was written under each stamp so far
    ghost var renames: nat                  // directories renamed so far
    ghost var torn: set<nat>                // queues under which a read was torn
    ghost var setbacks: nat                 // changes by others and refusals so far
    var nextQueue: nat
    const entries: array<Entry>
    var clock: nat

    ghost predicate Valid()
      reads `k, `history, `log, `torn, `nextQueue, entries
      ensures Valid() ==> entries.Length == HOT_FILE_SLOTS && history != [] && history[|history| - 1] == k.fs
      ensures Valid() ==> Logged(k.fs, log) && torn <= k.late + k.moved
    {
      && entries.Length == HOT_FILE_SLOTS && history != [] && history[|history| - 1] == k.fs
      && Logged(k.fs, log) && torn <= k.late + k.moved
      && QueuesKnown(k, nextQueue)
      && EntriesCurrent(k, entries[..]) && AllGenuine(log, torn, entries[..])
    }

    constructor (fs: Tree, log: seq<string>)
      requires Logged(fs, log)
      ensures Valid() && fresh(entries) && k.fs == fs
    {
      k := Kernel(fs, map[], {}, {}, {});
      history := [fs];
      this.log := log;
      renames, torn, setbacks := 0, {}, 0;
      nextQueue := 0;
      entries := new Entry[HOT_FILE_SLOTS](_ => NO_ENTRY);
      clock := 0;
    }

    /** Another process changes the file system once. */
    method Act()
      requires Valid()
      modifies `k, `history, `log, `renames, `setbacks
      ensures Valid() && old(history) <= history && setbacks > old(setbacks)
      ensures Onward(old(k), old(log), old(renames), k, log, renames)
    {
      hide Onward, Later, Change, RenamesDir, EntriesCurrent, AllGenuine, Logged;
      var op: Op := *;
      var stamped := WithStamp(op, |log|);
      OneOnward(k, stamped, log, renames);
      var k', log' := Change(k, stamped), log + [Written(k.fs, stamped)];
      OnwardKnown(k, log, renames, k', log', if RenamesDir(k.fs, stamped) then renames + 1 else renames, nextQueue,
                  stamped);
      EntriesStay(k, k', entries[..]);
      GenuineStays(log, log', torn, entries[..]);
      renames := if RenamesDir(k.fs, stamped) then renames + 1 else renames;
      k, log := k', log';
      history, setbacks := history + [k.fs], setbacks + 1;
    }

    /** The kernel's state is the one before, or something was set back since. */
    ghost predicate Still(before: nat, was: Kernel)
      reads `k, `setbacks
    {
      before <= setbacks && (setbacks == before ==> k == was)
    }

    /** Nothing was set back, so the file is there and can be read. */
    ghost predicate Undelayed(before: nat, fs: Tree, path: Path)
      reads `setbacks
    {
      setbacks == before && Readable(fs, path)
    }

    /** Other processes change the file system any number of times. */
    method Interfere()
      requires Valid()
      modifies `k, `history, `log, `renames, `setbacks
      ensures Valid() && old(history) <= history
      ensures Onward(old(k), old(log), old(renames), k, log, renames)
      ensures Later(old(k), k) && k.watches.Keys == old(k.watches.Keys) && k.late == old(k.late)
      ensures old(log) <= log && Still(old(setbacks), old(k))
    {
      hide Valid, Onward, Later;
      var times: nat :| times >= 0;
      OnwardReflexive(k, log, renames);
      for i := 0 to times
        invariant Valid() && old(history) <= history && Still(old(setbacks), old(k))
        invariant Onward(old(k), old(log), old(renames), k, log, renames)
      {
        ghost var k1, log1, renames1 := k, log, renames;
        Act();
        OnwardTransitive(old(k), old(log), old(renames), k1, log1, renames1, k, log, renames);
      }
      OnwardLater(old(k), old(log), old(renames), k, log, renames);
    }

    /** A regular file's state, as stat sees it: its size and the rest. */
    method Stat(path: Path) returns (st: Option<(nat, nat)>)
      ensures st == match Lookup(k.fs, path) {
                      case Content(data, stamp) => Some((|data|, stamp))
                      case _ => None
                    }
    {
      var value := Lookup(k.fs, path);
      st := match value
            case Content(data, stamp) => Some((|data|, stamp))
            case _ => None;
    }

    /** No entry uses the queue. */
    ghost predicate Unused(queue: nat)
      reads entries
    {
      NoneUses(entries[..], queue)
    }

    method CloseQueue(queue: nat)
      requires Valid() && Unused(queue)
      modifies `k, `torn
      ensures Valid() && k == Closed(old(k), queue)
    {
      hide EntriesCurrent, AllGenuine, NoneUses;
      QueuesElsewhere(k, Closed(k, queue), entries[..], queue);
      QueueForgotten(log, torn, entries[..], queue);
      torn := torn - {queue};
      k := Closed(k, queue);
    }

    /** Empty a slot and close its queue. */
    method Clear(i: nat)
      requires Valid() && i < HOT_FILE_SLOTS
      modifies `k, `torn, entries
      ensures Valid() && k.fs == old(k.fs) && entries[..] == old(entries[..])[i := NO_ENTRY]
    {
      hide EntriesCurrent, AllGenuine, NoneUses, Logged;
      var e := entries[i];
      EntryDropped(k, log, torn, entries[..], i);
      entries[i] := NO_ENTRY;
      assert entries[..] == old(entries[..])[i := NO_ENTRY];
      if e.occupied {
        CloseQueue(e.queue);
      }
    }

    /** Nothing is waiting in the queue; a failed read counts as something. */
    method DrainClean(queue: nat, complete: bool) returns (clean: bool)
      modifies `setbacks
      ensures clean ==> complete && queue !in k.dirty
      ensures old(setbacks) <= setbacks && (setbacks == old(setbacks) ==> (clean <==> complete && queue !in k.dirty))
    {
      var failed: bool := *;
      setbacks := if failed then setbacks + 1 else setbacks;
      clean := complete && !failed && queue !in k.dirty;
    }

    /** Look upwards from `path` for a directory, while others act. */
    method ChooseTarget(queue: nat, path: Path, ghost seen: set<Path>) returns (target: Path)
      requires Valid() && Known(k, queue, seen)
      modifies `k, `history, `log, `renames, `setbacks
      ensures Valid() && old(history) <= history
      ensures Onward(old(k), old(log), old(renames), k, log, renames)
      ensures target in seen && Silent(k, queue) ==> target == WatchTarget(k.fs, path)
      ensures target in k.fs && Still(old(setbacks), old(k))
    {
      hide Valid, EntriesCurrent, Onward, Later, Known, Looking, Silent, WatchTarget;
      target := path;
      OnwardReflexive(k, log, renames);
      LookStarts(k, queue, seen, path);
      while !IsDir(k.fs, target)
        invariant Valid() && old(history) <= history
        invariant Onward(old(k), old(log), old(renames), k, log, renames) && Still(old(setbacks), old(k))
        invariant Looking(k, queue, seen, path, target)
        decreases |target|
      {
        ghost var k1, log1, renames1 := k, log, renames;
        OnwardLater(old(k), old(log), old(renames), k, log, renames);
        Interfere();
        OnwardTransitive(old(k), old(log), old(renames), k1, log1, renames1, k, log, renames);
        LookFails(old(k), k1, k, queue, seen, path, target);
        target := Parent(target);
      }
      LookEnds(k, queue, seen, path, target);
    }

    /** Add a watch to a queue no entry uses; the kernel can refuse. */
    method AddWatch(queue: nat, target: Path) returns (added: bool)
      requires Valid() && queue in k.watches && Unused(queue)
      modifies `k, `setbacks
      ensures Valid() && k == old(k).(watches := k.watches) && k.watches.Keys == old(k.watches.Keys) && Later(old(k), k)
      ensures added ==> target in k.fs && target in k.watches[queue]
      ensures old(setbacks) <= setbacks && (setbacks == old(setbacks) ==> (added <==> target in k.fs))
    {
      hide EntriesCurrent, AllGenuine, NoneUses, Logged, Undisturbed;
      var refused: bool := *;
      setbacks := if refused then setbacks + 1 else setbacks;
      added := !refused && target in k.fs;
      if added {
        ghost var k' := k.(watches := k.watches[queue := k.watches[queue] + {target}]);
        QueuesElsewhere(k, k', entries[..], queue);
        WatchAdded(k, k', queue, target);
        k := k.(watches := k.watches[queue := k.watches[queue] + {target}]);
      } else {
        LaterReflexive(k);
      }
    }

    method OpenQueue() returns (queue: nat)
      requires Valid()
      modifies `k, `nextQueue
      ensures Valid() && queue in k.watches && Unused(queue) && queue !in k.late && queue !in torn
      ensures queue !in k.dirty && k.fs == old(k.fs)
    {
      hide EntriesCurrent, AllGenuine, NoneUses, Logged;
      queue := nextQueue;
      NextUnused(k, nextQueue, entries[..]);
      QueuesElsewhere(k, k.(watches := k.watches[queue := {}]), entries[..], queue);
      k := k.(watches := k.watches[queue := {}]);
      nextQueue := nextQueue + 1;
    }

    /** Open a queue and watch what a dependency on the directory of `path` needs
        watched. */
    method OpenGuard(path: Path) returns (queue: nat, complete: bool, first: Path)
      requires Valid() && path != []
      modifies `k, `nextQueue, `history, `log, `renames, `setbacks
      ensures Valid() && old(history) <= history
      ensures queue in k.watches && Unused(queue) && queue !in k.late && queue !in torn
      ensures complete ==> Known(k, queue, {first})
      ensures old(setbacks) <= setbacks
      ensures setbacks == old(setbacks) ==> complete && queue !in k.dirty && k.fs == old(k.fs)
    {
      hide Valid, NoneUses, Later, Onward;
      queue := OpenQueue();
      Interfere();
      ghost var k1, log1, renames1 := k, log, renames;
      first := ChooseTarget(queue, Parent(path), {});
      OnwardLater(k1, log1, renames1, k, log, renames);
      Interfere();
      complete := AddWatch(queue, first);
    }

    /** Watch the file's own directory before reading, unless it is the one that is
        watched already. Others act between the choice and the registration. */
    method WatchFile(queue: nat, path: Path, first: Path) returns (complete: bool)
      requires Valid() && queue in k.watches && Unused(queue) && queue !in k.late && Known(k, queue, {first})
      modifies `k, `history, `log, `renames, `setbacks
      ensures Valid() && old(history) <= history && queue in k.watches
      ensures Onward(old(k), old(log), old(renames), k.(late := old(k.late)), log, renames)
      ensures complete && Silent(k, queue) && queue !in k.late ==> Covers(k, queue, path)
      ensures k.late <= old(k.late) + {queue}
      ensures old(setbacks) <= setbacks
      ensures setbacks == old(setbacks) ==> complete && k.fs == old(k.fs) && k.dirty == old(k.dirty)
    {
      hide Valid, NoneUses, Later, Onward, WatchTarget;
      var target := ChooseTarget(queue, path, {first});
      OnwardLater(old(k), old(log), old(renames), k, log, renames);
      if target == first {
        KnownStays(old(k), k, queue, first);
        assert k.(late := old(k.late)) == k;
        return true;
      }
      ghost var k1, log1, renames1 := k, log, renames;
      Interfere();
      OnwardTransitive(old(k), old(log), old(renames), k1, log1, renames1, k, log, renames);
      ghost var k2 := k;
      complete := AddWatch(queue, target);
      OnwardWatch(old(k), old(log), old(renames), k2, log, renames, k);
      if complete && WatchTarget(k.fs, path) != target {
        MarkLate(queue);
      }
      assert k.(late := old(k.late)).late == old(k.late);
    }

    /** By now another directory is the one to watch. */
    method MarkLate(queue: nat)
      requires Valid() && queue in k.watches && Unused(queue)
      modifies `k
      ensures Valid() && k == old(k).(late := old(k).late + {queue})
    {
      hide EntriesCurrent, AllGenuine, NoneUses, Logged;
      QueuesElsewhere(k, k.(late := k.late + {queue}), entries[..], queue);
      k := k.(late := k.late + {queue});
    }

    /** The byte at `i`, if the file has one then. */
    method ReadByte(path: Path, i: nat) returns (c: Option<char>)
      requires Valid()
      modifies `k, `history, `log, `renames, `setbacks
      ensures Valid() && old(history) <= history
      ensures Onward(old(k), old(log), old(renames), k, log, renames)
      ensures c.Some? ==>
                Lookup(k.fs, path).Content? && i < |Lookup(k.fs, path).data| && c.value == Lookup(k.fs, path).data[i]
      ensures Lookup(k.fs, path).Content? && i < |Lookup(k.fs, path).data| ==> c.Some?
      ensures Still(old(setbacks), old(k))
    {
      hide Valid, Onward, Later, Lookup;
      Interfere();
      c := match Lookup(k.fs, path)
           case Content(now, _) => if i < |now| then Some(now[i]) else None
           case _ => None;
    }

    /** Read `size` bytes one after another, while others write. */
    method ReadBytes(queue: nat, path: Path, size: nat, ghost data: string, ghost held: nat, ghost stamp: nat,
                     ghost r0: nat)
      returns (loaded: Option<string>)
      requires Valid() && queue in k.watches && size == |data| && Holds(k, queue, path, data, held, "")
      requires r0 <= renames && (renames == r0 ==> Agrees(k, log, path, stamp, size, ""))
      modifies `k, `history, `log, `renames, `setbacks
      ensures Valid() && old(history) <= history
      ensures old(renames) <= renames && queue in k.watches && k.late == old(k.late)
      ensures loaded.Some? ==> |loaded.value| == size && Holds(k, queue, path, data, held, loaded.value)
      ensures loaded.Some? && renames == r0 ==> Agrees(k, log, path, stamp, size, loaded.value)
      ensures Still(old(setbacks), old(k))
      ensures setbacks == old(setbacks) && Lookup(k.fs, path).Content? && |Lookup(k.fs, path).data| == size ==>
                loaded.Some?
    {
      hide Valid, Onward, Later, Lookup, Holds, Agrees, Logged;
      var bytes := "";
      while |bytes| < size
        invariant Valid() && old(history) <= history && queue in k.watches && |bytes| <= size
        invariant Still(old(setbacks), old(k))
        invariant old(renames) <= renames && k.late == old(k.late)
        invariant Holds(k, queue, path, data, held, bytes)
        invariant renames == r0 ==> Agrees(k, log, path, stamp, size, bytes)
      {
        ghost var k1, log1, r1 := k, log, renames;
        var c := ReadByte(path, |bytes|);
        OnwardLater(k1, log1, r1, k, log, renames);
        if c.None? {
          return None;
        }
        HoldsStays(k1, k, queue, path, data, held, bytes);
        HoldsGrows(k, queue, path, data, held, bytes, c.value);
        AgreesCarried(r0, k1, log1, r1, k, log, renames, path, stamp, size, bytes);
        if renames == r0 {
          AgreesGrows(k, log, path, stamp, size, bytes, c.value);
        }
        bytes := bytes + [c.value];
      }
      loaded := Some(bytes);
    }

    /** Read the file between two looks at its state, while others write. If the
        queue stays silent and its watch was in time, the bytes are the file's;
        otherwise they still are what was written under its stamp, if no directory
        was renamed meanwhile. */
    method Load(queue: nat, path: Path, first: Path) returns (content: Option<(string, nat)>)
      requires Valid() && queue in k.watches && Unused(queue) && queue !in k.late && Known(k, queue, {first})
      modifies `k, `history, `log, `renames, `setbacks
      ensures Valid() && old(history) <= history && queue in k.watches && old(renames) <= renames
      ensures k.late <= old(k.late) + {queue}
      ensures content.Some? ==> content.value.1 < |log|
      ensures content.Some? ==> Holds(k, queue, path, content.value.0, content.value.1, content.value.0)
      ensures content.Some? && renames == old(renames) ==>
                && log[content.value.1] == content.value.0
                && Lookup(k.fs, path) == Content(content.value.0, content.value.1)
      ensures old(setbacks) <= setbacks
      ensures Undelayed(old(setbacks), old(k.fs), path) ==>
                content.Some? && k.fs == old(k.fs) && k.dirty == old(k.dirty)
    {
      hide Valid, EntriesCurrent, Onward, Later, WatchTarget, Lookup, Holds, Agrees, Known, NoneUses, Covers, Logged;
      ghost var k0, r0 := k, renames;
      Interfere();
      OnwardLater(k0, old(log), r0, k, log, renames);
      KnownLater(k0, k, queue, first);
      var before := Stat(path);
      if before.None? || before.value.0 > MAX_WARM_FILE_BYTES {
        return None;
      }
      var size, stamp := before.value.0, before.value.1;
      AgreesStarts(k, log, path, size, stamp);
      ghost var k1, log1, r1 := k, log, renames;
      var complete := WatchFile(queue, path, first);
      OnwardLater(k1, log1, r1, k.(late := k1.late), log, renames);
      if !complete {
        return None;
      }
      AgreesCarried(r0, k1, log1, r1, k.(late := k1.late), log, renames, path, stamp, size, "");
      AgreesApart(k, k1.late, log, path, stamp, size, "");
      content := LoadWatched(queue, path, size, stamp, r0);
    }

    /** The reading and the second look. */
    method LoadWatched(queue: nat, path: Path, size: nat, stamp: nat, ghost r0: nat)
      returns (content: Option<(string, nat)>)
      requires Valid() && queue in k.watches && r0 <= renames
      requires Silent(k, queue) && queue !in k.late ==> Covers(k, queue, path)
      requires renames == r0 ==> Agrees(k, log, path, stamp, size, "")
      modifies `k, `history, `log, `renames, `setbacks
      ensures Valid() && old(history) <= history && queue in k.watches
      ensures old(renames) <= renames && k.late == old(k.late)
      ensures content.Some? ==> content.value.1 < |log|
      ensures content.Some? ==> Holds(k, queue, path, content.value.0, content.value.1, content.value.0)
      ensures content.Some? && renames == r0 ==>
                && log[content.value.1] == content.value.0
                && Lookup(k.fs, path) == Content(content.value.0, content.value.1)
      ensures Still(old(setbacks), old(k))
      ensures setbacks == old(setbacks) && Lookup(k.fs, path).Content? &&
                (|Lookup(k.fs, path).data|, Lookup(k.fs, path).stamp) == (size, stamp) ==>
                content.Some?
    {
      hide Valid, Onward, Later, WatchTarget, Lookup, Holds, Agrees, Covers, Logged;
      ghost var k1, log1, r1 := k, log, renames;
      Interfere();
      OnwardLater(k1, log1, r1, k, log, renames);
      AgreesCarried(r0, k1, log1, r1, k, log, renames, path, stamp, size, "");
      var st := Stat(path);
      if st.None? || st.value.0 != size {
        return None;
      }
      ghost var data, held := Lookup(k.fs, path).data, st.value.1;
      HoldsStarts(k1, k, queue, path, data, held);
      ghost var r2 := renames;
      var loaded := ReadBytes(queue, path, size, data, held, stamp, r0);
      if loaded.None? {
        return None;
      }
      ghost var k3, log3, r3 := k, log, renames;
      Interfere();
      OnwardLater(k3, log3, r3, k, log, renames);
      HoldsStays(k3, k, queue, path, data, held, loaded.value);
      AgreesCarried(r0, k3, log3, r3, k, log, renames, path, stamp, size, loaded.value);
      var after := Stat(path);
      if after != Some((size, stamp)) {
        return None;
      }
      content := Some((loaded.value, stamp));
      HoldsEnds(k, queue, path, data, held, loaded.value, stamp);
      AgreesEnds(k, log, path, stamp, size, loaded.value);
    }

    /** At some instant since the history was `before` long the file held this
        content. */
    ghost predicate HeldSince(before: nat, path: Path, content: string)
      reads `history
    {
      exists n :: before - 1 <= n < |history| && n >= 0 &&
                  Lookup(history[n], path).Content? && Lookup(history[n], path).data == content
    }

    /** An entry remembers this content of the file, which the file held at some
        instant since the history was `before` long, unless the read was torn. */
    ghost predicate RemembersHeld(i: nat, before: nat, path: Path, content: string)
      reads this, entries
    {
      && i < entries.Length
      && entries[i].occupied && entries[i].path == path && entries[i].content == content
      && (entries[i].queue !in torn ==> HeldSince(before, path, content))
    }

    /** The entry of this path, or none. */
    method Find(path: Path) returns (found: Option<nat>)
      requires entries.Length == HOT_FILE_SLOTS
      ensures found.Some? ==> found.value < HOT_FILE_SLOTS && entries[found.value].occupied &&
                              entries[found.value].path == path
      ensures found.None? ==> forall i :: 0 <= i < HOT_FILE_SLOTS && entries[i].occupied ==> entries[i].path != path
    {
      for i := 0 to HOT_FILE_SLOTS
        invariant forall j :: 0 <= j < i && entries[j].occupied ==> entries[j].path != path
      {
        if entries[i].occupied && entries[i].path == path {
          return Some(i);
        }
      }
      found := None;
    }

    /** A free slot, or the least recently used. */
    method Select() returns (selected: nat)
      requires entries.Length == HOT_FILE_SLOTS
      ensures selected < HOT_FILE_SLOTS
      ensures entries[selected].occupied ==>
                forall i :: 0 <= i < HOT_FILE_SLOTS ==>
                              entries[i].occupied && entries[selected].lastUsed <= entries[i].lastUsed
    {
      selected := 0;
      for i := 0 to HOT_FILE_SLOTS
        invariant selected < HOT_FILE_SLOTS && (i > 0 ==> entries[selected].occupied)
        invariant forall j :: 0 <= j < i ==> entries[j].occupied && entries[selected].lastUsed <= entries[j].lastUsed
      {
        if !entries[i].occupied {
          return i;
        }
        if i == 0 || entries[i].lastUsed < entries[selected].lastUsed {
          selected := i;
        }
      }
    }

    /** Mark a slot as just used. */
    method Touch(i: nat)
      requires Valid() && i < HOT_FILE_SLOTS
      modifies `clock, entries
      ensures Valid() && entries[..] == old(entries[..])[i := old(entries[i]).(lastUsed := clock)]
    {
      hide EntriesCurrent, AllGenuine, Logged;
      clock := clock + 1;
      Used(k, log, torn, entries[..], i, clock);
      entries[i] := entries[i].(lastUsed := clock);
      assert entries[..] == old(entries[..])[i := entries[i]];
    }

    lemma KnownEntry(i: nat)
      requires Valid() && i < HOT_FILE_SLOTS
      ensures EntryCurrent(k, entries[i]) && Genuine(log, torn, entries[i])
    {
      hide EntryCurrent, Genuine, Logged;
      assert EntryCurrent(k, entries[..][i]) && Genuine(log, torn, entries[..][i]);
    }

    /** The remembered content, if nothing was reported and the file's state is
        the same; otherwise the entry is dropped. */
    method Recall(i: nat) returns (content: Option<string>)
      requires Valid() && i < HOT_FILE_SLOTS && entries[i].occupied
      modifies `k, `history, `log, `renames, `setbacks, `torn, `clock, entries
      ensures Valid() && old(history) <= history
      ensures content.Some? ==> RemembersHeld(i, old(|history|), old(entries[i].path), content.value)
      ensures content.Some? ==> content.value == old(entries[i].content) && torn == old(torn) &&
                                entries[..] == old(entries[..])[i := old(entries[i]).(lastUsed := clock)]
      ensures content.None? ==> entries[..] == old(entries[..])[i := NO_ENTRY]
      ensures old(setbacks) <= setbacks && (setbacks == old(setbacks) ==> k.fs == old(k.fs))
    {
      hide Valid, EntriesCurrent, Onward, Later, Lookup, WatchTarget, EntryCurrent;
      Interfere();
      var e := entries[i];
      var clean := DrainClean(e.queue, true);
      if clean {
        Interfere();
        KnownEntry(i);
        var st := Stat(e.path);
        if st == Some((|e.content|, e.stamp)) {
          StampTells(k.fs, log, e.path, e.stamp);
          assert e.queue !in torn ==> Lookup(history[|history| - 1], e.path).data == e.content;
          Touch(i);
          return Some(e.content);
        }
      }
      Clear(i);
      content := None;
    }

    /** Keep a file's content under a queue of its own. */
    method Keep(i: nat, e: Entry)
      requires Valid() && i < HOT_FILE_SLOTS && e.occupied && EntryCurrent(k, e) && Unused(e.queue)
      requires Genuine(log, torn, e)
      requires forall j :: 0 <= j < HOT_FILE_SLOTS && entries[j].occupied ==> entries[j].path != e.path
      modifies entries
      ensures Valid() && entries[..] == old(entries[..])[i := e]
    {
      hide EntryCurrent, Genuine, Logged;
      EntryStored(k, log, torn, entries[..], i, e);
      entries[i] := e;
      assert entries[..] == old(entries[..])[i := e];
    }

    /** A read under a late or moved watch during which a directory was renamed
        counts as torn. */
    ghost method Judge(queue: nat, renamed: bool)
      requires Valid() && Unused(queue) && queue !in torn
      modifies `torn
      ensures Valid() && torn == old(torn) + if renamed && queue in k.late + k.moved then {queue} else {}
    {
      hide EntriesCurrent, AllGenuine, NoneUses, Logged;
      QueueForgotten(log, torn, entries[..], queue);
      if renamed && queue in k.late + k.moved {
        torn := torn + {queue};
      }
    }

    /** The read that `k1` saw finished is what the file held then, unless it
        counts as torn. */
    ghost method Accept(e: Entry, k1: Kernel, log1: seq<string>, n: nat, steady: bool)
      requires Valid() && e.occupied && Unused(e.queue) && e.queue !in torn && e.queue !in k.dirty
      requires Later(k1, k) && k.late == k1.late && e.queue in k1.watches && log1 <= log && e.stamp < |log1|
      requires n < |history| && Holds(k1, e.queue, e.path, e.content, e.stamp, e.content)
      requires steady || (Silent(k1, e.queue) && e.queue !in k1.late) ==>
                 log1[e.stamp] == e.content && Lookup(history[n], e.path) == Content(e.content, e.stamp)
      modifies `torn
      ensures Valid() && EntryCurrent(k, e) && Genuine(log, torn, e)
      ensures e.queue !in torn ==> Lookup(history[n], e.path) == Content(e.content, e.stamp)
    {
      hide EntriesCurrent, Lookup, WatchTarget, Holds, NoneUses, AllGenuine, Logged;
      HoldsStays(k1, k, e.queue, e.path, e.content, e.stamp, e.content);
      EntryHolds(k, e);
      Judge(e.queue, !steady);
      EntryGenuine(k1, k, log1, log, torn, e, steady);
    }

    /** Load under an open guard, and keep the content if nothing was reported. */
    method LoadAndKeep(i: nat, queue: nat, path: Path, first: Path) returns (content: Option<string>)
      requires Valid() && i < HOT_FILE_SLOTS && queue in k.watches && Unused(queue)
      requires queue !in k.late && queue !in torn && Known(k, queue, {first})
      requires forall j :: 0 <= j < HOT_FILE_SLOTS && entries[j].occupied ==> entries[j].path != path
      modifies `k, `history, `log, `renames, `setbacks, `torn, entries
      ensures Valid() && old(history) <= history && old(setbacks) <= setbacks
      ensures content.Some? ==> RemembersHeld(i, old(|history|), path, content.value)
      ensures content.None? ==> entries[..] == old(entries[..])
      ensures Undelayed(old(setbacks), old(k.fs), path) && queue !in old(k.dirty) ==> content.Some?
    {
      hide EntriesCurrent, Later, Onward, Valid, Lookup, WatchTarget, Parent, Holds, NoneUses, Known, EntryCurrent,
           Genuine, Logged, Readable, Silent;
      ghost var r0 := renames;
      var loaded := Load(queue, path, first);
      ghost var k1, log1, n, steady := k, log, |history| - 1, renames == r0;
      if loaded.Some? {
        LoadedHere(k, log, queue, path, loaded.value.0, loaded.value.1);
      }
      Interfere();
      var clean := DrainClean(queue, true);
      if loaded.None? || !clean {
        CloseQueue(queue);
        return None;
      }
      var e := Entry(true, path, loaded.value.0, loaded.value.1, queue, clock);
      Accept(e, k1, log1, n, steady);
      Keep(i, e);
      content := Some(e.content);
    }

    /** One attempt: watch, load, and keep the content. */
    method Attempt(i: nat, path: Path) returns (content: Option<string>)
      requires Valid() && i < HOT_FILE_SLOTS && path != []
      requires forall j :: 0 <= j < HOT_FILE_SLOTS && entries[j].occupied ==> entries[j].path != path
      modifies `k, `nextQueue, `history, `log, `renames, `setbacks, `torn, `clock, entries
      ensures Valid() && old(history) <= history && old(setbacks) <= setbacks
      ensures content.Some? ==> RemembersHeld(i, old(|history|), path, content.value)
      ensures content.None? ==> entries[..] == old(entries[..])
      ensures Undelayed(old(setbacks), old(k.fs), path) ==> content.Some?
    {
      hide Valid, Lookup, NoneUses, Known, Readable;
      var queue, complete, first := OpenGuard(path);
      if !complete {
        CloseQueue(queue);
        return None;
      }
      content := LoadAndKeep(i, queue, path, first);
    }

    /** Two attempts in a slot, which is free if neither succeeds. */
    method Fill(selected: nat, path: Path) returns (content: Option<string>)
      requires Valid() && selected < HOT_FILE_SLOTS
      requires forall i :: 0 <= i < HOT_FILE_SLOTS && entries[i].occupied ==> entries[i].path != path
      modifies `k, `nextQueue, `history, `log, `renames, `setbacks, `torn, `clock, entries
      ensures Valid() && old(history) <= history && old(setbacks) <= setbacks
      ensures content.Some? ==> RemembersHeld(selected, old(|history|), path, content.value)
      ensures content.None? ==> forall i :: 0 <= i < HOT_FILE_SLOTS && entries[i].occupied ==> entries[i].path != path
      ensures path != [] && Undelayed(old(setbacks), old(k.fs), path) ==> content.Some?
    {
      hide EntriesCurrent, AllGenuine, Logged, QueuesKnown, Readable;
      var attempts := 0;
      while attempts < 2
        invariant Valid() && old(history) <= history && old(setbacks) <= setbacks
        invariant path != [] && Undelayed(old(setbacks), old(k.fs), path) ==> attempts == 0 && k.fs == old(k.fs)
        invariant forall i :: 0 <= i < HOT_FILE_SLOTS && entries[i].occupied ==> entries[i].path != path
      {
        Clear(selected);
        var refused: bool := *;
        if path == [] || refused {
          setbacks := if refused then setbacks + 1 else setbacks;
          break;
        }
        content := Attempt(selected, path);
        if content.Some? {
          return;
        }
        attempts := attempts + 1;
      }
      Clear(selected);
      content := None;
    }

    /** Read a file through the cache: the content returned is what the file held
        at one instant during the call, unless its first read was torn. A readable
        file is answered if nobody changes anything and nothing is refused. */
    method ReadProven(path: Path) returns (content: Option<string>)
      requires Valid()
      modifies `k, `nextQueue, `history, `log, `renames, `setbacks, `torn, `clock, entries
      ensures Valid() && old(history) <= history
      ensures content.Some? ==> exists i :: RemembersHeld(i, old(|history|), path, content.value)
      ensures content.None? ==> forall i :: 0 <= i < HOT_FILE_SLOTS && entries[i].occupied ==> entries[i].path != path
      ensures path != [] && Undelayed(old(setbacks), old(k.fs), path) ==> content.Some?
    {
      hide EntriesCurrent, AllGenuine, Logged, QueuesKnown, Readable;
      var found := Find(path);
      if found.Some? {
        OnePath(found.value);
        content := Recall(found.value);
        if content.Some? {
          return;
        }
      }
      var selected := Select();
      content := Fill(selected, path);
      if content.Some? {
        assert RemembersHeld(selected, old(|history|), path, content.value);
      }
    }

    lemma OnePath(i: nat)
      requires Valid() && i < HOT_FILE_SLOTS && entries[i].occupied
      ensures forall j :: 0 <= j < HOT_FILE_SLOTS && j != i && entries[j].occupied ==>
                entries[j].path != entries[i].path
    {
      forall j | 0 <= j < HOT_FILE_SLOTS && j != i && entries[j].occupied
        ensures entries[j].path != entries[i].path
      {
        assert entries[..][j] == entries[j] && entries[..][i] == entries[i];
      }
    }
  }

  // ---- What follows from going onward

  lemma OnwardLater(k: Kernel, log: seq<string>, renames: nat, k': Kernel, log': seq<string>, renames': nat)
    requires Onward(k, log, renames, k', log', renames')
    ensures Later(k, k') && k'.watches.Keys == k.watches.Keys && k'.late == k.late && k.moved <= k'.moved
    ensures log <= log' && renames <= renames'
  {
  }

  /** Every queue with a watch, a report or a mark was opened. */
  ghost predicate QueuesKnown(k: Kernel, nextQueue: nat) {
    && (forall q :: q in k.watches ==> q < nextQueue)
    && (forall q :: q in k.dirty + k.late + k.moved ==> q in k.watches)
  }

  lemma OnwardKnown(k: Kernel, log: seq<string>, renames: nat, k': Kernel, log': seq<string>, renames': nat,
                    nextQueue: nat, op: Op)
    requires Onward(k, log, renames, k', log', renames') && k' == Change(k, op) && QueuesKnown(k, nextQueue)
    ensures Later(k, k') && k'.late == k.late && k.moved <= k'.moved && QueuesKnown(k', nextQueue) && log <= log'
  {
  }

  lemma NextUnused(k: Kernel, nextQueue: nat, entries: seq<Entry>)
    requires QueuesKnown(k, nextQueue) && EntriesCurrent(k, entries)
    ensures NoneUses(entries, nextQueue) && nextQueue !in k.watches && nextQueue !in k.late + k.moved
  {
    forall i | 0 <= i < |entries| && entries[i].occupied
      ensures entries[i].queue != nextQueue
    {
      assert EntryCurrent(k, entries[i]);
    }
  }

  lemma WatchAdded(k: Kernel, k': Kernel, queue: nat, target: Path)
    requires queue in k.watches && k' == k.(watches := k.watches[queue := k.watches[queue] + {target}])
    ensures Later(k, k') && k'.watches.Keys == k.watches.Keys
  {
  }

  lemma OnwardWatch(k0: Kernel, log0: seq<string>, renames0: nat, k: Kernel, log: seq<string>, renames: nat, k': Kernel)
    requires Onward(k0, log0, renames0, k, log, renames) && Later(k, k')
    requires k' == k.(watches := k'.watches) && k'.watches.Keys == k.watches.Keys
    ensures Onward(k0, log0, renames0, k', log, renames)
  {
    hide Later, Lost;
    LaterTransitive(k0, k, k');
  }

  lemma LookStarts(k: Kernel, queue: nat, seen: set<Path>, path: Path)
    ensures Looking(k, queue, seen, path, path)
  {
  }

  lemma KnownStays(k0: Kernel, k: Kernel, queue: nat, first: Path)
    requires Known(k0, queue, {first}) && Later(k0, k)
    ensures queue in k.watches && (Silent(k, queue) ==> first in k.watches[queue])
  {
    hide WatchTarget, View, Walked;
    assert first in {first};
  }

  lemma KnownLater(k0: Kernel, k: Kernel, queue: nat, first: Path)
    requires Known(k0, queue, {first}) && Later(k0, k)
    ensures Known(k, queue, {first})
  {
    hide WatchTarget, View, Walked;
    assert first in {first};
  }

  lemma AgreesStarts(k: Kernel, log: seq<string>, path: Path, size: nat, stamp: nat)
    requires Logged(k.fs, log) && Lookup(k.fs, path).Content?
    requires size == |Lookup(k.fs, path).data| && stamp == Lookup(k.fs, path).stamp
    ensures Agrees(k, log, path, stamp, size, "")
  {
    assert path in k.fs && k.fs[path].File?;
  }

  lemma AgreesApart(k: Kernel, late: set<nat>, log: seq<string>, path: Path, stamp: nat, size: nat, loaded: string)
    ensures Agrees(k.(late := late), log, path, stamp, size, loaded) <==> Agrees(k, log, path, stamp, size, loaded)
  {
  }

  lemma AgreesCarried(r0: nat, k: Kernel, log: seq<string>, r: nat, k': Kernel, log': seq<string>, r': nat, path: Path,
                      stamp: nat, size: nat, loaded: string)
    requires Onward(k, log, r, k', log', r') && r0 <= r && (r == r0 ==> Agrees(k, log, path, stamp, size, loaded))
    ensures r' == r0 ==> Agrees(k', log', path, stamp, size, loaded)
  {
    if r' == r0 {
      AgreesStays(k, log, r, k', log', path, stamp, size, loaded);
    }
  }

  /** A stamp that is there tells what the file holds. */
  lemma StampTells(fs: Tree, log: seq<string>, path: Path, stamp: nat)
    requires Logged(fs, log) && Lookup(fs, path).Content? && Lookup(fs, path).stamp == stamp
    ensures stamp < |log| && Lookup(fs, path) == Content(log[stamp], stamp) && !Lost(fs, path, stamp)
  {
    assert path in fs && fs[path].File?;
  }

  lemma AgreesEnds(k: Kernel, log: seq<string>, path: Path, stamp: nat, size: nat, loaded: string)
    requires Logged(k.fs, log) && Lookup(k.fs, path).Content? && Lookup(k.fs, path).stamp == stamp && |loaded| == size
    ensures stamp < |log|
    ensures Agrees(k, log, path, stamp, size, loaded) ==>
              log[stamp] == loaded && Lookup(k.fs, path) == Content(loaded, stamp)
  {
    StampTells(k.fs, log, path, stamp);
  }

  lemma HoldsStarts(k0: Kernel, k: Kernel, queue: nat, path: Path, data: string, stamp: nat)
    requires Later(k0, k) && k.late == k0.late && queue in k0.watches && Lookup(k.fs, path) == Content(data, stamp)
    requires Silent(k0, queue) && queue !in k0.late ==> Covers(k0, queue, path)
    ensures Holds(k, queue, path, data, stamp, "")
  {
    hide WatchTarget;
  }

  lemma HoldsEnds(k: Kernel, queue: nat, path: Path, data: string, held: nat, loaded: string, stamp: nat)
    requires Holds(k, queue, path, data, held, loaded) && |loaded| == |data|
    requires Lookup(k.fs, path).Content? && Lookup(k.fs, path).stamp == stamp
    ensures Holds(k, queue, path, loaded, stamp, loaded)
  {
    hide WatchTarget, Lookup;
    assert loaded <= data ==> loaded == data;
  }

  /** What was read under a silent watch in time is there, and was written under
      its stamp. */
  lemma LoadedHere(k: Kernel, log: seq<string>, queue: nat, path: Path, data: string, stamp: nat)
    requires Logged(k.fs, log) && Holds(k, queue, path, data, stamp, data) && stamp < |log|
    ensures Silent(k, queue) && queue !in k.late ==>
              Lookup(k.fs, path) == Content(data, stamp) && log[stamp] == data
  {
    if Silent(k, queue) && queue !in k.late {
      StampTells(k.fs, log, path, stamp);
    }
  }

  lemma EntryHolds(k: Kernel, e: Entry)
    requires e.occupied && e.queue in k.watches && Holds(k, e.queue, e.path, e.content, e.stamp, e.content)
    ensures EntryCurrent(k, e)
  {
  }

  /** An entry not judged torn holds what was written under its stamp. */
  lemma EntryGenuine(k1: Kernel, k: Kernel, log1: seq<string>, log: seq<string>, torn: set<nat>, e: Entry, steady: bool)
    requires Later(k1, k) && k.late == k1.late && e.queue in k1.watches && e.queue !in k.dirty
    requires e.stamp < |log1| && log1 <= log
    requires Silent(k1, e.queue) && e.queue !in k1.late ==> log1[e.stamp] == e.content
    requires steady ==> log1[e.stamp] == e.content
    requires e.queue !in torn ==> steady || e.queue !in k.late + k.moved
    ensures Genuine(log, torn, e)
    ensures e.queue !in torn ==> steady || (Silent(k1, e.queue) && e.queue !in k1.late)
  {
  }
}
