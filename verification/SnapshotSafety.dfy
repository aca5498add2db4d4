/** The snapshot cache is safe under every interleaving. */
module SnapshotSafety {
  import opened Wrappers
  import opened SnapshotCache

  // ---- Facts about single updates

  lemma HoldersUnchanged(tasks: map<nat, Task>, t: nat, task: Task, i: nat)
    requires !Holds(task, i) && (t in tasks ==> !Holds(tasks[t], i))
    ensures Holders(tasks[t := task], i) == Holders(tasks, i)
  {
  }

  lemma HoldersGrow(tasks: map<nat, Task>, t: nat, task: Task, i: nat)
    requires Holds(task, i) && (t in tasks ==> !Holds(tasks[t], i))
    ensures |Holders(tasks[t := task], i)| == |Holders(tasks, i)| + 1
  {
    assert Holders(tasks[t := task], i) == Holders(tasks, i) + {t};
  }

  lemma HoldersShrink(tasks: map<nat, Task>, t: nat, i: nat)
    requires t in tasks
    ensures |Holders(tasks - {t}, i)| == |Holders(tasks, i)| - if Holds(tasks[t], i) then 1 else 0
  {
    assert Holders(tasks - {t}, i) == Holders(tasks, i) - {t};
  }

  /** The same files in the same slots, whatever the counters say. */
  predicate SameFiles(slots: seq<Slot>, slots': seq<Slot>) {
    |slots| == |slots'| &&
    forall i :: 0 <= i < |slots| ==> slots'[i].data == slots[i].data && slots'[i].path == slots[i].path &&
                                     slots'[i].id == slots[i].id
  }

  /** The parts of the invariant that do not depend on counters: task `t`
      moves, keeping its own region. */
  lemma PlacesKept(s: State, s': State, t: nat)
    requires Placed(s.slots, s.tasks, s.mapped) && Apart(s.slots, s.tasks) && Named(s) && Unique(s.slots)
    requires SameFiles(s.slots, s'.slots) && s'.mapped == s.mapped && s'.origin == s.origin
    requires forall u :: u != t ==> (u in s'.tasks <==> u in s.tasks) && (u in s.tasks ==> s'.tasks[u] == s.tasks[u])
    requires forall m: nat :: OwnedBy(s'.tasks, m, t) <==> OwnedBy(s.tasks, m, t)
    requires t in s.tasks && t in s'.tasks && Own(s.tasks[t]).Some? ==>
               s'.tasks[t].path == s.tasks[t].path && s'.tasks[t].id == s.tasks[t].id
    ensures Placed(s'.slots, s'.tasks, s'.mapped) && Apart(s'.slots, s'.tasks) && Named(s') && Unique(s'.slots)
  {
    forall i: nat, m: nat
      ensures InSlot(s'.slots, m, i) <==> InSlot(s.slots, m, i)
    {
    }
    forall u: nat, m: nat
      ensures OwnedBy(s'.tasks, m, u) <==> OwnedBy(s.tasks, m, u)
    {
    }
    forall m | m in s'.mapped
      ensures (exists i: nat :: InSlot(s'.slots, m, i)) || (exists u: nat :: OwnedBy(s'.tasks, m, u))
    {
      if i: nat :| InSlot(s.slots, m, i) {
        assert InSlot(s'.slots, m, i);
      } else {
        var u: nat :| OwnedBy(s.tasks, m, u);
        assert OwnedBy(s'.tasks, m, u);
      }
    }
  }

  /** A task that neither gains nor loses a handle or a region. */
  lemma QuietStep(s: State, t: nat, task: Task)
    requires Inv(s) && !task.stage.Using? && FoundValid(s.slots, task)
    requires t in s.tasks ==> !s.tasks[t].stage.Using? && task.path == s.tasks[t].path && task.id == s.tasks[t].id
    requires Own(task) == if t in s.tasks then Own(s.tasks[t]) else None
    requires Locked(s.tasks[t := task])
    ensures Inv(s.(tasks := s.tasks[t := task]))
  {
    hide Placed, Apart, Named, Unique, Locked, FoundValid, Conserved, SameFiles;
    var s' := s.(tasks := s.tasks[t := task]);
    assert SameFiles(s.slots, s'.slots) by {
      SameSlots(s.slots);
    }
    PlacesKept(s, s', t);
    forall i | 0 <= i < SLOTS
      ensures s'.slots[i].references == |Holders(s'.tasks, i)|
    {
      HoldersUnchanged(s.tasks, t, task, i);
    }
    assert Conserved(s') by {
      ConservedSame(s, s');
    }
  }

  lemma SameSlots(slots: seq<Slot>)
    ensures SameFiles(slots, slots)
  {
  }

  lemma ConservedSame(s: State, s': State)
    requires Conserved(s) && s'.mapped == s.mapped && s'.unmapped == s.unmapped && s'.next == s.next
    ensures Conserved(s')
  {
  }

  lemma HandlesKept(slots: seq<Slot>, slots': seq<Slot>, tasks: map<nat, Task>)
    requires SameFiles(slots, slots') && Handles(slots, tasks)
    ensures Handles(slots', tasks)
  {
  }

  lemma NothingFound(slots: seq<Slot>, tasks: map<nat, Task>)
    requires NoWriter(tasks)
    ensures Found(slots, tasks)
  {
  }

  lemma UnlockedTask(tasks: map<nat, Task>, t: nat, task: Task)
    requires Locked(tasks) && !ReadLocked(task) && !WriteLocked(task)
    ensures Locked(tasks[t := task]) && Locked(tasks - {t})
  {
  }

  lemma OnlyLockHolder(tasks: map<nat, Task>, t: nat, task: Task)
    requires Locked(tasks) && t in tasks && (ReadLocked(tasks[t]) || WriteLocked(tasks[t])) && !WriteLocked(task)
    ensures NoWriter(tasks[t := task])
  {
  }

  /** One more reference, one more holder. */
  lemma AcquireCounts(s: State, t: nat, task: Task, i: nat)
    requires |s.slots| == SLOTS && Counted(s) && i < SLOTS && s.slots[i].data.Some?
    requires t in s.tasks && !s.tasks[t].stage.Using?
    ensures Counted(Acquire(s, t, task, i))
  {
    var s' := Acquire(s, t, task, i);
    forall j | 0 <= j < SLOTS
      ensures s'.slots[j].references == |Holders(s'.tasks, j)|
    {
      if j == i {
        HoldersGrow(s.tasks, t, s'.tasks[t], j);
      } else {
        HoldersUnchanged(s.tasks, t, s'.tasks[t], j);
      }
    }
  }

  lemma HitStep(s: State, t: nat, i: nat)
    requires Inv(s) && t in s.tasks && s.tasks[t].stage == Reading(i) && i < SLOTS
    requires Same(s.slots[i], s.tasks[t].path, s.tasks[t].id)
    ensures Inv(Acquire(s, t, s.tasks[t], i))
  {
    hide Placed, Apart, Named, Unique, Locked, Found, Counted, Handles, Conserved;
    var task := s.tasks[t];
    var s' := Acquire(s, t, task, i);
    AcquireCounts(s, t, task, i);
    UnlockedTask(s.tasks, t, s'.tasks[t]);
    OnlyLockHolder(s.tasks, t, s'.tasks[t]);
    NothingFound(s'.slots, s'.tasks);
    HandlesKept(s.slots, s'.slots, s.tasks);
    HandlesWith(s'.slots, s.tasks, t, s'.tasks[t]);
    PlacesKept(s, s', t);
    ConservedSame(s, s');
  }

  lemma HandlesWith(slots: seq<Slot>, tasks: map<nat, Task>, t: nat, task: Task)
    requires Handles(slots, tasks)
    ensures HandleValid(slots, task) ==> Handles(slots, tasks[t := task])
    ensures Handles(slots, tasks - {t})
  {
  }

  /** A task gives up its own region, which is unmapped. */
  lemma PlacesDropped(s: State, s': State, t: nat, m: nat)
    requires Placed(s.slots, s.tasks, s.mapped) && Apart(s.slots, s.tasks) && Named(s) && Unique(s.slots)
    requires SameFiles(s.slots, s'.slots) && s'.mapped == s.mapped - {m} && s'.origin == s.origin
    requires forall u :: u != t ==> (u in s'.tasks <==> u in s.tasks) && (u in s.tasks ==> s'.tasks[u] == s.tasks[u])
    requires OwnedBy(s.tasks, m, t) && (t in s'.tasks ==> Own(s'.tasks[t]).None?)
    ensures Placed(s'.slots, s'.tasks, s'.mapped) && Apart(s'.slots, s'.tasks) && Named(s') && Unique(s'.slots)
    ensures m in s.mapped
  {
    forall i: nat, k: nat
      ensures InSlot(s'.slots, k, i) <==> InSlot(s.slots, k, i)
    {
    }
    forall u: nat, k: nat
      ensures OwnedBy(s'.tasks, k, u) <==> u != t && OwnedBy(s.tasks, k, u)
    {
    }
    forall k | k in s'.mapped
      ensures (exists i: nat :: InSlot(s'.slots, k, i)) || (exists u: nat :: OwnedBy(s'.tasks, k, u))
    {
      if i: nat :| InSlot(s.slots, k, i) {
        assert InSlot(s'.slots, k, i);
      } else {
        var u: nat :| OwnedBy(s.tasks, k, u);
        assert OwnedBy(s'.tasks, k, u);
      }
    }
  }

  lemma UnmapConserves(s: State, m: nat)
    requires Conserved(s) && m in s.mapped
    ensures Conserved(Unmap(s, m))
  {
  }

  lemma TouchKeeps(s: State, i: nat)
    requires |s.slots| == SLOTS && i < SLOTS && Counted(s)
    ensures Counted(Touch(s, i)) && SameFiles(s.slots, Touch(s, i).slots)
  {
  }

  /** The file is there by now: the call's own mapping is dropped. */
  lemma RacedStep(s: State, t: nat, m: nat, i: nat)
    requires Inv(s) && t in s.tasks && s.tasks[t].stage == Matching(m, i) && i < SLOTS
    requires Same(s.slots[i], s.tasks[t].path, s.tasks[t].id)
    ensures Inv(Acquire(Touch(Unmap(s, m), i), t, s.tasks[t], i))
    ensures m in s.mapped
  {
    hide Placed, Apart, Named, Unique, Locked, Found, Counted, Handles, Conserved;
    var task := s.tasks[t];
    var touched := Touch(Unmap(s, m), i);
    var s' := Acquire(touched, t, task, i);
    assert Counted(Unmap(s, m)) by {
      CountedSame(s, Unmap(s, m));
    }
    TouchKeeps(Unmap(s, m), i);
    AcquireCounts(touched, t, task, i);
    UnlockedTask(s.tasks, t, s'.tasks[t]);
    OnlyLockHolder(s.tasks, t, s'.tasks[t]);
    NothingFound(s'.slots, s'.tasks);
    HandlesKept(s.slots, s'.slots, s.tasks);
    HandlesWith(s'.slots, s.tasks, t, s'.tasks[t]);
    PlacesDropped(s, s', t, m);
    UnmapConserves(s, m);
    ConservedSame(Unmap(s, m), s');
  }

  lemma CountedSame(s: State, s': State)
    requires |s.slots| == SLOTS && Counted(s) && s'.slots == s.slots && s'.tasks == s.tasks
    ensures Counted(s')
  {
  }

  /** A call that fails leaves nothing behind. */
  lemma GoneStep(s: State, t: nat)
    requires Inv(s) && t in s.tasks && s.tasks[t].stage.Refreshing?
    ensures Inv(s.(tasks := s.tasks - {t}))
  {
    hide Placed, Apart, Named, Unique, Locked, Handles, Conserved;
    var s' := s.(tasks := s.tasks - {t});
    forall j | 0 <= j < SLOTS
      ensures s'.slots[j].references == |Holders(s'.tasks, j)|
    {
      HoldersShrink(s.tasks, t, j);
    }
    UnlockedTask(s.tasks, t, s.tasks[t]);
    HandlesWith(s.slots, s.tasks, t, s.tasks[t]);
    SameSlots(s.slots);
    PlacesKept(s, s', t);
    ConservedSame(s, s');
  }

  /** A newly mapped region has one place: the call that mapped it. */
  lemma PlacesMapped(s: State, s': State, t: nat, m: nat)
    requires Placed(s.slots, s.tasks, s.mapped) && Apart(s.slots, s.tasks) && Named(s)
    requires s'.slots == s.slots && m !in s.mapped && s'.mapped == s.mapped + {m}
    requires t in s.tasks && Own(s.tasks[t]).None? && t in s'.tasks && Own(s'.tasks[t]) == Some(m)
    requires s'.tasks == s.tasks[t := s'.tasks[t]] && s'.origin == s.origin[m := (s'.tasks[t].path, s'.tasks[t].id)]
    ensures Placed(s'.slots, s'.tasks, s'.mapped) && Apart(s'.slots, s'.tasks) && Named(s')
  {
    forall u: nat, k: nat
      ensures OwnedBy(s'.tasks, k, u) <==> (u == t && k == m) || OwnedBy(s.tasks, k, u)
    {
    }
    forall k | k in s'.mapped
      ensures (exists i: nat :: InSlot(s'.slots, k, i)) || (exists u: nat :: OwnedBy(s'.tasks, k, u))
    {
      if k == m {
        assert OwnedBy(s'.tasks, m, t);
      } else if u: nat :| OwnedBy(s.tasks, k, u) {
        assert OwnedBy(s'.tasks, k, u);
      }
    }
  }

  lemma MapStep(s: State, t: nat, id: Identity)
    requires Inv(s) && t in s.tasks && s.tasks[t].stage.Refreshing?
    ensures Inv(Refresh(s, t, s.tasks[t], Some(id)))
  {
    hide Placed, Apart, Named, Unique, Locked, Handles;
    var s' := Refresh(s, t, s.tasks[t], Some(id));
    forall j | 0 <= j < SLOTS
      ensures s'.slots[j].references == |Holders(s'.tasks, j)|
    {
      HoldersUnchanged(s.tasks, t, s'.tasks[t], j);
    }
    UnlockedTask(s.tasks, t, s'.tasks[t]);
    HandlesWith(s.slots, s.tasks, t, s'.tasks[t]);
    PlacesMapped(s, s', t, s.next);
  }

  /** No slot to reuse: the caller keeps its own mapping. */
  lemma KeepStep(s: State, t: nat, m: nat, i: nat)
    requires Inv(s) && t in s.tasks && s.tasks[t].stage == Picking(m, i, None)
    ensures Inv(At(s, t, s.tasks[t], Using(Handle(m, s.tasks[t].id.size, false, None))))
  {
    hide Placed, Apart, Named, Unique, Locked, Handles, Conserved;
    var s' := At(s, t, s.tasks[t], Using(Handle(m, s.tasks[t].id.size, false, None)));
    forall j | 0 <= j < SLOTS
      ensures s'.slots[j].references == |Holders(s'.tasks, j)|
    {
      HoldersUnchanged(s.tasks, t, s'.tasks[t], j);
    }
    UnlockedTask(s.tasks, t, s'.tasks[t]);
    HandlesWith(s.slots, s.tasks, t, s'.tasks[t]);
    SameSlots(s.slots);
    PlacesKept(s, s', t);
    ConservedSame(s, s');
  }

  // ---- Storing

  /** The call's region has taken the slot's place, and the slot's old region, if
      any, has none. */
  ghost predicate Stored(s: State, s': State, t: nat, m: nat, i: nat) {
    && OwnedBy(s.tasks, m, t) && i < |s.slots|
    && t in s'.tasks && s'.tasks == s.tasks[t := s'.tasks[t]] && Own(s'.tasks[t]).None?
    && i < |s'.slots| && s'.slots == s.slots[i := s'.slots[i]] && s'.slots[i].data == Some(m)
    && s'.slots[i].path == s.tasks[t].path && s'.slots[i].id == s.tasks[t].id
    && s'.mapped == (if s.slots[i].data.Some? then s.mapped - {s.slots[i].data.value} else s.mapped)
    && s'.origin == s.origin
  }

  lemma StoredSlot(s: State, s': State, t: nat, m: nat, i: nat, j: nat, k: nat)
    requires Stored(s, s', t, m, i)
    ensures InSlot(s'.slots, k, j) <==> (j == i && k == m) || (j != i && InSlot(s.slots, k, j))
    ensures InSlot(s'.slots, k, j) && j != i ==> s'.slots[j] == s.slots[j]
    ensures k in s'.mapped <==> k in s.mapped && !InSlot(s.slots, k, i)
  {
  }

  lemma StoredOwn(s: State, s': State, t: nat, m: nat, i: nat, u: nat, k: nat)
    requires Stored(s, s', t, m, i)
    ensures OwnedBy(s'.tasks, k, u) <==> u != t && OwnedBy(s.tasks, k, u)
    ensures OwnedBy(s'.tasks, k, u) ==> s'.tasks[u] == s.tasks[u]
  {
  }

  lemma StoredPlaced(s: State, s': State, t: nat, m: nat, i: nat)
    requires Placed(s.slots, s.tasks, s.mapped) && Apart(s.slots, s.tasks) && Stored(s, s', t, m, i)
    ensures Placed(s'.slots, s'.tasks, s'.mapped)
  {
    assert OwnedBy(s.tasks, m, t);
    hide Stored, InSlot, OwnedBy;
    forall j: nat, k: nat | InSlot(s'.slots, k, j)
      ensures k in s'.mapped
    {
      StoredSlot(s, s', t, m, i, j, k);
    }
    forall u: nat, k: nat | OwnedBy(s'.tasks, k, u)
      ensures k in s'.mapped
    {
      StoredOwn(s, s', t, m, i, u, k);
      StoredSlot(s, s', t, m, i, i, k);
    }
    forall k | k in s'.mapped
      ensures (exists j: nat :: InSlot(s'.slots, k, j)) || (exists u: nat :: OwnedBy(s'.tasks, k, u))
    {
      StoredSlot(s, s', t, m, i, i, k);
      if j: nat :| InSlot(s.slots, k, j) {
        StoredSlot(s, s', t, m, i, j, k);
      } else {
        var u: nat :| OwnedBy(s.tasks, k, u);
        StoredOwn(s, s', t, m, i, u, k);
        if u == t {
          SameOwn(s.tasks, m, k, t);
        }
      }
    }
  }

  lemma SameOwn(tasks: map<nat, Task>, m: nat, k: nat, t: nat)
    requires OwnedBy(tasks, m, t) && OwnedBy(tasks, k, t)
    ensures m == k
  {
  }

  lemma StoredApart(s: State, s': State, t: nat, m: nat, i: nat)
    requires Apart(s.slots, s.tasks) && Stored(s, s', t, m, i)
    ensures Apart(s'.slots, s'.tasks)
  {
    assert OwnedBy(s.tasks, m, t);
    hide Stored, InSlot, OwnedBy;
    forall j: nat, l: nat, k: nat | InSlot(s'.slots, k, j) && InSlot(s'.slots, k, l)
      ensures j == l
    {
      StoredSlot(s, s', t, m, i, j, k);
      StoredSlot(s, s', t, m, i, l, k);
    }
    forall u: nat, v: nat, k: nat | OwnedBy(s'.tasks, k, u) && OwnedBy(s'.tasks, k, v)
      ensures u == v
    {
      StoredOwn(s, s', t, m, i, u, k);
      StoredOwn(s, s', t, m, i, v, k);
    }
    forall j: nat, u: nat, k: nat | InSlot(s'.slots, k, j)
      ensures !OwnedBy(s'.tasks, k, u)
    {
      StoredSlot(s, s', t, m, i, j, k);
      StoredOwn(s, s', t, m, i, u, k);
    }
  }

  lemma StoredNamed(s: State, s': State, t: nat, m: nat, i: nat)
    requires Named(s) && Stored(s, s', t, m, i)
    ensures Named(s')
  {
    assert OwnedBy(s.tasks, m, t) && s'.origin == s.origin;
    forall j: nat, k: nat | InSlot(s'.slots, k, j)
      ensures k in s'.origin && s'.origin[k] == (s'.slots[j].path, s'.slots[j].id)
    {
      StoredSlot(s, s', t, m, i, j, k);
    }
    forall u: nat, k: nat | OwnedBy(s'.tasks, k, u)
      ensures k in s'.origin && s'.origin[k] == (s'.tasks[u].path, s'.tasks[u].id)
    {
      StoredOwn(s, s', t, m, i, u, k);
    }
  }

  /** Nobody borrows from the slot, so nobody's region changes under it. */
  lemma StoreHandles(s: State, slots': seq<Slot>, t: nat, task: Task, i: nat)
    requires |s.slots| == SLOTS && Counted(s) && Handles(s.slots, s.tasks) && i < SLOTS && s.slots[i].references == 0
    requires |slots'| == SLOTS && slots' == s.slots[i := slots'[i]] && HandleValid(slots', task)
    ensures Handles(slots', s.tasks[t := task])
  {
    assert Holders(s.tasks, i) == {};
    forall u | u in s.tasks && u != t
      ensures HandleValid(slots', s.tasks[u])
    {
      assert u !in Holders(s.tasks, i);
    }
  }

  lemma StoreCounts(s: State, t: nat, m: nat, i: nat)
    requires |s.slots| == SLOTS && Counted(s) && i < SLOTS && s.slots[i].references == 0
    requires t in s.tasks && !s.tasks[t].stage.Using?
    ensures Counted(Store(s, t, s.tasks[t], m, i))
  {
    var s' := Store(s, t, s.tasks[t], m, i);
    forall j | 0 <= j < SLOTS
      ensures s'.slots[j].references == |Holders(s'.tasks, j)|
    {
      if j == i {
        HoldersGrow(s.tasks, t, s'.tasks[t], j);
      } else {
        HoldersUnchanged(s.tasks, t, s'.tasks[t], j);
      }
    }
  }

  lemma StoreUnique(slots: seq<Slot>, i: nat, slot: Slot)
    requires Unique(slots) && i < |slots| && NoneSame(slots, |slots|, slot.path, slot.id)
    ensures Unique(slots[i := slot])
  {
    var slots' := slots[i := slot];
    forall j, k | 0 <= j < |slots| && 0 <= k < |slots| && j != k && slots'[j].data.Some?
      ensures !Same(slots'[k], slots'[j].path, slots'[j].id)
    {
    }
  }

  lemma StoreConserves(s: State, s': State, i: nat)
    requires Conserved(s) && Placed(s.slots, s.tasks, s.mapped) && i < |s.slots| && s'.next == s.next
    requires s'.mapped == (if s.slots[i].data.Some? then s.mapped - {s.slots[i].data.value} else s.mapped)
    requires s'.unmapped == (if s.slots[i].data.Some? then s.unmapped + {s.slots[i].data.value} else s.unmapped)
    ensures Conserved(s') && (s.slots[i].data.Some? ==> s.slots[i].data.value in s.mapped)
  {
    if s.slots[i].data.Some? {
      assert InSlot(s.slots, s.slots[i].data.value, i);
    }
  }

  lemma StoreStep(s: State, t: nat, m: nat, i: nat)
    requires Inv(s) && t in s.tasks && s.tasks[t].stage == Storing(m, i)
    ensures i < SLOTS && Inv(Store(s, t, s.tasks[t], m, i))
    ensures s.slots[i].data.Some? ==> s.slots[i].data.value in s.mapped
  {
    hide Placed, Apart, Named, Unique, Locked, Counted, Handles, Conserved, NoneSame;
    var task := s.tasks[t];
    assert FoundValid(s.slots, task);
    hide Found, FoundValid;
    var s' := Store(s, t, task, m, i);
    var slot := s'.slots[i];
    assert s'.slots == s.slots[i := slot];
    StoreCounts(s, t, m, i);
    UnlockedTask(s.tasks, t, s'.tasks[t]);
    OnlyLockHolder(s.tasks, t, s'.tasks[t]);
    NothingFound(s'.slots, s'.tasks);
    StoreHandles(s, s'.slots, t, s'.tasks[t], i);
    StoredPlaced(s, s', t, m, i);
    StoredApart(s, s', t, m, i);
    StoredNamed(s, s', t, m, i);
    StoreUnique(s.slots, i, slot);
    StoreConserves(s, s', i);
  }

  // ---- Releasing

  /** While a handle is live its slot counts it. */
  lemma DropCounts(s: State, t: nat)
    requires |s.slots| == SLOTS && Counted(s) && Handles(s.slots, s.tasks) && t in s.tasks && s.tasks[t].stage.Using?
    ensures Counted(Drop(s, t, s.tasks[t].stage.h))
  {
    var s' := Drop(s, t, s.tasks[t].stage.h);
    forall j | 0 <= j < SLOTS
      ensures s'.slots[j].references == |Holders(s'.tasks, j)|
    {
      HoldersShrink(s.tasks, t, j);
    }
  }

  lemma DropFound(s: State, t: nat)
    requires Found(s.slots, s.tasks) && t in s.tasks && s.tasks[t].stage.Using?
    ensures Found(Drop(s, t, s.tasks[t].stage.h).slots, s.tasks - {t})
  {
    var s' := Drop(s, t, s.tasks[t].stage.h);
    forall u | u in s.tasks && u != t
      ensures FoundValid(s'.slots, s.tasks[u])
    {
      assert FoundValid(s.slots, s.tasks[u]);
    }
  }

  lemma DropStep(s: State, t: nat)
    requires Inv(s) && t in s.tasks && s.tasks[t].stage.Using?
    ensures Inv(Drop(s, t, s.tasks[t].stage.h))
    ensures s.tasks[t].stage.h.data in s.mapped
  {
    hide Placed, Apart, Named, Unique, Locked, Counted, Found, Conserved;
    var h := s.tasks[t].stage.h;
    var s' := Drop(s, t, h);
    assert HandleValid(s.slots, s.tasks[t]);
    DropCounts(s, t);
    DropFound(s, t);
    UnlockedTask(s.tasks, t, Task("", s.tasks[t].id, Looking));
    HandlesKept(s.slots, s'.slots, s.tasks);
    HandlesWith(s'.slots, s.tasks, t, s.tasks[t]);
    if h.token.Some? {
      PlacesKept(s, s', t);
      ConservedSame(s, s');
      BorrowedIsMapped(s, h.token.value, h.data);
    } else {
      PlacesDropped(s, s', t, h.data);
      UnmapConserves(s, h.data);
      ConservedSame(Unmap(s, h.data), s');
    }
  }

  lemma BorrowedIsMapped(s: State, i: nat, m: nat)
    requires Placed(s.slots, s.tasks, s.mapped) && i < |s.slots| && s.slots[i].data == Some(m)
    ensures m in s.mapped
  {
    assert InSlot(s.slots, m, i);
  }

  // ---- Every action, every run

  lemma LockMoves(tasks: map<nat, Task>, t: nat, task: Task)
    requires Locked(tasks) && t in tasks
    requires ReadLocked(task) ==> ReadLocked(tasks[t])
    requires WriteLocked(task) ==> WriteLocked(tasks[t])
    ensures Locked(tasks[t := task])
  {
  }

  lemma LocksTaken(tasks: map<nat, Task>, t: nat, task: Task)
    requires t in tasks && Locked(tasks)
    requires if WriteLocked(task) then NoLock(tasks) else NoWriter(tasks)
    ensures Locked(tasks[t := task])
  {
  }

  lemma ReadKeeps(s: State, t: nat, i: nat)
    requires Inv(s) && t in s.tasks && s.tasks[t].stage == Reading(i)
    ensures Inv(Read(s, t, s.tasks[t], i))
  {
    hide Inv, Locked;
    assert Inv(s) ==> |s.slots| == SLOTS && Locked(s.tasks) by {
      Unfold(s);
    }
    var task := s.tasks[t];
    if i < |s.slots| && Same(s.slots[i], task.path, task.id) {
      HitStep(s, t, i);
    } else {
      var task' := task.(stage := if i < |s.slots| then Reading(i + 1) else Refreshing);
      LockMoves(s.tasks, t, task');
      QuietStep(s, t, task');
    }
  }

  lemma Unfold(s: State)
    ensures Inv(s) ==>
              && |s.slots| == SLOTS && Locked(s.tasks)
              && forall t :: t in s.tasks ==> FoundValid(s.slots, s.tasks[t])
  {
  }

  lemma MatchKeeps(s: State, t: nat, m: nat, i: nat)
    requires Inv(s) && t in s.tasks && s.tasks[t].stage == Matching(m, i)
    ensures Inv(Match(s, t, s.tasks[t], m, i))
  {
    hide Inv, Locked;
    Unfold(s);
    var task := s.tasks[t];
    assert FoundValid(s.slots, task);
    if i < |s.slots| && Same(s.slots[i], task.path, task.id) {
      RacedStep(s, t, m, i);
    } else {
      var task' := task.(stage := if i < |s.slots| then Matching(m, i + 1) else Picking(m, 0, None));
      LockMoves(s.tasks, t, task');
      QuietStep(s, t, task');
    }
  }

  lemma PickKeeps(s: State, t: nat, m: nat, i: nat, selected: Option<nat>)
    requires Inv(s) && t in s.tasks && s.tasks[t].stage == Picking(m, i, selected)
    ensures Inv(Pick(s, t, s.tasks[t], m, i, selected))
  {
    hide Inv, Locked, NoneSame;
    Unfold(s);
    var task := s.tasks[t];
    assert FoundValid(s.slots, task);
    if i >= |s.slots| && selected.None? {
      KeepStep(s, t, m, i);
    } else {
      var stage := Pick(s, t, task, m, i, selected).tasks[t].stage;
      LockMoves(s.tasks, t, task.(stage := stage));
      QuietStep(s, t, task.(stage := stage));
    }
  }

  lemma ActKeeps(s: State, t: nat, file: Option<Identity>)
    requires Inv(s) && t in s.tasks
    ensures Inv(Act(s, t, s.tasks[t], file))
  {
    hide Inv, Locked, Read, Match, Pick, Store, NoneSame;
    Unfold(s);
    var task := s.tasks[t];
    match task.stage
    case Looking =>
      if NoWriter(s.tasks) {
        LocksTaken(s.tasks, t, task.(stage := Reading(0)));
        QuietStep(s, t, task.(stage := Reading(0)));
      }
    case Reading(i) => ReadKeeps(s, t, i);
    case Refreshing =>
      if file.None? {
        GoneStep(s, t);
      } else {
        MapStep(s, t, file.value);
      }
    case Offering(m) =>
      if NoLock(s.tasks) {
        LocksTaken(s.tasks, t, task.(stage := Matching(m, 0)));
        NoneBefore(s.slots, task.path, task.id);
        QuietStep(s, t, task.(stage := Matching(m, 0)));
      }
    case Matching(m, i) => MatchKeeps(s, t, m, i);
    case Picking(m, i, selected) => PickKeeps(s, t, m, i, selected);
    case Storing(m, i) => StoreStep(s, t, m, i);
    case Using(_) =>
  }

  lemma NoneBefore(slots: seq<Slot>, path: string, id: Identity)
    ensures NoneSame(slots, 0, path, id)
  {
  }

  /** Every action keeps the invariant. */
  lemma NextKeeps(s: State, a: Action)
    requires Inv(s)
    ensures Inv(Next(s, a))
  {
    hide Inv, Act, Drop, Locked;
    Unfold(s);
    match a
    case Start(t, path, id) =>
      if t !in s.tasks {
        StartLocks(s.tasks, t, Task(path, id, Looking));
        QuietStep(s, t, Task(path, id, Looking));
      }
    case Advance(t, file) =>
      if t in s.tasks {
        ActKeeps(s, t, file);
      }
    case Release(t) =>
      if t in s.tasks && s.tasks[t].stage.Using? {
        DropStep(s, t);
      }
  }

  lemma StartLocks(tasks: map<nat, Task>, t: nat, task: Task)
    requires Locked(tasks) && !ReadLocked(task) && !WriteLocked(task)
    ensures Locked(tasks[t := task])
  {
  }

  lemma InitialInv()
    ensures Inv(INITIAL)
  {
    forall i | 0 <= i < SLOTS
      ensures INITIAL.slots[i].references == |Holders(INITIAL.tasks, i)|
    {
      assert Holders(INITIAL.tasks, i) == {};
    }
  }

  /** The invariant holds in every state of every run. */
  lemma {:induction false} RunKeeps(s: State, actions: seq<Action>)
    requires Inv(s)
    ensures Inv(Run(s, actions))
    decreases |actions|
  {
    hide Inv, Next;
    if actions != [] {
      NextKeeps(s, actions[0]);
      RunKeeps(Next(s, actions[0]), actions[1..]);
    }
  }

  // ---- What it means

  /** In every run: an entry counts exactly the live handles borrowed from it;
      a live handle's region is mapped, has never been unmapped, and maps the
      file the call found; and no two entries are of the same file. */
  lemma CacheIsSafe(actions: seq<Action>, i: nat, j: nat, t: nat)
    requires i < SLOTS && j < SLOTS
    ensures var s := Run(INITIAL, actions);
            && |s.slots| == SLOTS
            && s.slots[i].references == |Holders(s.tasks, i)|
            && (i != j && s.slots[i].data.Some? ==> !Same(s.slots[j], s.slots[i].path, s.slots[i].id))
            && (t in s.tasks && s.tasks[t].stage.Using? ==>
                  var h := s.tasks[t].stage.h;
                  && h.data in s.mapped && h.data !in s.unmapped
                  && h.data in s.origin && s.origin[h.data] == (s.tasks[t].path, s.tasks[t].id)
                  && h.len == s.tasks[t].id.size)
  {
    InitialInv();
    RunKeeps(INITIAL, actions);
    var s := Run(INITIAL, actions);
    if t in s.tasks && s.tasks[t].stage.Using? {
      LiveHandle(s, t);
    }
  }

  lemma LiveHandle(s: State, t: nat)
    requires Inv(s) && t in s.tasks && s.tasks[t].stage.Using?
    ensures var h := s.tasks[t].stage.h;
            && h.data in s.mapped && h.data !in s.unmapped
            && h.data in s.origin && s.origin[h.data] == (s.tasks[t].path, s.tasks[t].id)
            && h.len == s.tasks[t].id.size
  {
    hide Counted, Locked, Apart, Unique, Found;
    var h := s.tasks[t].stage.h;
    assert HandleValid(s.slots, s.tasks[t]);
    if h.token.Some? {
      assert InSlot(s.slots, h.data, h.token.value);
    } else {
      assert OwnedBy(s.tasks, h.data, t);
    }
  }

  /** In every run every region ever mapped is in one slot, with one task, or
      unmapped: none is lost, and none has two places. */
  lemma MappingsConserved(actions: seq<Action>, m: nat)
    ensures var s := Run(INITIAL, actions);
            && (m < s.next <==> m in s.mapped || m in s.unmapped)
            && !(m in s.mapped && m in s.unmapped)
            && (m in s.mapped <==>
                (exists i: nat :: InSlot(s.slots, m, i)) || (exists t: nat :: OwnedBy(s.tasks, m, t)))
            && forall i: nat, j: nat, t: nat, u: nat ::
                 && (InSlot(s.slots, m, i) && InSlot(s.slots, m, j) ==> i == j)
                 && (OwnedBy(s.tasks, m, t) && OwnedBy(s.tasks, m, u) ==> t == u)
                 && !(InSlot(s.slots, m, i) && OwnedBy(s.tasks, m, t))
  {
    InitialInv();
    RunKeeps(INITIAL, actions);
    hide Run;
  }

  /** The regions on which an action calls munmap. */
  function Munmaps(s: State, a: Action): set<nat> {
    match a
    case Advance(t, _) =>
      if t !in s.tasks then {}
      else (
        match s.tasks[t].stage
        case Matching(m, i) =>
          if i < |s.slots| && Same(s.slots[i], s.tasks[t].path, s.tasks[t].id) then {m} else {}
        case Storing(_, i) => if i < |s.slots| && s.slots[i].data.Some? then {s.slots[i].data.value} else {}
        case _ => {}
      )
    case Release(t) =>
      if t in s.tasks && s.tasks[t].stage.Using? && !s.tasks[t].stage.h.borrowed then {s.tasks[t].stage.h.data} else {}
    case Start(_, _, _) => {}
  }

  /** No region is unmapped twice: in every run munmap is only called on regions
      mapped at that moment, and they are exactly those that stop being mapped. */
  lemma UnmapsOnlyMapped(actions: seq<Action>, a: Action)
    ensures var s := Run(INITIAL, actions);
            && Munmaps(s, a) <= s.mapped && Munmaps(s, a) !! s.unmapped
            && Next(s, a).unmapped == s.unmapped + Munmaps(s, a)
            && Next(s, a).mapped * s.mapped == s.mapped - Munmaps(s, a)
  {
    InitialInv();
    RunKeeps(INITIAL, actions);
    MunmapsMapped(Run(INITIAL, actions), a);
  }

  lemma MunmapsMapped(s: State, a: Action)
    requires Inv(s)
    ensures Munmaps(s, a) <= s.mapped && Munmaps(s, a) !! s.unmapped
    ensures Next(s, a).unmapped == s.unmapped + Munmaps(s, a)
    ensures Next(s, a).mapped * s.mapped == s.mapped - Munmaps(s, a)
  {
    hide Inv;
    assert |s.slots| == SLOTS && Conserved(s) && Handles(s.slots, s.tasks) by {
      Parts(s);
    }
    match a
    case Advance(t, file) =>
      if t in s.tasks {
        match s.tasks[t].stage
        case Matching(m, i) =>
          if i < |s.slots| && Same(s.slots[i], s.tasks[t].path, s.tasks[t].id) {
            RacedStep(s, t, m, i);
          }
        case Storing(m, i) => StoreStep(s, t, m, i);
        case _ =>
      }
    case Release(t) =>
      if t in s.tasks && s.tasks[t].stage.Using? {
        assert HandleValid(s.slots, s.tasks[t]);
        DropStep(s, t);
      }
    case _ =>
  }

  lemma Parts(s: State)
    requires Inv(s)
    ensures |s.slots| == SLOTS && Conserved(s) && Handles(s.slots, s.tasks)
  {
  }

  // ---- Which slot is reused

  /** Among the first `i` slots, all that no handle refers to are in use, and the
      selected one is the first least recently used of them. */
  ghost predicate BestOf(slots: seq<Slot>, i: nat, selected: Option<nat>) {
    && (forall k :: 0 <= k < i && Unreferenced(slots, k) ==> selected.Some? && slots[k].data.Some?)
    && (selected.Some? ==>
          var j := selected.value;
          && j < i && Unreferenced(slots, j) && forall k: nat :: k < i && Unreferenced(slots, k) ==> Older(slots, j, k))
  }

  predicate Older(slots: seq<Slot>, j: nat, k: nat)
    requires j < |slots| && k < |slots|
  {
    slots[j].lastUsed < slots[k].lastUsed || (slots[j].lastUsed == slots[k].lastUsed && j <= k)
  }

  /** The slot to reuse: the first empty one that no handle refers to, or else the
      least recently used. */
  ghost predicate Reused(slots: seq<Slot>, j: nat) {
    && Unreferenced(slots, j)
    && (if slots[j].data.None? then forall k: nat :: k < j && Unreferenced(slots, k) ==> slots[k].data.Some?
        else forall k: nat :: Unreferenced(slots, k) ==> slots[k].data.Some? && Older(slots, j, k))
  }

  function Steps(t: nat, n: nat): seq<Action> {
    seq(n, _ => Advance(t, None))
  }

  /** A call that has mapped the file and found no entry for it, left alone, comes
      to reuse a slot chosen so, or keeps its mapping to itself if every slot is
      referred to. */
  lemma {:induction false} PickReuses(s: State, t: nat, m: nat, i: nat, selected: Option<nat>) returns (n: nat)
    requires t in s.tasks && s.tasks[t].stage == Picking(m, i, selected)
    requires i <= |s.slots| && BestOf(s.slots, i, selected)
    ensures var s' := Run(s, Steps(t, n));
            && s'.slots == s.slots && t in s'.tasks
            && (s'.tasks[t].stage == Using(Handle(m, s.tasks[t].id.size, false, None)) ||
                exists j :: s'.tasks[t].stage == Storing(m, j) && Reused(s.slots, j))
            && (s'.tasks[t].stage.Using? <==> forall k :: !Unreferenced(s.slots, k))
    decreases |s.slots| - i
  {
    var next := Next(s, Advance(t, None));
    var stage := next.tasks[t].stage;
    PickStep(s, t, m, i, selected);
    if stage.Picking? {
      var later := PickReuses(next, t, m, i + 1, stage.selected);
      n := later + 1;
    } else {
      n := 1;
    }
    assert Steps(t, n)[1..] == Steps(t, n - 1);
  }

  lemma PickStep(s: State, t: nat, m: nat, i: nat, selected: Option<nat>)
    requires t in s.tasks && s.tasks[t].stage == Picking(m, i, selected)
    requires i <= |s.slots| && BestOf(s.slots, i, selected)
    ensures var s' := Next(s, Advance(t, None));
            && s'.slots == s.slots && t in s'.tasks && s'.tasks[t].id == s.tasks[t].id
            && match s'.tasks[t].stage
               case Picking(m', i', selected') => m' == m && i' == i + 1 <= |s.slots| && BestOf(s.slots, i', selected')
               case Storing(m', j) => m' == m && Reused(s.slots, j)
               case Using(h) => h == Handle(m, s.tasks[t].id.size, false, None) && forall k :: !Unreferenced(s.slots, k)
               case _ => false
  {
  }
}
