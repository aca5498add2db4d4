/** The cache as its process keeps it: the entries and the clock are changed in
    place, one action at a time. */
module SharedSnapshots {
  import opened Wrappers
  import opened SnapshotCache
  import opened SnapshotSafety

  class Cache {
    const slots: array<Slot>
    var clock: nat
    var tasks: map<nat, Task>
    var mapped: set<nat>
    var unmapped: set<nat>
    var next: nat
    var origin: map<nat, (string, Identity)>

    /** The state all threads share. */
    function Here(): State
      reads this, slots
    {
      State(slots[..], tasks, clock, mapped, unmapped, next, origin)
    }

    ghost predicate Valid()
      reads this, slots
    {
      slots.Length == SLOTS && Inv(Here())
    }

    constructor ()
      ensures Valid() && fresh(slots) && Here() == INITIAL
    {
      slots := new Slot[SLOTS](_ => EMPTY);
      clock, tasks, mapped, unmapped, next, origin := 0, map[], {}, {}, 0, map[];
      new;
      InitialInv();
      assert slots[..] == INITIAL.slots;
    }

    method Enter(t: nat, task: Task, stage: Stage)
      modifies `tasks
      ensures Here() == At(old(Here()), t, task, stage)
    {
      tasks := tasks[t := task.(stage := stage)];
    }

    method Munmap(m: nat)
      requires m in mapped
      modifies `mapped, `unmapped
      ensures Here() == Unmap(old(Here()), m)
    {
      mapped, unmapped := mapped - {m}, unmapped + {m};
    }

    method AddReference(t: nat, task: Task, i: nat)
      requires i < slots.Length && slots[i].data.Some?
      modifies `tasks, slots
      ensures Here() == Acquire(old(Here()), t, task, i)
    {
      var slot := slots[i];
      slots[i] := slot.(references := slot.references + 1);
      assert slots[..] == old(slots[..])[i := slots[i]];
      tasks := tasks[t := task.(stage := Using(Handle(slot.data.value, slot.id.size, true, Some(i))))];
    }

    method ReadSlot(t: nat, task: Task, i: nat)
      modifies `tasks, slots
      ensures Here() == Read(old(Here()), t, task, i)
    {
      if i >= slots.Length {
        Enter(t, task, Refreshing);
      } else if Same(slots[i], task.path, task.id) {
        AddReference(t, task, i);
      } else {
        Enter(t, task, Reading(i + 1));
      }
    }

    method MapFile(t: nat, task: Task, file: Option<Identity>)
      modifies this
      ensures Here() == Refresh(old(Here()), t, task, file)
    {
      if file.None? {
        tasks := tasks - {t};
        return;
      }
      var m := next;
      next := next + 1;
      mapped := mapped + {m};
      origin := origin[m := (task.path, file.value)];
      tasks := tasks[t := Task(task.path, file.value, Offering(m))];
    }

    method MatchSlot(t: nat, task: Task, m: nat, i: nat)
      requires m in mapped
      modifies this, slots
      ensures Here() == Match(old(Here()), t, task, m, i)
    {
      if i >= slots.Length {
        Enter(t, task, Picking(m, 0, None));
      } else if Same(slots[i], task.path, task.id) {
        Munmap(m);
        clock := clock + 1;
        slots[i] := slots[i].(lastUsed := clock);
        assert slots[..] == old(slots[..])[i := slots[i]];
        AddReference(t, task, i);
      } else {
        Enter(t, task, Matching(m, i + 1));
      }
    }

    method ConsiderSlot(t: nat, task: Task, m: nat, i: nat, selected: Option<nat>)
      modifies `tasks
      ensures Here() == Pick(old(Here()), t, task, m, i, selected)
    {
      if i >= slots.Length {
        if selected.None? {
          Enter(t, task, Using(Handle(m, task.id.size, false, None)));
        } else {
          Enter(t, task, Storing(m, selected.value));
        }
      } else if slots[i].references != 0 || !Prefers(slots[..], i, selected) {
        Enter(t, task, Picking(m, i + 1, selected));
      } else if slots[i].data.None? {
        Enter(t, task, Storing(m, i));
      } else {
        Enter(t, task, Picking(m, i + 1, Some(i)));
      }
    }

    method StoreMapping(t: nat, task: Task, m: nat, i: nat)
      requires i < slots.Length && (slots[i].data.Some? ==> slots[i].data.value in mapped)
      modifies this, slots
      ensures Here() == Store(old(Here()), t, task, m, i)
    {
      if slots[i].data.Some? {
        Munmap(slots[i].data.value);
      }
      clock := clock + 1;
      slots[i] := Slot(task.path, Some(m), task.id, 1, clock);
      assert slots[..] == old(slots[..])[i := slots[i]];
      tasks := tasks[t := task.(stage := Using(Handle(m, task.id.size, true, Some(i))))];
    }

    method ReleaseHandle(t: nat, h: Handle)
      requires !h.borrowed ==> h.data in mapped
      modifies this, slots
      ensures Here() == Drop(old(Here()), t, h)
    {
      tasks := tasks - {t};
      if h.token.Some? && h.token.value < slots.Length {
        var i := h.token.value;
        var references := slots[i].references;
        slots[i] := slots[i].(references := if references == 0 then 0 else references - 1);
        assert slots[..] == old(slots[..])[i := slots[i]];
      } else if !h.borrowed {
        Munmap(h.data);
      }
    }

    /** One action of the schedule. */
    method Do(a: Action)
      requires Valid()
      modifies this, slots
      ensures Valid() && Here() == Next(old(Here()), a)
    {
      hide Inv, Read, Refresh, Match, Pick, Store, Drop;
      NextKeeps(Here(), a);
      MunmapsMapped(Here(), a);
      OwnedMapped(Here(), a);
      match a {
        case Start(t, path, id) =>
          if t !in tasks {
            Enter(t, Task(path, id, Looking), Looking);
          }
        case Advance(t, file) =>
          if t in tasks {
            var task := tasks[t];
            match task.stage {
              case Looking =>
                if NoWriter(tasks) {
                  Enter(t, task, Reading(0));
                }
              case Reading(i) => ReadSlot(t, task, i);
              case Refreshing => MapFile(t, task, file);
              case Offering(m) =>
                if NoLock(tasks) {
                  Enter(t, task, Matching(m, 0));
                }
              case Matching(m, i) => MatchSlot(t, task, m, i);
              case Picking(m, i, selected) => ConsiderSlot(t, task, m, i, selected);
              case Storing(m, i) => StoreMapping(t, task, m, i);
              case Using(_) =>
            }
          }
        case Release(t) =>
          if t in tasks && tasks[t].stage.Using? {
            ReleaseHandle(t, tasks[t].stage.h);
          }
      }
    }

    /** After any schedule an entry counts the live handles on it, and a live
        handle is of a mapped region of the file its call found. */
    method Drive(schedule: seq<Action>)
      requires Valid()
      modifies this, slots
      ensures Valid() && Here() == Run(old(Here()), schedule)
      ensures forall i :: 0 <= i < SLOTS ==> slots[i].references == |Holders(tasks, i)|
      ensures forall t :: t in tasks && tasks[t].stage.Using? ==>
                var h := tasks[t].stage.h;
                h.data in mapped - unmapped && h.data in origin && origin[h.data] == (tasks[t].path, tasks[t].id)
    {
      hide Inv, Next;
      assert schedule[0..] == schedule;
      for k := 0 to |schedule|
        invariant Valid() && Run(Here(), schedule[k..]) == Run(old(Here()), schedule)
      {
        assert schedule[k..][1..] == schedule[k + 1..];
        Do(schedule[k]);
      }
      EntriesCount(Here());
      forall t | t in tasks && tasks[t].stage.Using?
        ensures tasks[t].stage.h.data in mapped - unmapped && tasks[t].stage.h.data in origin
        ensures origin[tasks[t].stage.h.data] == (tasks[t].path, tasks[t].id)
      {
        LiveHandle(Here(), t);
      }
    }
  }

  lemma EntriesCount(s: State)
    requires Inv(s)
    ensures forall i :: 0 <= i < SLOTS ==> s.slots[i].references == |Holders(s.tasks, i)|
  {
  }

  lemma OwnedMapped(s: State, a: Action)
    requires Inv(s)
    ensures a.Advance? && a.t in s.tasks ==>
              match s.tasks[a.t].stage {
                case Matching(m, _) => m in s.mapped
                case Storing(_, i) => i < |s.slots|
                case _ => true
              }
  {
    if a.Advance? && a.t in s.tasks {
      var task := s.tasks[a.t];
      assert FoundValid(s.slots, task);
      if task.stage.Matching? {
        assert OwnedBy(s.tasks, task.stage.m, a.t);
      }
    }
  }
}
