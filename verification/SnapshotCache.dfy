/** The process-wide cache of mapped snapshots, as its threads interleave: each
    call of map_snapshot_path_cached and the unmap_snapshot that ends it is a
    task, cut into the atomic actions between which others may run. */
module SnapshotCache {
  import opened Wrappers

  const SLOTS := 4

  /** What stat says identifies the content of a snapshot file. */
  datatype Identity = Identity(dev: nat, ino: nat, size: nat, mtime: int, ctime: int)

  /** A cache entry; `data` names a mapped region. */
  datatype Slot = Slot(path: string, data: Option<nat>, id: Identity, references: nat, lastUsed: nat)

  /** What a caller gets: a region, borrowed from the slot `token` or its own. */
  datatype Handle = Handle(data: nat, len: nat, borrowed: bool, token: Option<nat>)

  datatype Stage =
    | Looking                                        // before the read lock
    | Reading(probe: nat)                            // read lock held, the next slot to compare
    | Refreshing                                     // missed, to map the file
    | Offering(m: nat)                               // mapped, before the write lock
    | Matching(m: nat, i: nat)                       // write lock held, the next slot to compare
    | Picking(m: nat, i: nat, selected: Option<nat>) // the next slot to consider for reuse
    | Storing(m: nat, i: nat)                        // the slot is chosen
    | Using(h: Handle)                               // the handle is live

  /** A call for a path, and the file it has found there. */
  datatype Task = Task(path: string, id: Identity, stage: Stage)

  /** `mapped` are the regions mapped now, `unmapped` those no longer; regions
      are numbered in the order they are mapped. `origin` says of which file. */
  datatype State = State(slots: seq<Slot>, tasks: map<nat, Task>, clock: nat,
                         mapped: set<nat>, unmapped: set<nat>, next: nat, origin: map<nat, (string, Identity)>)

  /** A choice of the scheduler: start a call for a file as stat saw it, let a
      task take its next action (`file` is what opening and mapping finds, where
      that is the action), or release a task's handle. */
  datatype Action =
    | Start(t: nat, path: string, id: Identity)
    | Advance(t: nat, file: Option<Identity>)
    | Release(t: nat)

  // ---- Actions

  predicate Same(slot: Slot, path: string, id: Identity) {
    slot.data.Some? && slot.path == path && slot.id == id
  }

  predicate ReadLocked(task: Task) {
    task.stage.Reading?
  }

  predicate WriteLocked(task: Task) {
    task.stage.Matching? || task.stage.Picking? || task.stage.Storing?
  }

  predicate NoWriter(tasks: map<nat, Task>) {
    forall t :: t in tasks ==> !WriteLocked(tasks[t])
  }

  predicate NoLock(tasks: map<nat, Task>) {
    forall t :: t in tasks ==> !WriteLocked(tasks[t]) && !ReadLocked(tasks[t])
  }

  function At(s: State, t: nat, task: Task, stage: Stage): State {
    s.(tasks := s.tasks[t := task.(stage := stage)])
  }

  /** Count one more reference to slot `i` and hand it to the call. */
  function Acquire(s: State, t: nat, task: Task, i: nat): State
    requires i < |s.slots| && s.slots[i].data.Some?
  {
    var slot := s.slots[i];
    At(s, t, task, Using(Handle(slot.data.value, slot.id.size, true, Some(i))))
      .(slots := s.slots[i := slot.(references := slot.references + 1)])
  }

  function Unmap(s: State, m: nat): State {
    s.(mapped := s.mapped - {m}, unmapped := s.unmapped + {m})
  }

  /** Replace the slot's content by the call's own mapping. */
  function Store(s: State, t: nat, task: Task, m: nat, i: nat): State
    requires i < |s.slots|
  {
    var freed := if s.slots[i].data.Some? then Unmap(s, s.slots[i].data.value) else s;
    At(freed, t, task, Using(Handle(m, task.id.size, true, Some(i))))
      .(slots := s.slots[i := Slot(task.path, Some(m), task.id, 1, s.clock + 1)], clock := s.clock + 1)
  }

  function Read(s: State, t: nat, task: Task, i: nat): State {
    if i >= |s.slots| then At(s, t, task, Refreshing)
    else if Same(s.slots[i], task.path, task.id) then Acquire(s, t, task, i)
    else At(s, t, task, Reading(i + 1))
  }

  /** Open and map the file, which may by now be another, or gone. */
  function Refresh(s: State, t: nat, task: Task, file: Option<Identity>): State {
    if file.None? then s.(tasks := s.tasks - {t})
    else
      At(s, t, task.(id := file.value), Offering(s.next))
        .(mapped := s.mapped + {s.next}, next := s.next + 1, origin := s.origin[s.next := (task.path, file.value)])
  }

  function Touch(s: State, i: nat): State
    requires i < |s.slots|
  {
    s.(slots := s.slots[i := s.slots[i].(lastUsed := s.clock + 1)], clock := s.clock + 1)
  }

  function Match(s: State, t: nat, task: Task, m: nat, i: nat): State {
    if i >= |s.slots| then At(s, t, task, Picking(m, 0, None))
    else if Same(s.slots[i], task.path, task.id) then Acquire(Touch(Unmap(s, m), i), t, task, i)
    else At(s, t, task, Matching(m, i + 1))
  }

  /** Prefer an empty slot, then the least recently used. */
  predicate Prefers(slots: seq<Slot>, i: nat, selected: Option<nat>)
    requires i < |slots|
  {
    selected.None? || slots[i].data.None? || selected.value >= |slots| ||
    slots[i].lastUsed < slots[selected.value].lastUsed
  }

  function Pick(s: State, t: nat, task: Task, m: nat, i: nat, selected: Option<nat>): State {
    if i >= |s.slots| then
      if selected.None? then At(s, t, task, Using(Handle(m, task.id.size, false, None)))
      else At(s, t, task, Storing(m, selected.value))
    else if s.slots[i].references != 0 || !Prefers(s.slots, i, selected) then
      At(s, t, task, Picking(m, i + 1, selected))
    else if s.slots[i].data.None? then At(s, t, task, Storing(m, i))
    else At(s, t, task, Picking(m, i + 1, Some(i)))
  }

  /** The next action of a task; a task that waits for a lock stays. */
  function Act(s: State, t: nat, task: Task, file: Option<Identity>): State {
    match task.stage
    case Looking => if NoWriter(s.tasks) then At(s, t, task, Reading(0)) else s
    case Reading(i) => Read(s, t, task, i)
    case Refreshing => Refresh(s, t, task, file)
    case Offering(m) => if NoLock(s.tasks) then At(s, t, task, Matching(m, 0)) else s
    case Matching(m, i) => Match(s, t, task, m, i)
    case Picking(m, i, selected) => Pick(s, t, task, m, i, selected)
    case Storing(m, i) => if i < |s.slots| then Store(s, t, task, m, i) else s
    case Using(_) => s
  }

  /** Count one reference less, or unmap the caller's own region. */
  function Drop(s: State, t: nat, h: Handle): State {
    var gone := s.(tasks := s.tasks - {t});
    if h.token.Some? && h.token.value < |s.slots| then
      var slot := s.slots[h.token.value];
      var references := if slot.references == 0 then 0 else slot.references - 1;
      gone.(slots := s.slots[h.token.value := slot.(references := references)])
    else if !h.borrowed then Unmap(gone, h.data)
    else gone
  }

  function Next(s: State, a: Action): State {
    match a
    case Start(t, path, id) => if t in s.tasks then s else At(s, t, Task(path, id, Looking), Looking)
    case Advance(t, file) => if t in s.tasks then Act(s, t, s.tasks[t], file) else s
    case Release(t) => if t in s.tasks && s.tasks[t].stage.Using? then Drop(s, t, s.tasks[t].stage.h) else s
  }

  function Run(s: State, actions: seq<Action>): State
    decreases |actions|
  {
    if actions == [] then s else Run(Next(s, actions[0]), actions[1..])
  }

  const EMPTY := Slot("", None, Identity(0, 0, 0, 0, 0), 0, 0)

  const INITIAL := State([EMPTY, EMPTY, EMPTY, EMPTY], map[], 0, {}, {}, 0, map[])

  // ---- The invariant

  /** The calls whose live handle borrows from slot `i`. */
  function Holders(tasks: map<nat, Task>, i: nat): set<nat> {
    set t | t in tasks && Holds(tasks[t], i)
  }

  predicate Holds(task: Task, i: nat) {
    task.stage.Using? && task.stage.h.token == Some(i)
  }

  /** The mapping a task has to itself. */
  function Own(task: Task): Option<nat> {
    match task.stage
    case Offering(m) => Some(m)
    case Matching(m, _) => Some(m)
    case Picking(m, _, _) => Some(m)
    case Storing(m, _) => Some(m)
    case Using(h) => if h.token.None? then Some(h.data) else None
    case _ => None
  }

  /** Every entry counts exactly the live handles borrowed from it. */
  ghost predicate Counted(s: State)
    requires |s.slots| == SLOTS
  {
    forall i :: 0 <= i < SLOTS ==> s.slots[i].references == |Holders(s.tasks, i)|
  }

  ghost predicate Locked(tasks: map<nat, Task>) {
    forall t, u :: t in tasks && u in tasks && t != u && WriteLocked(tasks[t]) ==>
                     !WriteLocked(tasks[u]) && !ReadLocked(tasks[u])
  }

  /** A borrowed handle is of the region its slot holds, and of the file the call
      found. */
  predicate HandleValid(slots: seq<Slot>, task: Task) {
    task.stage.Using? ==>
      var h := task.stage.h;
      && h.len == task.id.size
      && h.borrowed == h.token.Some?
      && (h.token.Some? ==>
            h.token.value < |slots| && Same(slots[h.token.value], task.path, task.id) &&
            slots[h.token.value].data == Some(h.data))
  }

  ghost predicate Handles(slots: seq<Slot>, tasks: map<nat, Task>) {
    forall t :: t in tasks ==> HandleValid(slots, tasks[t])
  }

  /** Where a mapped region is: in one slot, or with one task. */
  predicate InSlot(slots: seq<Slot>, m: nat, i: nat) {
    i < |slots| && slots[i].data == Some(m)
  }

  predicate OwnedBy(tasks: map<nat, Task>, m: nat, t: nat) {
    t in tasks && Own(tasks[t]) == Some(m)
  }

  /** The mapped regions are those that have a place. */
  ghost predicate Placed(slots: seq<Slot>, tasks: map<nat, Task>, mapped: set<nat>) {
    && (forall m :: m in mapped ==> (exists i: nat :: InSlot(slots, m, i)) || (exists t: nat :: OwnedBy(tasks, m, t)))
    && (forall i: nat, m: nat :: InSlot(slots, m, i) ==> m in mapped)
    && (forall t: nat, m: nat :: OwnedBy(tasks, m, t) ==> m in mapped)
  }

  /** No region has two places. */
  ghost predicate Apart(slots: seq<Slot>, tasks: map<nat, Task>) {
    && (forall i: nat, j: nat, m: nat :: InSlot(slots, m, i) && InSlot(slots, m, j) ==> i == j)
    && (forall t: nat, u: nat, m: nat :: OwnedBy(tasks, m, t) && OwnedBy(tasks, m, u) ==> t == u)
    && (forall i: nat, t: nat, m: nat :: InSlot(slots, m, i) ==> !OwnedBy(tasks, m, t))
  }

  /** Every region ever mapped is mapped now or has been unmapped. */
  ghost predicate Conserved(s: State) {
    s.mapped !! s.unmapped && forall m: nat :: m in s.mapped || m in s.unmapped <==> m < s.next
  }

  /** Every place knows the file its region maps. */
  ghost predicate Named(s: State) {
    && (forall i: nat, m: nat :: InSlot(s.slots, m, i) ==>
          m in s.origin && s.origin[m] == (s.slots[i].path, s.slots[i].id))
    && (forall t: nat, m: nat :: OwnedBy(s.tasks, m, t) ==>
          m in s.origin && s.origin[m] == (s.tasks[t].path, s.tasks[t].id))
  }

  predicate NoneSame(slots: seq<Slot>, upto: nat, path: string, id: Identity) {
    forall i :: 0 <= i < upto && i < |slots| ==> !Same(slots[i], path, id)
  }

  ghost predicate Unique(slots: seq<Slot>) {
    forall i, j :: 0 <= i < |slots| && 0 <= j < |slots| && i != j && slots[i].data.Some? ==>
                     !Same(slots[j], slots[i].path, slots[i].id)
  }

  predicate Unreferenced(slots: seq<Slot>, i: nat) {
    i < |slots| && slots[i].references == 0
  }

  /** What a task in the write section has found so far still holds. */
  predicate FoundValid(slots: seq<Slot>, task: Task) {
    match task.stage
    case Matching(_, i) => i <= |slots| && NoneSame(slots, i, task.path, task.id)
    case Picking(_, i, selected) =>
      i <= |slots| && NoneSame(slots, |slots|, task.path, task.id) &&
      (selected.Some? ==> Unreferenced(slots, selected.value))
    case Storing(_, i) => NoneSame(slots, |slots|, task.path, task.id) && Unreferenced(slots, i)
    case _ => true
  }

  ghost predicate Found(slots: seq<Slot>, tasks: map<nat, Task>) {
    forall t :: t in tasks ==> FoundValid(slots, tasks[t])
  }

  ghost predicate Inv(s: State) {
    && |s.slots| == SLOTS && Counted(s) && Locked(s.tasks) && Handles(s.slots, s.tasks)
    && Placed(s.slots, s.tasks, s.mapped) && Apart(s.slots, s.tasks)
    && Conserved(s) && Named(s) && Unique(s.slots) && Found(s.slots, s.tasks)
  }
}
