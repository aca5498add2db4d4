/** File actions of a spawn call, recorded as they are added: which of the
    parent's descriptors become the child's standard output and error. */
module FileActions {
  import opened Wrappers

  const MAX_ACTIONS := 32

  /** What a list of the C library can hold. The record of a list never holds an
      open or the close of a range, which are added without passing through the
      interposer. */
  datatype Action = Close(fd: nat) | Dup2(fd: nat, newfd: nat) | Open(fd: nat, file: nat) | CloseFrom(fd: nat)

  predicate Interposed(a: Action) {
    a.Close? || a.Dup2?
  }

  /** Descriptors to open files. */
  type Descriptors = map<nat, nat>

  // ---- What the actions do

  function ApplyOne(a: Action, table: Descriptors): Option<Descriptors> {
    match a
    case Close(fd) => Some(table - {fd})
    case Dup2(fd, newfd) => if fd in table then Some(table[newfd := table[fd]]) else None
    case Open(fd, file) => Some(table[fd := file])
    case CloseFrom(fd) => Some(map n | n in table && n < fd :: table[n])
  }

  /** The actions of a list that are recorded. */
  function Tracked(actions: seq<Action>): (tracked: seq<Action>)
    ensures AllInterposed(tracked) && (AllInterposed(actions) ==> tracked == actions)
    decreases |actions|
  {
    if actions == [] then []
    else
      var last, before := actions[|actions| - 1], actions[..|actions| - 1];
      assert actions == before + [last];
      if Interposed(last) then Tracked(before) + [last] else Tracked(before)
  }

  predicate AllInterposed(actions: seq<Action>) {
    forall i :: 0 <= i < |actions| ==> Interposed(actions[i])
  }

  /** The child's table; closing a closed descriptor is no failure. */
  function Apply(actions: seq<Action>, parent: Descriptors): Option<Descriptors> {
    if actions == [] then Some(parent)
    else
      var before := Apply(actions[..|actions| - 1], parent);
      if before.None? then None else ApplyOne(actions[|actions| - 1], before.value)
  }

  method ApplyTracked(actions: seq<Action>, parent: Descriptors) returns (child: Option<Descriptors>)
    requires AllInterposed(actions)
    ensures child == Apply(actions, parent)
  {
    var table := parent;
    for i := 0 to |actions|
      invariant Apply(actions[..i], parent) == Some(table)
    {
      assert actions[..i + 1][..i] == actions[..i];
      var next := ApplyOne(actions[i], table);
      if next.None? {
        Stuck(actions, parent, i + 1);
        return None;
      }
      table := next.value;
    }
    assert actions[..|actions|] == actions;
    child := Some(table);
  }

  lemma {:induction false} Stuck(actions: seq<Action>, parent: Descriptors, i: nat)
    requires i <= |actions| && Apply(actions[..i], parent).None?
    ensures Apply(actions, parent).None?
    decreases |actions| - i
  {
    if i == |actions| {
      assert actions[..i] == actions;
    } else {
      assert actions[..i + 1][..i] == actions[..i];
      Stuck(actions, parent, i + 1);
    }
  }

  // ---- Resolving without running

  datatype Outputs = Outputs(out: nat, err: nat, outOpen: bool, errOpen: bool, closed: seq<nat>)

  const PARENTS := Outputs(1, 2, true, true, [])

  function ResolveOne(a: Action, o: Outputs): Option<Outputs> {
    match a
    case Close(fd) =>
      Some(o.(closed := o.closed + [fd], outOpen := o.outOpen && fd != 1, errOpen := o.errOpen && fd != 2))
    case Dup2(fd, newfd) =>
      if fd in o.closed then None
      else
        Some(o.(out := if newfd == 1 then fd else o.out, outOpen := o.outOpen || newfd == 1,
                err := if newfd == 2 then fd else o.err, errOpen := o.errOpen || newfd == 2))
    case _ => None
  }

  function ResolveAll(actions: seq<Action>): Option<Outputs> {
    if actions == [] then Some(PARENTS)
    else
      var before := ResolveAll(actions[..|actions| - 1]);
      if before.None? then None else ResolveOne(actions[|actions| - 1], before.value)
  }

  /** The parent's descriptors that the child's output and error will be. */
  function Resolve(actions: seq<Action>): Option<(nat, nat)> {
    var o := ResolveAll(actions);
    if o.None? || !o.value.outOpen || !o.value.errOpen then None else Some((o.value.out, o.value.err))
  }

  method WasClosed(fd: nat, closed: seq<nat>) returns (was: bool)
    ensures was <==> fd in closed
  {
    for i := 0 to |closed|
      invariant fd !in closed[..i]
    {
      if closed[i] == fd {
        return true;
      }
    }
    assert closed[..|closed|] == closed;
    was := false;
  }

  method ResolveOutputs(actions: seq<Action>) returns (r: Option<(nat, nat)>)
    ensures r == Resolve(actions)
  {
    var out: nat, err: nat, outOpen, errOpen := 1, 2, true, true;
    var closed: seq<nat> := [];
    for i := 0 to |actions|
      invariant ResolveAll(actions[..i]) == Some(Outputs(out, err, outOpen, errOpen, closed))
    {
      assert actions[..i + 1][..i] == actions[..i];
      match actions[i] {
        case Close(fd) =>
          closed := closed + [fd];
          if fd == 1 {
            outOpen := false;
          }
          if fd == 2 {
            errOpen := false;
          }
        case Dup2(fd, newfd) =>
          var was := WasClosed(fd, closed);
          if was {
            Refused(actions, i + 1);
            return None;
          }
          if newfd == 1 {
            out, outOpen := fd, true;
          }
          if newfd == 2 {
            err, errOpen := fd, true;
          }
        case _ =>
          Refused(actions, i + 1);
          return None;
      }
    }
    assert actions[..|actions|] == actions;
    r := if outOpen && errOpen then Some((out, err)) else None;
  }

  lemma {:induction false} Refused(actions: seq<Action>, i: nat)
    requires i <= |actions| && ResolveAll(actions[..i]).None?
    ensures ResolveAll(actions).None?
    decreases |actions| - i
  {
    if i == |actions| {
      assert actions[..i] == actions;
    } else {
      assert actions[..i + 1][..i] == actions[..i];
      Refused(actions, i + 1);
    }
  }

  // ---- Agreement

  /** Where a descriptor of the child comes from. */
  datatype Source = Parents(fd: nat) | Opened(file: nat)

  /** What a descriptor ends up naming, closes apart: the file of the last open,
      or the source of the last dup2 onto it, traced further back. */
  function Origin(actions: seq<Action>, fd: nat): Source
    decreases |actions|
  {
    if actions == [] then Parents(fd)
    else
      var a, before := actions[|actions| - 1], actions[..|actions| - 1];
      if a.Dup2? && a.newfd == fd then Origin(before, a.fd)
      else if a.Open? && a.fd == fd then Opened(a.file)
      else Origin(before, fd)
  }

  /** Nothing was opened as `fd`, no range with it was closed since the last dup2
      onto it, and the source of that dup2, if any, still names the parent's
      descriptor of that number when it is copied. */
  predicate SourceKept(actions: seq<Action>, fd: nat) {
    if actions == [] then true
    else
      var a, before := actions[|actions| - 1], actions[..|actions| - 1];
      if a.Dup2? && a.newfd == fd then Origin(before, a.fd) == Parents(a.fd)
      else !(a.Open? && a.fd == fd) && !(a.CloseFrom? && a.fd <= fd) && SourceKept(before, fd)
  }

  /** Running the actions gives each descriptor its origin's file. */
  lemma {:induction false} ApplyOrigin(actions: seq<Action>, parent: Descriptors, fd: nat)
    requires Apply(actions, parent).Some? && fd in Apply(actions, parent).value
    ensures match Origin(actions, fd)
            case Parents(p) => p in parent && Apply(actions, parent).value[fd] == parent[p]
            case Opened(file) => Apply(actions, parent).value[fd] == file
    decreases |actions|
  {
    if actions != [] {
      var a, before := actions[|actions| - 1], actions[..|actions| - 1];
      if !(a.Open? && a.fd == fd) {
        ApplyOrigin(before, parent, if a.Dup2? && a.newfd == fd then a.fd else fd);
      }
    }
  }

  lemma TrackedLast(actions: seq<Action>)
    requires actions != [] && Interposed(actions[|actions| - 1])
    ensures var last, before := actions[|actions| - 1], Tracked(actions[..|actions| - 1]);
            && Tracked(actions) == before + [last]
            && ResolveAll(Tracked(actions)) ==
               (if ResolveAll(before).None? then None else ResolveOne(last, ResolveAll(before).value))
  {
    var before := Tracked(actions[..|actions| - 1]);
    assert (before + [actions[|actions| - 1]])[..|before|] == before;
  }

  /** What resolution tracks: the last source, and whether the descriptor is
      open for sure. */
  lemma {:induction false} ResolvedSource(actions: seq<Action>, parent: Descriptors)
    requires ResolveAll(Tracked(actions)).Some? && Apply(actions, parent).Some? && 1 in parent && 2 in parent
    ensures var o, child := ResolveAll(Tracked(actions)).value, Apply(actions, parent).value;
            && (SourceKept(actions, 1) && o.outOpen ==> 1 in child)
            && (SourceKept(actions, 2) && o.errOpen ==> 2 in child)
            && (SourceKept(actions, 1) ==> Origin(actions, 1) == Parents(o.out))
            && (SourceKept(actions, 2) ==> Origin(actions, 2) == Parents(o.err))
            && (!SourceKept(actions, 1) && o.outOpen && 1 in child ==> Origin(actions, 1) != Parents(o.out))
            && (!SourceKept(actions, 2) && o.errOpen && 2 in child ==> Origin(actions, 2) != Parents(o.err))
    decreases |actions|
  {
    hide Tracked;
    if actions == [] {
      assert Tracked(actions) == [];
    } else {
      if Interposed(actions[|actions| - 1]) {
        TrackedLast(actions);
      } else {
        Untracked(actions);
      }
      ResolvedSource(actions[..|actions| - 1], parent);
    }
  }

  lemma Untracked(actions: seq<Action>)
    requires actions != [] && !Interposed(actions[|actions| - 1])
    ensures Tracked(actions) == Tracked(actions[..|actions| - 1])
  {
  }

  /** The child's output and error are the files of the resolved descriptors. */
  ghost predicate Right(actions: seq<Action>, parent: Descriptors, out: nat, err: nat) {
    var child := Apply(actions, parent);
    child.Some? ==>
      && 1 in child.value && 2 in child.value && out in parent && err in parent
      && child.value[1] == parent[out] && child.value[2] == parent[err]
  }

  ghost predicate RightForAll(actions: seq<Action>, out: nat, err: nat) {
    forall parent: Descriptors :: 1 in parent && 2 in parent ==> Right(actions, parent, out, err)
  }

  /** Whenever the sources are kept, resolving what is recorded agrees with
      running the list, on every parent with open standard streams. */
  lemma ResolutionRight(actions: seq<Action>, parent: Descriptors)
    requires Resolve(Tracked(actions)).Some? && SourceKept(actions, 1) && SourceKept(actions, 2)
    requires 1 in parent && 2 in parent
    ensures Right(actions, parent, Resolve(Tracked(actions)).value.0, Resolve(Tracked(actions)).value.1)
  {
    if Apply(actions, parent).Some? {
      ResolvedSource(actions, parent);
      ApplyOrigin(actions, parent, 1);
      ApplyOrigin(actions, parent, 2);
    }
  }

  /** A parent whose every descriptor up to `n` is a file of its own, numbered
      from `base` on. */
  function OwnFiles(n: nat, base: nat): (table: Descriptors)
    ensures forall fd: nat :: fd in table <==> fd <= n
    ensures forall fd: nat :: fd <= n ==> table[fd] == base + fd
  {
    if n == 0 then map[0 := base] else OwnFiles(n - 1, base)[n := base + n]
  }

  function Highest(actions: seq<Action>): nat {
    if actions == [] then 2
    else
      var rest, fd := Highest(actions[..|actions| - 1]), actions[|actions| - 1].fd;
      if fd > rest then fd else rest
  }

  /** Past every file a list opens. */
  function PastFiles(actions: seq<Action>): nat {
    if actions == [] then 0
    else
      var rest, a := PastFiles(actions[..|actions| - 1]), actions[|actions| - 1];
      if a.Open? && a.file >= rest then a.file + 1 else rest
  }

  lemma {:induction false} OpenedBelow(actions: seq<Action>, fd: nat)
    ensures Origin(actions, fd).Opened? ==> Origin(actions, fd).file < PastFiles(actions)
    decreases |actions|
  {
    if actions != [] {
      var a := actions[|actions| - 1];
      OpenedBelow(actions[..|actions| - 1], if a.Dup2? && a.newfd == fd then a.fd else fd);
    }
  }

  /** Whatever the parent, the descriptor is closed after these actions. */
  predicate SurelyClosed(actions: seq<Action>, fd: nat) {
    actions != [] &&
    var a, before := actions[|actions| - 1], actions[..|actions| - 1];
    if a.Dup2? then a.newfd != fd && SurelyClosed(before, fd)
    else if a.Open? then a.fd != fd && SurelyClosed(before, fd)
    else a.fd == fd || (a.CloseFrom? && a.fd <= fd) || SurelyClosed(before, fd)
  }

  /** No dup2 copies from a descriptor that is closed for sure. */
  predicate CanRun(actions: seq<Action>) {
    actions != [] ==>
      var a, before := actions[|actions| - 1], actions[..|actions| - 1];
      CanRun(before) && (a.Dup2? ==> !SurelyClosed(before, a.fd))
  }

  /** That parent runs the list if any does. */
  lemma {:induction false} OwnFilesRun(actions: seq<Action>, n: nat, base: nat)
    requires n >= Highest(actions)
    ensures Apply(actions, OwnFiles(n, base)).Some? <==> CanRun(actions)
    ensures Apply(actions, OwnFiles(n, base)).Some? ==>
              forall fd: nat :: fd <= n ==>
                (fd in Apply(actions, OwnFiles(n, base)).value <==> !SurelyClosed(actions, fd))
    decreases |actions|
  {
    if actions != [] {
      OwnFilesRun(actions[..|actions| - 1], n, base);
    }
  }

  /** A list that the parent with every descriptor open cannot run, none can. */
  lemma {:induction false} NoneRuns(actions: seq<Action>, parent: Descriptors)
    requires Apply(actions, parent).Some?
    ensures CanRun(actions) && forall fd: nat :: fd in Apply(actions, parent).value ==> !SurelyClosed(actions, fd)
    decreases |actions|
  {
    if actions != [] {
      NoneRuns(actions[..|actions| - 1], parent);
    }
  }

  /** Resolving what is recorded is right for every parent with open standard
      streams exactly if no parent can run the list or the sources are kept. */
  lemma ResolutionExact(actions: seq<Action>)
    requires Resolve(Tracked(actions)).Some?
    ensures RightForAll(actions, Resolve(Tracked(actions)).value.0, Resolve(Tracked(actions)).value.1)
       <==> !CanRun(actions) || (SourceKept(actions, 1) && SourceKept(actions, 2))
  {
    hide Tracked, Origin, SourceKept, CanRun, SurelyClosed;
    var (out, err) := Resolve(Tracked(actions)).value;
    if !CanRun(actions) {
      forall parent: Descriptors | 1 in parent && 2 in parent
        ensures Right(actions, parent, out, err)
      {
        if Apply(actions, parent).Some? {
          NoneRuns(actions, parent);
        }
      }
    } else if SourceKept(actions, 1) && SourceKept(actions, 2) {
      forall parent: Descriptors | 1 in parent && 2 in parent
        ensures Right(actions, parent, out, err)
      {
        ResolutionRight(actions, parent);
      }
    } else {
      var n, base := Highest(actions) + out + err, PastFiles(actions);
      var parent := OwnFiles(n, base);
      HighestTwo(actions);
      OwnFilesRun(actions, n, base);
      ResolvedSource(actions, parent);
      WrongSource(actions, parent, out, err);
    }
  }

  /** A descriptor that does not come from where resolution says is not right. */
  lemma WrongSource(actions: seq<Action>, parent: Descriptors, out: nat, err: nat)
    requires Apply(actions, parent).Some? && 1 in parent && 2 in parent
    requires exists n: nat :: n >= out + err && parent == OwnFiles(n, PastFiles(actions))
    requires var child := Apply(actions, parent).value;
             || 1 !in child || Origin(actions, 1) != Parents(out)
             || 2 !in child || Origin(actions, 2) != Parents(err)
    ensures !Right(actions, parent, out, err)
  {
    var child := Apply(actions, parent).value;
    if 1 in child && 2 in child {
      ApplyOrigin(actions, parent, 1);
      ApplyOrigin(actions, parent, 2);
      OpenedBelow(actions, 1);
      OpenedBelow(actions, 2);
    }
  }

  lemma {:induction false} HighestTwo(actions: seq<Action>)
    ensures Highest(actions) >= 2
  {
    if actions != [] {
      HighestTwo(actions[..|actions| - 1]);
    }
  }

  /** No dup2 copies from a descriptor that an earlier one copied onto. */
  predicate NoReuse(actions: seq<Action>) {
    forall i, j :: 0 <= i < j < |actions| && actions[i].Dup2? && actions[j].Dup2? ==> actions[j].fd != actions[i].newfd
  }

  lemma {:induction false} Untouched(actions: seq<Action>, fd: nat)
    requires AllInterposed(actions)
    requires forall i :: 0 <= i < |actions| && actions[i].Dup2? ==> actions[i].newfd != fd
    ensures Origin(actions, fd) == Parents(fd)
    decreases |actions|
  {
    if actions != [] {
      Untouched(actions[..|actions| - 1], fd);
    }
  }

  /** Where everything is recorded and no source was a target before, the sources
      are kept. */
  lemma {:induction false} NoReuseKeepsSources(actions: seq<Action>, fd: nat)
    requires AllInterposed(actions) && NoReuse(actions)
    ensures SourceKept(actions, fd)
    decreases |actions|
  {
    if actions != [] {
      var a, before := actions[|actions| - 1], actions[..|actions| - 1];
      if a.Dup2? && a.newfd == fd {
        forall i | 0 <= i < |before| && before[i].Dup2?
          ensures before[i].newfd != a.fd
        {
          assert actions[i] == before[i];
        }
        Untouched(before, a.fd);
      } else {
        NoReuseKeepsSources(before, fd);
      }
    }
  }

  lemma OneMore(actions: seq<Action>, a: Action, parent: Descriptors)
    ensures Apply(actions + [a], parent) ==
            match Apply(actions, parent) case None => None case Some(d) => ApplyOne(a, d)
    ensures ResolveAll(actions + [a]) ==
            match ResolveAll(actions) case None => None case Some(o) => ResolveOne(a, o)
    ensures Tracked(actions + [a]) == if Interposed(a) then Tracked(actions) + [a] else Tracked(actions)
  {
    hide ApplyOne, ResolveOne;
    assert (actions + [a])[..|actions|] == actions;
  }

  /** A list of one action. */
  lemma OneAction(a: Action, parent: Descriptors)
    ensures Apply([a], parent) == ApplyOne(a, parent)
    ensures ResolveAll([a]) == ResolveOne(a, PARENTS)
    ensures Tracked([a]) == if Interposed(a) then [a] else []
  {
    hide ApplyOne, ResolveOne;
    OneMore([], a, parent);
    assert [] + [a] == [a];
  }

  /** Output sent to a file and error to the same place: resolution takes the
      error descriptor for the parent's own output. */
  lemma SharedOutputMisresolved(parent: Descriptors)
    requires {1, 2, 3} <= parent.Keys && parent[1] != parent[3]
    ensures var actions := [Dup2(3, 1), Dup2(1, 2)];
            && Resolve(actions) == Some((3, 1))
            && Apply(actions, parent).Some? && Apply(actions, parent).value[2] == parent[3] != parent[1]
            && !Right(actions, parent, 3, 1)
  {
    hide Apply, ResolveAll, Tracked;
    OneAction(Dup2(3, 1), parent);
    OneMore([Dup2(3, 1)], Dup2(1, 2), parent);
    assert [Dup2(3, 1)] + [Dup2(1, 2)] == [Dup2(3, 1), Dup2(1, 2)];
  }

  lemma NothingResolved()
    ensures Resolve([]) == Some((1, 2))
  {
  }

  /** Output opened as a file: nothing is recorded, and resolution takes the
      output for the parent's own. */
  lemma OpenMisresolved(parent: Descriptors, file: nat)
    requires {1, 2} <= parent.Keys && parent[1] != file
    ensures var actions := [Open(1, file)];
            && Resolve(Tracked(actions)) == Some((1, 2))
            && Apply(actions, parent).Some? && Apply(actions, parent).value[1] == file
            && !Right(actions, parent, 1, 2)
  {
    hide Resolve, Apply, Tracked;
    OneAction(Open(1, file), parent);
    NothingResolved();
  }

  /** Output closed as one of a range: likewise. */
  lemma CloseFromMisresolved(parent: Descriptors)
    requires {1, 2} <= parent.Keys
    ensures var actions := [CloseFrom(1)];
            && Resolve(Tracked(actions)) == Some((1, 2))
            && Apply(actions, parent).Some? && 1 !in Apply(actions, parent).value
            && !Right(actions, parent, 1, 2)
  {
    hide Resolve, Apply, Tracked;
    OneAction(CloseFrom(1), parent);
    NothingResolved();
  }

  // ---- Recording

  const MAX_RECORDS := 128

  /** The actions added under one key, which is the address of the libc list. */
  datatype Record = Record(used: bool, key: nat, unsupported: bool, actions: seq<Action>)

  const NO_RECORD := Record(false, 0, false, [])

  predicate Of(r: Record, key: nat) {
    r.used && r.key == key
  }

  class Registry {
    const records: array<Record>
    ghost var lists: map<nat, seq<Action>>  // what libc holds, for each live list
    ghost var whole: set<nat>               // lists recorded from their init on

    ghost predicate Valid()
      reads this, records
    {
      && records.Length == MAX_RECORDS
      && (forall i, j :: 0 <= i < j < MAX_RECORDS && records[i].used ==> !Of(records[j], records[i].key))
      && (forall i :: 0 <= i < MAX_RECORDS ==> AllInterposed(records[i].actions))
      && (forall key :: key in whole ==> key in lists && Recorded(key))
    }

    /** The key has a record, which holds what can be recorded of its list or says
        that it does not. */
    ghost predicate Recorded(key: nat)
      requires key in lists
      reads this, records
    {
      exists i :: 0 <= i < records.Length && Of(records[i], key) &&
                  (records[i].unsupported || records[i].actions == Tracked(lists[key]))
    }

    constructor ()
      ensures Valid() && fresh(records) && lists == map[] && whole == {}
      ensures forall i :: 0 <= i < MAX_RECORDS ==> records[i] == NO_RECORD
    {
      records := new Record[MAX_RECORDS](_ => NO_RECORD);
      lists, whole := map[], {};
    }

    method Find(key: nat) returns (found: Option<nat>)
      requires records.Length == MAX_RECORDS
      ensures found.Some? ==> found.value < MAX_RECORDS && Of(records[found.value], key)
      ensures found.None? ==> forall i :: 0 <= i < MAX_RECORDS ==> !Of(records[i], key)
    {
      for i := 0 to MAX_RECORDS
        invariant forall k :: 0 <= k < i ==> !Of(records[k], key)
      {
        if Of(records[i], key) {
          return Some(i);
        }
      }
      found := None;
    }

    /** The key's record, a new one if there is room. */
    method Ensure(key: nat) returns (slot: Option<nat>)
      requires Valid()
      modifies records
      ensures Valid()
      ensures slot.Some? ==>
                slot.value < MAX_RECORDS &&
                records[..] == old(records[..])[slot.value := records[slot.value]] &&
                if Of(old(records[slot.value]), key) then records[slot.value] == old(records[slot.value])
                else !old(records[slot.value]).used && records[slot.value] == Record(true, key, false, []) &&
                     (forall i :: 0 <= i < slot.value ==> old(records[i]).used) &&
                     forall i :: 0 <= i < MAX_RECORDS ==> !Of(old(records[i]), key)
      ensures slot.None? ==> records[..] == old(records[..]) &&
                             (forall i :: 0 <= i < MAX_RECORDS ==> records[i].used && !Of(records[i], key))
    {
      slot := Find(key);
      if slot.Some? {
        return;
      }
      for i := 0 to MAX_RECORDS
        invariant forall k :: 0 <= k < i ==> records[k].used
        invariant records[..] == old(records[..])
      {
        if !records[i].used {
          assert forall k :: k in whole ==> Recorded(k);
          Keep(i, Record(true, key, false, []));
          return Some(i);
        }
      }
      slot := None;
    }

    /** Write a record over a slot that no whole list relies on. */
    method Keep(i: nat, r: Record)
      requires Valid() && i < MAX_RECORDS
      requires records[i].used ==> records[i].key !in whole || (r.used && r.key == records[i].key && r.unsupported)
      requires r.used ==> forall k :: 0 <= k < MAX_RECORDS && k != i ==> !Of(records[k], r.key)
      requires AllInterposed(r.actions)
      modifies records
      ensures Valid() && records[..] == old(records[..])[i := r]
    {
      ghost var before := records[..];
      records[i] := r;
      forall key | key in whole
        ensures Recorded(key)
      {
        var k :| 0 <= k < MAX_RECORDS && Of(before[k], key) &&
                        (before[k].unsupported || before[k].actions == Tracked(lists[key]));
        assert Of(records[k], key);
      }
    }

    /** Could the key get a record? */
    ghost predicate HasRoom(key: nat)
      requires records.Length == MAX_RECORDS
      reads records
    {
      exists i :: 0 <= i < MAX_RECORDS && (Of(records[i], key) || !records[i].used)
    }

    ghost predicate HasRecord(key: nat)
      requires records.Length == MAX_RECORDS
      reads records
    {
      exists i :: 0 <= i < MAX_RECORDS && Of(records[i], key)
    }

    /** posix_spawn_file_actions_init: a list is recorded whole exactly if there
        is room for it now. `slot` is the record it gets. */
    method Init(key: nat) returns (slot: Option<nat>)
      requires Valid()
      modifies this, records
      ensures Valid() && lists == old(lists)[key := []]
      ensures whole == if old(HasRoom(key)) then old(whole) + {key} else old(whole) - {key}
      ensures slot.Some? <==> old(HasRoom(key))
      ensures slot.Some? ==>
                && slot.value < MAX_RECORDS
                && records[..] == old(records[..])[slot.value := Record(true, key, false, [])]
                && (!old(HasRecord(key)) ==>
                      !old(records[slot.value]).used && forall i :: 0 <= i < slot.value ==> old(records[i]).used)
      ensures slot.None? ==> records[..] == old(records[..])
    {
      whole, lists := whole - {key}, lists[key := []];
      slot := Ensure(key);
      if slot.Some? {
        var r := records[slot.value];
        Keep(slot.value, r.(unsupported := false, actions := []));
        assert Of(records[slot.value], key) && records[slot.value].actions == lists[key];
        whole := whole + {key};
      }
    }

    /** addclose and adddup2 add an action to the list and to its record, which
        stops at its limit. */
    method Append(key: nat, a: Action)
      requires Valid() && key in lists && Interposed(a)
      modifies this, records
      ensures Valid() && lists == old(lists)[key := old(lists)[key] + [a]] && whole == old(whole)
      ensures !old(HasRoom(key)) ==> records[..] == old(records[..])
      ensures old(HasRoom(key)) && !old(HasRecord(key)) ==>
                exists i :: 0 <= i < MAX_RECORDS && records[i] == Record(true, key, false, [a])
    {
      hide Tracked;
      var slot := Ensure(key);
      TrackedMore(lists[key], a);
      ghost var wasWhole := key in whole;
      assert wasWhole ==> Recorded(key);
      whole := whole - {key};
      lists := lists[key := lists[key] + [a]];
      if slot.Some? {
        Extend(slot.value, key, a);
        if wasWhole {
          whole := whole + {key};
        }
      }
    }

    /** Add an action to a record, or flag it at its limit. */
    method Extend(i: nat, key: nat, a: Action)
      requires Valid() && i < MAX_RECORDS && Of(records[i], key) && key !in whole && Interposed(a)
      modifies records
      ensures Valid() && records[..] == old(records[..])[i := records[i]] && Of(records[i], key)
      ensures records[i] == if |old(records[i]).actions| >= MAX_ACTIONS then old(records[i]).(unsupported := true)
                            else old(records[i]).(actions := old(records[i]).actions + [a])
    {
      hide Tracked;
      var r := records[i];
      if |r.actions| >= MAX_ACTIONS {
        Keep(i, r.(unsupported := true));
      } else {
        Keep(i, r.(actions := r.actions + [a]));
      }
    }

    /** addopen and addclosefrom_np reach the list of the C library only. */
    method AppendUnseen(key: nat, a: Action)
      requires Valid() && key in lists && !Interposed(a)
      modifies `lists
      ensures Valid() && lists == old(lists)[key := old(lists)[key] + [a]]
    {
      hide Tracked;
      TrackedMore(lists[key], a);
      lists := lists[key := lists[key] + [a]];
      forall k | k in whole
        ensures Recorded(k)
      {
        assert old(Recorded(k));
      }
    }

    method Destroy(key: nat)
      requires Valid()
      modifies this, records
      ensures Valid() && lists == old(lists) - {key} && whole == old(whole) - {key}
      ensures forall i :: 0 <= i < MAX_RECORDS ==>
                            records[i] == if Of(old(records[i]), key) then NO_RECORD else old(records[i])
      ensures old(HasRecord(key)) ==> forall k :: HasRoom(k)
      ensures forall k :: HasRecord(k) ==> old(HasRecord(k))
    {
      whole, lists := whole - {key}, lists - {key};
      var found := Find(key);
      if found.Some? {
        Keep(found.value, NO_RECORD);
      }
    }

    /** Resolve the outputs of a list. For one recorded whole the answer is that
        of what can be recorded of it, and it is right for every parent with open
        standard streams exactly if no parent can run the list or the sources are
        kept in it. */
    method ResolveList(key: nat) returns (r: Option<(nat, nat)>)
      requires Valid()
      ensures key in whole && r.Some? ==> r == Resolve(Tracked(lists[key]))
      ensures key in whole && r.Some? ==>
                (RightForAll(lists[key], r.value.0, r.value.1) <==>
                 !CanRun(lists[key]) || (SourceKept(lists[key], 1) && SourceKept(lists[key], 2)))
      ensures forall i :: 0 <= i < MAX_RECORDS && Of(records[i], key) && !records[i].unsupported ==>
                r == Resolve(records[i].actions)
    {
      hide Resolve, SourceKept, RightForAll, Tracked, CanRun;
      var found := Find(key);
      assert forall i :: 0 <= i < MAX_RECORDS && Of(records[i], key) ==> found == Some(i);
      if found.None? || records[found.value].unsupported {
        return None;
      }
      assert key in whole ==> Recorded(key);
      r := ResolveOutputs(records[found.value].actions);
      if key in whole && r.Some? {
        ResolutionExact(lists[key]);
      }
    }

    lemma WholeHasRecord(key: nat)
      requires Valid() && key in whole
      ensures HasRecord(key) && HasRoom(key)
    {
      hide Tracked;
      assert Recorded(key);
    }

    lemma SameRecords(before: seq<Record>, key: nat)
      requires records.Length == MAX_RECORDS == |before| && records[..] == before
      ensures HasRecord(key) <==> exists i :: 0 <= i < MAX_RECORDS && Of(before[i], key)
    {
      hide Of;
      assert forall i :: 0 <= i < MAX_RECORDS ==> records[i] == before[i];
    }

    /** A list begun while the table was full: its first action is lost, and once
        another list is gone the rest is resolved as if it were all. */
    method LateRecord(key: nat, other: nat, first: Action, second: Action) returns (r: Option<(nat, nat)>)
      requires Valid() && key != other && key in lists && lists[key] == [] && !HasRoom(key) && HasRecord(other)
      requires Interposed(first) && Interposed(second)
      modifies this, records
      ensures Valid() && key in lists && lists[key] == [first, second] && key !in whole
      ensures r == Resolve([second])
    {
      hide Resolve, Tracked;
      if key in whole {
        WholeHasRecord(key);
      }
      Append(key, first);
      SameRecords(old(records[..]), key);
      SameRecords(old(records[..]), other);
      Destroy(other);
      Append(key, second);
      r := ResolveList(key);
    }
  }

  lemma TrackedMore(actions: seq<Action>, a: Action)
    ensures Tracked(actions + [a]) == if Interposed(a) then Tracked(actions) + [a] else Tracked(actions)
  {
    assert (actions + [a])[..|actions|] == actions;
  }

  const LATE := [Dup2(3, 1), Close(5)]

  /** The list sends the output to 3, whoever the parent is. */
  lemma LateOutput(parent: Descriptors)
    requires {1, 2, 3} <= parent.Keys && parent[1] != parent[3]
    ensures Resolve(Tracked(LATE)) == Some((3, 2)) && Resolve([Close(5)]) == Some((1, 2))
    ensures !Right(LATE, parent, 1, 2)
  {
    assert LATE[..1] == [Dup2(3, 1)] && LATE[..1][..0] == [] && [Close(5)][..0] == [];
    assert ResolveAll([Dup2(3, 1)]) == Some(PARENTS.(out := 3));
    assert Apply([Dup2(3, 1)], parent) == Some(parent[1 := parent[3]]);
  }

  /** From the empty table: 128 lists are begun, then one more, with its output
      sent to 3. After one of the others is destroyed and a close is added, its
      output resolves to the parent's own. */
  method LateRecordMisresolves() returns (registry: Registry, r: Option<(nat, nat)>)
    ensures fresh(registry) && registry.Valid() && MAX_RECORDS in registry.lists
    ensures registry.lists[MAX_RECORDS] == LATE && r == Some((1, 2))
    ensures forall parent: Descriptors :: {1, 2, 3} <= parent.Keys && parent[1] != parent[3] ==>
              Resolve(Tracked(LATE)) == Some((3, 2)) && !Right(LATE, parent, 1, 2)
  {
    hide Resolve, Tracked, Right;
    registry := new Registry();
    for key := 0 to MAX_RECORDS
      invariant fresh(registry) && fresh(registry.records) && registry.Valid()
      invariant forall i :: 0 <= i < MAX_RECORDS ==>
                  registry.records[i].used == (i < key) && (i < key ==> registry.records[i].key == i)
    {
      assert !registry.records[key].used && !registry.HasRecord(key);
      var slot := registry.Init(key);
      assert slot == Some(key);
      assert registry.records[..][key].key == key;
    }
    assert !registry.HasRoom(MAX_RECORDS);
    var none := registry.Init(MAX_RECORDS);
    assert Of(registry.records[0], 0);
    r := registry.LateRecord(MAX_RECORDS, 0, Dup2(3, 1), Close(5));
    forall parent: Descriptors | {1, 2, 3} <= parent.Keys && parent[1] != parent[3]
      ensures Resolve(Tracked(LATE)) == Some((3, 2)) && !Right(LATE, parent, 1, 2)
    {
      LateOutput(parent);
    }
    LateOutput(map[1 := 1, 2 := 2, 3 := 3]);
  }
}
