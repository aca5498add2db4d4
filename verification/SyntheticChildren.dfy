/** Children that were answered without being run: their exit statuses wait in a
    fixed table until a wait call collects them. */
module SyntheticChildren {
  import opened Wrappers

  const MAX_CHILDREN := 128
  const PID_START := 1073000000
  const PID_FLOOR := 1070000000
  const PERIOD := PID_START - PID_FLOOR + 1

  datatype Child = Child(used: bool, pid: int, exitCode: int)

  const NO_CHILD := Child(false, 0, 0)

  /** The pid of the registration with this number, counting from 0. */
  function PidOf(serial: nat): (pid: int)
    ensures PID_FLOOR <= pid <= PID_START
  {
    PID_START - serial % PERIOD
  }

  /** The wait status of a child that exited with a code. */
  function WaitStatus(exitCode: int): int {
    exitCode % 256 * 256
  }

  /** What the macros of wait(2) read from the status: an exit, not a signal, and
      the low byte of the code. */
  lemma WaitStatusReads(exitCode: int)
    ensures WaitStatus(exitCode) % 128 == 0
    ensures WaitStatus(exitCode) / 256 % 256 == exitCode % 256 && 0 <= WaitStatus(exitCode) < 65536
  {
  }

  /** Two registrations share a pid only a whole period apart. */
  lemma SamePidApart(a: nat, b: nat)
    requires a < b && PidOf(a) == PidOf(b)
    ensures b - a >= PERIOD
  {
    var k := b / PERIOD - a / PERIOD;
    assert b - a == k * PERIOD;
    assert k >= 1;
  }

  /** The first used slot with a pid, or any, from `i` on. */
  function FirstSlot(children: seq<Child>, pid: int, i: nat): (r: Option<nat>)
    requires i <= |children|
    ensures r.Some? ==> i <= r.value < |children| && Wanted(children[r.value], pid)
    ensures r.None? ==> forall k :: i <= k < |children| ==> !Wanted(children[k], pid)
    decreases |children| - i
  {
    if i == |children| then None else if Wanted(children[i], pid) then Some(i) else FirstSlot(children, pid, i + 1)
  }

  /** A positive pid asks for that child, -1 for any, others for none. */
  predicate Wanted(child: Child, pid: int) {
    child.used && (pid == -1 || (pid > 0 && child.pid == pid))
  }

  // ---- Which registrations wait

  /** The registrations whose children wait in the table; `serials` says which
      registration each slot was filled by. */
  ghost function LiveIn(children: seq<Child>, serials: seq<nat>): set<nat>
    requires |children| == |serials|
  {
    set i | 0 <= i < |children| && children[i].used :: serials[i]
  }

  ghost predicate OneSlotEach(children: seq<Child>, serials: seq<nat>)
    requires |children| == |serials|
  {
    forall i, j :: 0 <= i < j < |children| && children[i].used && children[j].used ==> serials[i] != serials[j]
  }

  /** A used slot holds the pid and exit code of its registration. */
  ghost predicate Faithful(children: seq<Child>, serials: seq<nat>, codes: seq<int>)
    requires |children| == |serials|
  {
    forall i :: 0 <= i < |children| && children[i].used ==>
                  serials[i] < |codes| && children[i] == Child(true, PidOf(serials[i]), codes[serials[i]])
  }

  /** Every registration waits, was delivered or was discarded, and only one of
      these. */
  ghost predicate Partition(live: set<nat>, delivered: set<nat>, discarded: set<nat>, registered: nat) {
    && live !! delivered && live !! discarded && delivered !! discarded
    && forall n: nat :: n in live || n in delivered || n in discarded <==> n < registered
  }

  lemma OneMoreWaits(live: set<nat>, delivered: set<nat>, discarded: set<nat>, registered: nat)
    requires Partition(live, delivered, discarded, registered)
    ensures Partition(live + {registered}, delivered, discarded, registered + 1)
  {
  }

  lemma NextPid(n: nat)
    ensures PidOf(n + 1) == if PidOf(n) - 1 < PID_FLOOR then PID_START else PidOf(n) - 1
  {
  }

  /** The registrations a wait for `pid` may collect: all for -1, those with the
      pid for a positive one, none otherwise. */
  ghost predicate Awaited(live: set<nat>, pid: int, serial: nat) {
    serial in live && (pid == -1 || (pid > 0 && PidOf(serial) == pid))
  }

  lemma WantedWaits(children: seq<Child>, serials: seq<nat>, codes: seq<int>, pid: int)
    requires |children| == |serials| && Faithful(children, serials, codes)
    ensures var found := FirstSlot(children, pid, 0);
            && (found.None? ==> forall s :: !Awaited(LiveIn(children, serials), pid, s))
            && (found.Some? ==> Awaited(LiveIn(children, serials), pid, serials[found.value]))
  {
    hide PidOf;
  }

  lemma LiveAdds(children: seq<Child>, serials: seq<nat>, i: nat, child: Child, serial: nat)
    requires i < |children| == |serials| && !children[i].used && child.used
    ensures LiveIn(children[i := child], serials[i := serial]) == LiveIn(children, serials) + {serial}
  {
    var children', serials' := children[i := child], serials[i := serial];
    assert children'[i].used && serials'[i] == serial;
    forall n | n in LiveIn(children, serials)
      ensures n in LiveIn(children', serials')
    {
      var k :| 0 <= k < |children| && children[k].used && serials[k] == n;
      assert children'[k].used && serials'[k] == n;
    }
  }

  lemma LiveDrops(children: seq<Child>, serials: seq<nat>, i: nat)
    requires i < |children| == |serials| && children[i].used && OneSlotEach(children, serials)
    ensures LiveIn(children[i := NO_CHILD], serials) == LiveIn(children, serials) - {serials[i]}
    ensures serials[i] in LiveIn(children, serials)
  {
    var children' := children[i := NO_CHILD];
    forall n | n in LiveIn(children, serials) && n != serials[i]
      ensures n in LiveIn(children', serials)
    {
      var k :| 0 <= k < |children| && children[k].used && serials[k] == n;
      assert children'[k].used && serials[k] == n;
    }
  }

  function UsedSlots(children: seq<Child>): nat {
    if children == [] then 0
    else UsedSlots(children[..|children| - 1]) + if children[|children| - 1].used then 1 else 0
  }

  lemma {:induction false} UsedAreLive(children: seq<Child>, serials: seq<nat>)
    requires |children| == |serials| && OneSlotEach(children, serials)
    ensures |LiveIn(children, serials)| == UsedSlots(children) <= |children|
  {
    if children != [] {
      var last := |children| - 1;
      UsedAreLive(children[..last], serials[..last]);
      var before := LiveIn(children[..last], serials[..last]);
      if children[last].used {
        assert LiveIn(children, serials) == before + {serials[last]} by {
          LastLive(children, serials);
        }
        assert serials[last] !in before;
      } else {
        assert LiveIn(children, serials) == before by {
          LastLive(children, serials);
        }
      }
    }
  }

  lemma LastLive(children: seq<Child>, serials: seq<nat>)
    requires 0 < |children| == |serials|
    ensures var last := |children| - 1;
            LiveIn(children, serials) ==
            LiveIn(children[..last], serials[..last]) + if children[last].used then {serials[last]} else {}
  {
    var last := |children| - 1;
    forall n | n in LiveIn(children[..last], serials[..last])
      ensures n in LiveIn(children, serials)
    {
      var k :| 0 <= k < last && children[..last][k].used && serials[..last][k] == n;
      assert children[k].used && serials[k] == n;
    }
    forall n | n in LiveIn(children, serials) && !(children[last].used && n == serials[last])
      ensures n in LiveIn(children[..last], serials[..last])
    {
      var k :| 0 <= k < |children| && children[k].used && serials[k] == n;
      assert children[..last][k].used && serials[..last][k] == n;
    }
  }

  // ---- The table

  datatype Op = Register(exitCode: int) | Consume(pid: int) | Discard(pid: int)

  class Table {
    const children: array<Child>
    var nextPid: int
    ghost var serials: seq<nat>
    ghost var codes: seq<int>         // the exit code of every registration so far
    ghost var delivered: set<nat>     // registrations whose status was collected
    ghost var discarded: set<nat>

    ghost function Live(): set<nat>
      requires |serials| == children.Length
      reads this, children
    {
      LiveIn(children[..], serials)
    }

    ghost predicate Valid()
      reads this, children
    {
      && children.Length == MAX_CHILDREN == |serials| && nextPid == PidOf(|codes|)
      && Faithful(children[..], serials, codes) && OneSlotEach(children[..], serials)
      && Partition(Live(), delivered, discarded, |codes|)
    }

    constructor ()
      ensures Valid() && fresh(children) && codes == [] && delivered == {} && discarded == {}
    {
      children := new Child[MAX_CHILDREN](_ => NO_CHILD);
      nextPid := PID_START;
      serials := seq(MAX_CHILDREN, _ => 0);
      codes, delivered, discarded := [], {}, {};
    }

    method RegisterChild(exitCode: int) returns (pid: Option<int>)
      requires Valid()
      modifies this, children
      ensures Valid() && delivered == old(delivered) && discarded == old(discarded)
      ensures pid.None? <==> forall i :: 0 <= i < MAX_CHILDREN ==> old(children[i].used)
      ensures pid.None? ==> codes == old(codes) && Live() == old(Live())
      ensures pid.Some? ==> pid.value == PidOf(old(|codes|)) && codes == old(codes) + [exitCode] &&
                            Live() == old(Live()) + {old(|codes|)}
    {
      hide PidOf, Partition, LiveIn;
      for i := 0 to MAX_CHILDREN
        invariant forall k :: 0 <= k < i ==> children[k].used
        invariant unchanged(this) && unchanged(children)
      {
        if !children[i].used {
          pid := Some(nextPid);
          nextPid := nextPid - 1;
          if nextPid < PID_FLOOR {
            nextPid := PID_START;
          }
          children[i] := Child(true, pid.value, exitCode);
          NextPid(|codes|);
          OneMoreWaits(old(Live()), delivered, discarded, |codes|);
          LiveAdds(old(children[..]), serials, i, children[i], |codes|);
          assert children[..] == old(children[..])[i := children[i]];
          serials := serials[i := |codes|];
          codes := codes + [exitCode];
          return;
        }
      }
      pid := None;
    }

    /** Find the first slot a wait call could collect. */
    method FindSlot(pid: int) returns (found: Option<nat>)
      requires Valid()
      ensures found == FirstSlot(children[..], pid, 0)
    {
      for i := 0 to MAX_CHILDREN
        invariant FirstSlot(children[..], pid, 0) == FirstSlot(children[..], pid, i)
      {
        if Wanted(children[i], pid) {
          return Some(i);
        }
      }
      found := None;
    }

    /** Empty a used slot. */
    method Clear(i: nat)
      requires Valid() && i < MAX_CHILDREN && children[i].used
      modifies children
      ensures children[..] == old(children[..])[i := NO_CHILD]
      ensures Live() == old(Live()) - {serials[i]} && serials[i] in old(Live())
      ensures Faithful(children[..], serials, codes) && OneSlotEach(children[..], serials)
    {
      hide PidOf;
      LiveDrops(children[..], serials, i);
      children[i] := NO_CHILD;
      assert children[..] == old(children[..])[i := NO_CHILD];
    }

    /** Collect one waiting child: its status is that of a registration that was
        never collected before and never will be again. */
    method ConsumeChild(pid: int) returns (r: Option<(int, int)>, ghost serial: nat)
      requires Valid()
      modifies this, children
      ensures Valid() && codes == old(codes) && discarded == old(discarded)
      ensures r.None? <==> FirstSlot(old(children[..]), pid, 0).None?
      ensures r.None? ==> forall s :: !Awaited(old(Live()), pid, s)
      ensures r.None? ==> delivered == old(delivered) && Live() == old(Live())
      ensures r.Some? ==>
                && Awaited(old(Live()), pid, serial) && serial !in old(delivered)
                && r.value == (PidOf(serial), WaitStatus(codes[serial])) && (pid > 0 ==> r.value.0 == pid)
                && delivered == old(delivered) + {serial} && Live() == old(Live()) - {serial}
    {
      hide PidOf;
      serial := 0;
      var found := FindSlot(pid);
      WantedWaits(children[..], serials, codes, pid);
      if found.None? {
        return None, serial;
      }
      var child := children[found.value];
      serial := serials[found.value];
      Clear(found.value);
      delivered := delivered + {serial};
      r := Some((child.pid, WaitStatus(child.exitCode)));
    }

    method DiscardChild(pid: int)
      requires Valid()
      modifies this, children
      ensures Valid() && codes == old(codes) && delivered == old(delivered)
      ensures var found := FirstSlot(old(children[..]), pid, 0);
              if pid <= 0 || found.None? then discarded == old(discarded) && Live() == old(Live())
              else discarded == old(discarded) + {serials[found.value]} &&
                   Live() == old(Live()) - {serials[found.value]}
      ensures if pid > 0 && exists s :: Awaited(old(Live()), pid, s) then
                exists s :: Awaited(old(Live()), pid, s) &&
                            discarded == old(discarded) + {s} && Live() == old(Live()) - {s}
              else discarded == old(discarded) && Live() == old(Live())
    {
      hide PidOf;
      WantedWaits(children[..], serials, codes, pid);
      if pid <= 0 {
        return;
      }
      var found := FindSlot(pid);
      if found.Some? {
        Clear(found.value);
        discarded := discarded + {serials[found.value]};
      }
    }

    /** After any sequence of operations every registration waits, was delivered
        or was discarded, the used slots are those that wait, and waiting children
        with one pid were registered at least 3000001 registrations apart. */
    method Drive(ops: seq<Op>)
      requires Valid()
      modifies this, children
      ensures Valid() && old(codes) <= codes && old(delivered) <= delivered && old(discarded) <= discarded
      ensures UsedSlots(children[..]) == |codes| - |delivered| - |discarded| <= MAX_CHILDREN
      ensures forall i, j :: 0 <= i < j < MAX_CHILDREN && children[i].used && children[j].used &&
                             children[i].pid == children[j].pid ==>
                serials[i] + 3000001 <= serials[j] || serials[j] + 3000001 <= serials[i]
    {
      hide PidOf, LiveIn, Partition, UsedSlots;
      for k := 0 to |ops|
        invariant Valid() && old(codes) <= codes && old(delivered) <= delivered && old(discarded) <= discarded
      {
        match ops[k] {
          case Register(exitCode) =>
            var pid := RegisterChild(exitCode);
          case Consume(pid) =>
            var r, serial := ConsumeChild(pid);
          case Discard(pid) => DiscardChild(pid);
        }
      }
      Balance(children[..], serials, delivered, discarded, |codes|);
      forall i, j | 0 <= i < j < MAX_CHILDREN && children[i].used && children[j].used &&
                    children[i].pid == children[j].pid
        ensures serials[i] + 3000001 <= serials[j] || serials[j] + 3000001 <= serials[i]
      {
        SharedPidFarApart(children[..], serials, codes, i, j);
      }
    }
  }

  /** In every state: used slots are registrations minus those delivered and
      discarded, and never more than the table holds. */
  lemma Balance(children: seq<Child>, serials: seq<nat>, delivered: set<nat>, discarded: set<nat>, registered: nat)
    requires |children| == |serials| && OneSlotEach(children, serials)
    requires Partition(LiveIn(children, serials), delivered, discarded, registered)
    ensures UsedSlots(children) == registered - |delivered| - |discarded| <= |children|
  {
    hide LiveIn, OneSlotEach, UsedSlots;
    UsedAreLive(children, serials);
    ThreeParts(LiveIn(children, serials), delivered, discarded, registered);
  }

  lemma ThreeParts(a: set<nat>, b: set<nat>, c: set<nat>, n: nat)
    requires Partition(a, b, c, n)
    ensures |a| + |b| + |c| == n
  {
    assert a + b + c == UpTo(n);
    assert |a + b| == |a| + |b|;
    assert |a + b + c| == |a + b| + |c|;
  }

  ghost function UpTo(n: nat): (s: set<nat>)
    ensures |s| == n && forall k: nat :: k in s <==> k < n
  {
    if n == 0 then {} else UpTo(n - 1) + {n - 1}
  }

  /** Two waiting children share a pid only if at least a whole period of
      registrations lies between them. */
  lemma SharedPidFarApart(children: seq<Child>, serials: seq<nat>, codes: seq<int>, i: nat, j: nat)
    requires |children| == |serials| && Faithful(children, serials, codes) && OneSlotEach(children, serials)
    requires i < j < |children| && children[i].used && children[j].used && children[i].pid == children[j].pid
    ensures serials[i] + 3000001 <= serials[j] || serials[j] + 3000001 <= serials[i]
  {
    hide PidOf;
    if serials[i] < serials[j] {
      SamePidApart(serials[i], serials[j]);
    } else {
      SamePidApart(serials[j], serials[i]);
    }
  }
}
