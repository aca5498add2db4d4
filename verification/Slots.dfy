/** Tables of numbers in four bytes each, and byte strings stored at a place. */
module Slots {
  import opened Wrappers
  import opened SnapshotTable

  // ---- Reads

  /** The numbers as 32 bits each, low byte first. */
  function Words(ns: seq<nat>): (b: Bytes)
    ensures |b| == 4 * |ns|
  {
    if ns == [] then [] else Put32(Truncated(ns[0])) + Words(ns[1..])
  }

  lemma {:induction false} WordAt(ns: seq<nat>, k: nat)
    requires k < |ns|
    ensures Words(ns)[4 * k..4 * k + 4] == Put32(Truncated(ns[k]))
  {
    hide Put32;
    var first, rest := Put32(Truncated(ns[0])), Words(ns[1..]);
    if k > 0 {
      WordAt(ns[1..], k - 1);
      assert (first + rest)[4 * k..4 * k + 4] == rest[4 * (k - 1)..4 * (k - 1) + 4];
    } else {
      assert (first + rest)[..4] == first;
    }
  }

  lemma PutRead(data: Bytes, at: nat, n: nat)
    requires n < U32 && Stored(data, Slot(at, Put32(n)))
    ensures at + 4 <= |data| && Le32(data, at) == n
  {
    hide Put32, Le32;
    PutLe32(n, data, at);
  }

  /** A number is read back from where it was put. */
  lemma NumberRead(data: Bytes, at: nat, ns: seq<nat>, k: nat)
    requires k < |ns| && Stored(data, Slot(at, Words(ns)))
    ensures at + 4 * k + 4 <= |data| && Le32(data, at + 4 * k) == Truncated(ns[k])
  {
    hide Put32, Le32, Words, Stored, Truncated;
    var i, n := 4 * k, Truncated(ns[k]);
    assert Words(ns)[i..i + 4] == Put32(n) by {
      WordAt(ns, k);
    }
    PartStored(data, at, Words(ns), i, i + 4);
    PutRead(data, at + i, n);
  }

  // ---- Rows of numbers

  ghost predicate Wide(rows: seq<seq<nat>>, size: nat) {
    forall i :: 0 <= i < |rows| ==> 4 * |rows[i]| == size
  }

  function Table(rows: seq<seq<nat>>): Bytes {
    if rows == [] then [] else Words(rows[0]) + Table(rows[1..])
  }

  lemma {:induction false} TableSize(rows: seq<seq<nat>>, size: nat)
    requires Wide(rows, size)
    ensures |Table(rows)| == |rows| * size
  {
    if rows != [] {
      TableSize(rows[1..], size);
      Times(|rows| - 1, size);
    }
  }

  lemma Times(n: nat, size: nat)
    ensures (n + 1) * size == n * size + size
  {
  }

  lemma LaterSlice(first: Bytes, rest: Bytes, lo: nat, hi: nat)
    requires lo <= hi <= |rest|
    ensures (first + rest)[|first| + lo..|first| + hi] == rest[lo..hi]
  {
  }

  lemma {:induction false} RowAt(rows: seq<seq<nat>>, size: nat, i: nat)
    requires i < |rows| && Wide(rows, size)
    ensures i * size + size <= |Table(rows)| && Table(rows)[i * size..i * size + size] == Words(rows[i])
  {
    hide Words;
    var first, rest := Words(rows[0]), Table(rows[1..]);
    if i > 0 {
      RowAt(rows[1..], size, i - 1);
      Times(i - 1, size);
      LaterSlice(first, rest, (i - 1) * size, (i - 1) * size + size);
    } else {
      assert (first + rest)[..size] == first;
    }
  }

  predicate Small(ns: seq<nat>) {
    forall k :: 0 <= k < |ns| ==> ns[k] < U32
  }

  /** The numbers stand at a place. */
  predicate Reads(data: Bytes, at: nat, ns: seq<nat>) {
    at + 4 * |ns| <= |data| && forall k :: 0 <= k < |ns| ==> Le32(data, at + 4 * k) == ns[k]
  }

  /** Reads that fit are read back from where they were put. */
  lemma ReadsBack(data: Bytes, at: nat, ns: seq<nat>)
    requires Small(ns) && Stored(data, Slot(at, Words(ns)))
    ensures Reads(data, at, ns)
  {
    hide Words, Le32, Truncated;
    forall k | 0 <= k < |ns|
      ensures at + 4 * k + 4 <= |data| && Le32(data, at + 4 * k) == ns[k]
    {
      NumberRead(data, at, ns, k);
    }
  }

  /** A row is read back from a stored table. */
  lemma RowRead(data: Bytes, at: nat, rows: seq<seq<nat>>, size: nat, i: nat)
    requires Wide(rows, size) && i < |rows| && Small(rows[i]) && Stored(data, Slot(at, Table(rows)))
    ensures Reads(data, at + i * size, rows[i])
  {
    hide Table, Words, Stored, Small, Reads;
    var k, row := i * size, rows[i];
    assert k + size <= |Table(rows)| && Table(rows)[k..k + size] == Words(row) by {
      RowAt(rows, size, i);
    }
    PartStored(data, at, Table(rows), k, k + size);
    ReadsBack(data, at + k, row);
  }

  // ---- Stored strings

  datatype Slot = Slot(offset: nat, bytes: Bytes)

  /** The bytes stand at their place. */
  predicate Stored(data: Bytes, s: Slot) {
    s.offset + |s.bytes| <= |data| && data[s.offset..s.offset + |s.bytes|] == s.bytes
  }

  lemma PartStored(data: Bytes, at: nat, part: Bytes, lo: nat, hi: nat)
    requires Stored(data, Slot(at, part)) && lo <= hi <= |part|
    ensures Stored(data, Slot(at + lo, part[lo..hi]))
  {
    SliceOfSlice(data, at, |part|, lo, hi - lo);
  }

  /** What the data holds from a place on. */
  predicate From(data: Bytes, at: nat, rest: Bytes) {
    at + |rest| == |data| && data[at..] == rest
  }

  lemma FromStart(data: Bytes)
    ensures From(data, 0, data)
  {
  }

  lemma StoredFirst(data: Bytes, at: nat, part: Bytes, rest: Bytes)
    requires From(data, at, part + rest)
    ensures Stored(data, Slot(at, part)) && From(data, at + |part|, rest)
  {
    assert data[at..at + |part|] == data[at..][..|part|];
    assert data[at + |part|..] == data[at..][|part|..];
  }
}
