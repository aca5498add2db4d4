/** The bytes of a history corpus, as the daemon writes them, and the proof that
    the reader finds in them the commits written. */
module HistoryWriter {
  import opened Wrappers
  import opened SnapshotTable
  import opened Slots
  import opened CorpusHistory
  import C = CorpusFormat
  import G = GitHistory

  /** A commit to be recorded, its paths in order. */
  datatype Source = Source(hash: Bytes, oneline: Bytes, paths: seq<Bytes>, parents: nat)

  // ---- What is written

  function Joined(parts: seq<Bytes>): Bytes {
    if parts == [] then [] else parts[0] + Joined(parts[1..])
  }

  /** The texts of the commits, one after the other. */
  function Payload(cs: seq<Source>): Bytes {
    if cs == [] then []
    else cs[0].hash + (cs[0].oneline + (Joined(cs[0].paths) + Payload(cs[1..])))
  }

  function PathCount(cs: seq<Source>): nat {
    if cs == [] then 0 else |cs[0].paths| + PathCount(cs[1..])
  }

  /** A commit with the places of its texts; `first` is the number of its first
      path. */
  datatype Placed = Placed(hash: Slot, oneline: Slot, first: nat, paths: seq<Slot>, parents: nat)

  function PlacePaths(paths: seq<Bytes>, at: nat): (slots: seq<Slot>)
    ensures |slots| == |paths|
  {
    if paths == [] then [] else [Slot(at, paths[0])] + PlacePaths(paths[1..], at + |paths[0]|)
  }

  function Place(cs: seq<Source>, at: nat, first: nat): (placed: seq<Placed>)
    ensures |placed| == |cs|
  {
    if cs == [] then []
    else
      var c := cs[0];
      var line := at + |c.hash|;
      var paths := line + |c.oneline|;
      [Placed(Slot(at, c.hash), Slot(line, c.oneline), first, PlacePaths(c.paths, paths), c.parents)] +
      Place(cs[1..], paths + |Joined(c.paths)|, first + |c.paths|)
  }

  function AllPaths(placed: seq<Placed>): seq<Slot> {
    if placed == [] then [] else placed[0].paths + AllPaths(placed[1..])
  }

  function CommitRow(p: Placed): seq<nat> {
    [p.hash.offset, |p.hash.bytes|, p.oneline.offset, |p.oneline.bytes|, p.first, |p.paths|, p.parents, 0]
  }

  function CommitRows(placed: seq<Placed>): (rows: seq<seq<nat>>)
    ensures |rows| == |placed|
  {
    seq(|placed|, i requires 0 <= i < |placed| => CommitRow(placed[i]))
  }

  function PathRows(paths: seq<Slot>): (rows: seq<seq<nat>>)
    ensures |rows| == |paths|
  {
    seq(|paths|, i requires 0 <= i < |paths| => [paths[i].offset, |paths[i].bytes|])
  }

  /** Where the payload starts. */
  function Start(cs: seq<Source>): nat {
    32 + |cs| * 32 + PathCount(cs) * 8
  }

  function Commits(cs: seq<Source>): (placed: seq<Placed>)
    ensures |placed| == |cs|
  {
    Place(cs, Start(cs), 0)
  }

  function Head(cs: seq<Source>, complete: bool): seq<nat> {
    [1, |cs|, 32, 32 + |cs| * 32, Start(cs), if complete then 1 else 0]
  }

  /** The corpus: the mark and the sizes, a row for each commit, a row for each
      path, and the texts. */
  function History(cs: seq<Source>, complete: bool): Bytes {
    BytesOf("SQGITH01") +
    (Words(Head(cs, complete)) +
     (Table(CommitRows(Commits(cs))) + (Table(PathRows(AllPaths(Commits(cs)))) + Payload(cs))))
  }

  predicate Writable(cs: seq<Source>, complete: bool) {
    && 1 <= |cs| <= 512 && Start(cs) < 8 * 1024 * 1024 && |History(cs, complete)| <= 8 * 1024 * 1024
    && forall i :: 0 <= i < |cs| ==> cs[i].parents < U32
  }

  // ---- Where it stands

  /** A text stands at its place behind another. */
  predicate Behind(data: Bytes, at: nat, s: Slot, bytes: Bytes) {
    Stored(data, s) && s.bytes == bytes && at <= s.offset
  }

  lemma {:induction false} PathsStored(data: Bytes, at: nat, paths: seq<Bytes>, rest: Bytes)
    requires From(data, at, Joined(paths) + rest)
    ensures From(data, at + |Joined(paths)|, rest)
    ensures forall j :: 0 <= j < |paths| ==> Behind(data, at, PlacePaths(paths, at)[j], paths[j])
    decreases |paths|
  {
    hide From, Stored;
    if paths == [] {
      assert [] + rest == rest;
    } else {
      var later := Joined(paths[1..]);
      assert paths[0] + later + rest == paths[0] + (later + rest);
      StoredFirst(data, at, paths[0], later + rest);
      PathsStored(data, at + |paths[0]|, paths[1..], rest);
    }
  }

  /** A commit stands where it was placed, and its paths are among all. */
  ghost predicate Standing(data: Bytes, at: nat, all: seq<Slot>, first: nat, p: Placed, c: Source) {
    && Behind(data, at, p.hash, c.hash) && Behind(data, at, p.oneline, c.oneline)
    && |p.paths| == |c.paths| && p.parents == c.parents
    && (forall j :: 0 <= j < |c.paths| ==> Behind(data, at, p.paths[j], c.paths[j]))
    && first <= p.first && p.first - first + |p.paths| <= |all|
    && all[p.first - first..p.first - first + |p.paths|] == p.paths
  }

  lemma {:induction false} AllStanding(data: Bytes, cs: seq<Source>, at: nat, first: nat)
    requires From(data, at, Payload(cs))
    ensures var placed := Place(cs, at, first);
            && |AllPaths(placed)| == PathCount(cs)
            && forall i :: 0 <= i < |cs| ==> Standing(data, at, AllPaths(placed), first, placed[i], cs[i])
  {
    hide From, Stored, Standing, Behind, PlacePaths, Joined;
    if cs != [] {
      var c, placed := cs[0], Place(cs, at, first);
      var paths, rest := Joined(c.paths), Payload(cs[1..]);
      var next := at + |c.hash| + |c.oneline| + |paths|;
      StoredFirst(data, at, c.hash, c.oneline + (paths + rest));
      StoredFirst(data, at + |c.hash|, c.oneline, paths + rest);
      PathsStored(data, at + |c.hash| + |c.oneline|, c.paths, rest);
      FirstStanding(data, at, placed, first, c);
      AllStanding(data, cs[1..], next, first + |c.paths|);
      assert placed[1..] == Place(cs[1..], next, first + |c.paths|);
      forall i | 1 <= i < |cs|
        ensures Standing(data, at, AllPaths(placed), first, placed[i], cs[i])
      {
        var later := AllPaths(placed[1..]);
        assert placed[1..][i - 1] == placed[i] && cs[1..][i - 1] == cs[i];
        LaterStanding(data, at, placed[0].paths, next, later, first, placed[i], cs[i]);
      }
    }
  }

  lemma FirstStanding(data: Bytes, at: nat, placed: seq<Placed>, first: nat, c: Source)
    requires placed != [] && placed[0].first == first && |placed[0].paths| == |c.paths|
    requires placed[0].hash == Slot(at, c.hash) && placed[0].oneline == Slot(at + |c.hash|, c.oneline)
    requires placed[0].parents == c.parents && Stored(data, placed[0].hash) && Stored(data, placed[0].oneline)
    requires forall j :: 0 <= j < |c.paths| ==>
               Behind(data, at + |c.hash| + |c.oneline|, placed[0].paths[j], c.paths[j])
    ensures Standing(data, at, AllPaths(placed), first, placed[0], c)
  {
    AllFirst(placed);
    IsBehind(data, at, placed[0].hash, c.hash);
    IsBehind(data, at, placed[0].oneline, c.oneline);
    hide Stored, AllPaths, Behind;
    forall j | 0 <= j < |c.paths|
      ensures Behind(data, at, placed[0].paths[j], c.paths[j])
    {
      StillBehind(data, at, at + |c.hash| + |c.oneline|, placed[0].paths[j], c.paths[j]);
    }
  }

  lemma IsBehind(data: Bytes, at: nat, s: Slot, bytes: Bytes)
    requires Stored(data, s) && s.bytes == bytes && at <= s.offset
    ensures Behind(data, at, s, bytes)
  {
  }

  lemma StillBehind(data: Bytes, at: nat, next: nat, s: Slot, bytes: Bytes)
    requires Behind(data, next, s, bytes) && at <= next
    ensures Behind(data, at, s, bytes)
  {
  }

  lemma AllFirst(placed: seq<Placed>)
    requires placed != []
    ensures var n := |placed[0].paths|;
            |AllPaths(placed)| >= n && AllPaths(placed)[0..n] == placed[0].paths
  {
  }

  lemma LaterStanding(data: Bytes, at: nat, before: seq<Slot>, next: nat, later: seq<Slot>, first: nat, p: Placed,
                      c: Source)
    requires at <= next && Standing(data, next, later, first + |before|, p, c)
    ensures Standing(data, at, before + later, first, p, c)
  {
    hide Stored;
    var k := p.first - first - |before|;
    assert (before + later)[|before| + k..|before| + k + |p.paths|] == later[k..k + |p.paths|];
  }

  // ---- Reading it

  function LayoutOf(cs: seq<Source>, complete: bool): C.HistoryCorpus {
    C.HistoryCorpus(|cs|, 32, 32 + |cs| * 32, PathCount(cs), Start(cs), complete)
  }

  /** Where the parts of the corpus lie. */
  lemma PartsOf(cs: seq<Source>, complete: bool)
    ensures var data := History(cs, complete);
            && |data| >= Start(cs) && data[..8] == BytesOf("SQGITH01")
            && Stored(data, Slot(8, Words(Head(cs, complete))))
            && Stored(data, Slot(32, Table(CommitRows(Commits(cs)))))
            && Stored(data, Slot(32 + |cs| * 32, Table(PathRows(AllPaths(Commits(cs))))))
            && |AllPaths(Commits(cs))| == PathCount(cs)
            && forall i :: 0 <= i < |cs| ==>
                 Standing(data, Start(cs), AllPaths(Commits(cs)), 0, Commits(cs)[i], cs[i])
  {
    hide Words, Table, Payload, Place, Standing, PathCount, Joined, AllPaths;
    var data, placed := History(cs, complete), Commits(cs);
    var paths := AllPaths(placed);
    Counted(cs, Start(cs), 0);
    TableSize(CommitRows(placed), 32);
    TableSize(PathRows(paths), 8);
    var b, c, d, e := Words(Head(cs, complete)), Table(CommitRows(placed)), Table(PathRows(paths)), Payload(cs);
    FromStart(data);
    hide From, Stored;
    StoredFirst(data, 0, BytesOf("SQGITH01"), b + (c + (d + e)));
    StoredFirst(data, 8, b, c + (d + e));
    StoredFirst(data, 32, c, d + e);
    StoredFirst(data, 32 + |cs| * 32, d, e);
    AllStanding(data, cs, Start(cs), 0);
  }

  lemma {:induction false} Counted(cs: seq<Source>, at: nat, first: nat)
    ensures |AllPaths(Place(cs, at, first))| == PathCount(cs)
  {
    hide PlacePaths, Joined;
    if cs != [] {
      var c := cs[0];
      var next := at + |c.hash| + |c.oneline| + |Joined(c.paths)|;
      Counted(cs[1..], next, first + |c.paths|);
      assert Place(cs, at, first)[1..] == Place(cs[1..], next, first + |c.paths|);
    }
  }

  /** The reader accepts the corpus. */
  lemma HistoryAccepted(cs: seq<Source>, complete: bool)
    requires Writable(cs, complete)
    ensures C.DecodeHistory(History(cs, complete)) == Some(LayoutOf(cs, complete))
  {
    PartsOf(cs, complete);
    hide History, Table, Words, Stored, Payload, Place, PathCount, Standing, AllPaths, Commits, Le32;
    var data, ns := History(cs, complete), Head(cs, complete);
    ReadsBack(data, 8, ns);
    assert Le32(data, 8 + 4 * 0) == ns[0] && Le32(data, 8 + 4 * 1) == ns[1] && Le32(data, 8 + 4 * 2) == ns[2];
    assert Le32(data, 8 + 4 * 3) == ns[3] && Le32(data, 8 + 4 * 4) == ns[4] && Le32(data, 8 + 4 * 5) == ns[5];
    assert BytesOf("SQGITH01") == C.HISTORY_MAGIC;
  }

  /** The reader takes a commit with a hash of 40 bytes, a line, and no NUL. */
  predicate GoodCommit(c: Source) {
    |c.hash| == 40 && |c.oneline| >= 1 && 0 !in c.hash && 0 !in c.oneline
  }

  predicate GoodPath(path: Bytes) {
    1 <= |path| < 4096 && 0 !in path
  }

  function PathSaid(path: Bytes): Option<string> {
    if GoodPath(path) then Some(C.Text(path)) else None
  }

  /** A commit as the log evaluation knows it. */
  function CommitSaid(c: Source): Option<G.Commit> {
    if !GoodCommit(c) then None
    else
      Some(G.Commit(C.Text(c.oneline), seq(|c.paths|, j requires 0 <= j < |c.paths| => PathSaid(c.paths[j])),
                    c.parents))
  }

  function Said(cs: seq<Source>, complete: bool): G.Corpus {
    G.Corpus(seq(|cs|, i requires 0 <= i < |cs| => CommitSaid(cs[i])), complete)
  }

  function SliceOf(s: Slot): C.Slice {
    C.Slice(s.offset, |s.bytes|)
  }

  /** A stored text fits the reader's checks and is read back. */
  lemma SliceRead(data: Bytes, at: nat, s: Slot, bytes: Bytes)
    requires Behind(data, at, s, bytes) && |data| < U32
    ensures s.offset < U32 && |s.bytes| < U32 && s.bytes == bytes
    ensures C.SliceOk(at, |data|, SliceOf(s)) && C.At(data, SliceOf(s)) == bytes
  {
  }

  /** What holds of a written corpus, for its reader. */
  ghost predicate Written(data: Bytes, cs: seq<Source>, complete: bool) {
    && data == History(cs, complete) && |data| < U32 && C.HistoryLaidOut(data, LayoutOf(cs, complete))
    && Stored(data, Slot(32, Table(CommitRows(Commits(cs)))))
    && Stored(data, Slot(32 + |cs| * 32, Table(PathRows(AllPaths(Commits(cs))))))
    && |AllPaths(Commits(cs))| == PathCount(cs)
    && (forall i :: 0 <= i < |cs| ==> cs[i].parents < U32)
    && (forall i :: 0 <= i < |cs| ==>
          Standing(data, Start(cs), AllPaths(Commits(cs)), 0, Commits(cs)[i], cs[i]))
  }

  lemma IsWritten(cs: seq<Source>, complete: bool)
    requires Writable(cs, complete)
    ensures Written(History(cs, complete), cs, complete)
  {
    PartsOf(cs, complete);
    HistoryAccepted(cs, complete);
    hide History, Table, Words, Stored, Payload, Place, PathCount, Standing, AllPaths, Commits, C.DecodeHistory;
  }

  lemma SmallRow(data: Bytes, at: nat, all: seq<Slot>, p: Placed, c: Source)
    requires Standing(data, at, all, 0, p, c) && |data| < U32 && |all| < U32 && c.parents < U32
    ensures Small(CommitRow(p))
  {
  }

  /** The numbers of a commit's record. */
  lemma RecordRead(data: Bytes, cs: seq<Source>, complete: bool, i: nat)
    requires Written(data, cs, complete) && i < |cs|
    ensures Reads(data, 32 + i * 32, CommitRow(Commits(cs)[i]))
  {
    hide History, Table, Words, Stored, Payload, Place, PathCount, AllPaths, Commits, Standing, Reads, Small;
    hide C.HistoryLaidOut;
    CountSmall(data, cs, complete);
    var p, rows := Commits(cs)[i], CommitRows(Commits(cs));
    SmallRow(data, Start(cs), AllPaths(Commits(cs)), p, cs[i]);
    assert rows[i] == CommitRow(p);
    RowRead(data, 32, rows, 32, i);
  }

  lemma CountSmall(data: Bytes, cs: seq<Source>, complete: bool)
    requires |data| < U32 && C.HistoryLaidOut(data, LayoutOf(cs, complete))
    ensures PathCount(cs) < U32
  {
    hide PathCount;
  }

  /** What the reader makes of a record with these numbers. */
  lemma CommitOfNumbers(data: Bytes, h: C.HistoryCorpus, i: nat, p: Placed)
    requires C.HistoryLaidOut(data, h) && i < h.commits && |data| < U32 && Reads(data, 32 + i * 32, CommitRow(p))
    ensures var hash, line := SliceOf(p.hash), SliceOf(p.oneline);
            C.CommitAt(data, h, i) ==
            if hash.length != 40 || line.length == 0 || !C.SliceOk(h.payload, |data|, hash) ||
               !C.SliceOk(h.payload, |data|, line) || p.first > h.paths || |p.paths| > h.paths - p.first ||
               0 in C.At(data, hash) || 0 in C.At(data, line)
            then None
            else Some(C.HistoryCommit(hash, line, p.first, |p.paths|, p.parents))
  {
    CommitNumbers(data, 32 + i * 32, p);
    C.RecordInside(32, i, h.commits, 32, 32 + h.commits * 32);
    hide Reads, Le32, C.RecordOffset, C.At, CommitRow;
  }

  lemma CommitStored(data: Bytes, h: C.HistoryCorpus, i: nat, p: Placed, c: Source)
    requires C.HistoryLaidOut(data, h) && i < h.commits && |data| < U32 && Reads(data, 32 + i * 32, CommitRow(p))
    requires Behind(data, h.payload, p.hash, c.hash) && Behind(data, h.payload, p.oneline, c.oneline)
    requires p.first + |p.paths| <= h.paths
    ensures var r := C.CommitAt(data, h, i);
            && (r.Some? <==> GoodCommit(c))
            && (r.Some? ==>
                  && r.value == C.HistoryCommit(SliceOf(p.hash), SliceOf(p.oneline), p.first, |p.paths|, p.parents)
                  && C.At(data, r.value.oneline) == c.oneline)
  {
    SliceRead(data, h.payload, p.hash, c.hash);
    SliceRead(data, h.payload, p.oneline, c.oneline);
    CommitOfNumbers(data, h, i, p);
    hide Reads, Behind, C.SliceOk, C.At, CommitRow, C.HistoryLaidOut, C.CommitAt;
  }

  lemma CommitNumbers(data: Bytes, at: nat, p: Placed)
    requires Reads(data, at, CommitRow(p))
    ensures at + 32 <= |data|
    ensures Le32(data, at) == p.hash.offset && Le32(data, at + 4) == |p.hash.bytes|
    ensures Le32(data, at + 8) == p.oneline.offset && Le32(data, at + 12) == |p.oneline.bytes|
    ensures Le32(data, at + 16) == p.first && Le32(data, at + 20) == |p.paths| && Le32(data, at + 24) == p.parents
  {
    hide Le32;
    var row := CommitRow(p);
    assert Le32(data, at + 4 * 0) == row[0] && Le32(data, at + 4 * 1) == row[1] && Le32(data, at + 4 * 2) == row[2];
    assert Le32(data, at + 4 * 3) == row[3] && Le32(data, at + 4 * 4) == row[4] && Le32(data, at + 4 * 5) == row[5];
    assert Le32(data, at + 4 * 6) == row[6];
  }

  lemma CommitAtRead(data: Bytes, cs: seq<Source>, complete: bool, i: nat)
    requires Written(data, cs, complete) && i < |cs|
    ensures var p, c := Commits(cs)[i], C.CommitAt(data, LayoutOf(cs, complete), i);
            && (c.Some? <==> GoodCommit(cs[i]))
            && (c.Some? ==>
                  && c.value == C.HistoryCommit(SliceOf(p.hash), SliceOf(p.oneline), p.first, |p.paths|, p.parents)
                  && C.At(data, c.value.oneline) == cs[i].oneline)
  {
    hide History, Table, Words, Stored, Payload, Place, PathCount, AllPaths, Commits, Behind, C.CommitAt, GoodCommit;
    hide C.HistoryLaidOut, C.At, Reads;
    RecordRead(data, cs, complete, i);
    assert Standing(data, Start(cs), AllPaths(Commits(cs)), 0, Commits(cs)[i], cs[i]);
    CommitStored(data, LayoutOf(cs, complete), i, Commits(cs)[i], cs[i]);
  }

  /** What the reader makes of a path record with these numbers. */
  lemma PathOfNumbers(data: Bytes, h: C.HistoryCorpus, k: nat, s: Slot, path: Bytes)
    requires C.HistoryLaidOut(data, h) && k < h.paths && |data| < U32 && Behind(data, h.payload, s, path)
    requires Reads(data, h.pathRecords + k * 8, [s.offset, |s.bytes|])
    ensures PathText(data, h, k) == PathSaid(path)
  {
    SliceRead(data, h.payload, s, path);
    PathNumbers(data, h.pathRecords + k * 8, s);
    C.RecordInside(h.pathRecords, k, h.paths, 8, h.payload);
    hide Reads, Le32, Behind, C.RecordOffset, C.SliceOk, C.At, C.Text, Stored;
  }

  lemma PathNumbers(data: Bytes, at: nat, s: Slot)
    requires Reads(data, at, [s.offset, |s.bytes|])
    ensures at + 8 <= |data| && Le32(data, at) == s.offset && Le32(data, at + 4) == |s.bytes|
  {
    hide Le32;
    var ns := [s.offset, |s.bytes|];
    assert Le32(data, at + 4 * 0) == ns[0] && Le32(data, at + 4 * 1) == ns[1];
  }

  lemma PathTextRead(data: Bytes, cs: seq<Source>, complete: bool, k: nat, path: Bytes)
    requires Written(data, cs, complete) && k < PathCount(cs)
    requires Behind(data, Start(cs), AllPaths(Commits(cs))[k], path)
    ensures PathText(data, LayoutOf(cs, complete), k) == PathSaid(path)
  {
    hide History, Table, Words, Stored, Payload, Place, PathCount, AllPaths, Commits, Standing, Reads, Behind;
    hide PathText, PathSaid;
    LaidOut(data, cs, complete);
    var all := AllPaths(Commits(cs));
    var rows := PathRows(all);
    assert rows[k] == [all[k].offset, |all[k].bytes|];
    SliceRead(data, Start(cs), all[k], path);
    RowRead(data, 32 + |cs| * 32, rows, 8, k);
    PathOfNumbers(data, LayoutOf(cs, complete), k, all[k], path);
  }

  /** A commit is read as it was written, or not at all if it is malformed. */
  lemma CommitRead(data: Bytes, cs: seq<Source>, complete: bool, i: nat)
    requires Written(data, cs, complete) && i < |cs|
    ensures CommitOf(data, LayoutOf(cs, complete), i) == CommitSaid(cs[i])
  {
    hide C.CommitAt, PathText, PathSaid, GoodCommit, Written, C.HistoryLaidOut, Commits, C.At, C.Text;
    LaidOut(data, cs, complete);
    CommitAtRead(data, cs, complete, i);
    PathsRead(data, cs, complete, i);
    var c := C.CommitAt(data, LayoutOf(cs, complete), i);
    if c.Some? {
      var r := c.value;
      assert seq(r.pathCount, j requires 0 <= j < r.pathCount =>
                                PathText(data, LayoutOf(cs, complete), Truncated(r.pathStart + j))) ==
             seq(|cs[i].paths|, j requires 0 <= j < |cs[i].paths| => PathSaid(cs[i].paths[j]));
    }
  }

  lemma LaidOut(data: Bytes, cs: seq<Source>, complete: bool)
    requires Written(data, cs, complete)
    ensures C.HistoryLaidOut(data, LayoutOf(cs, complete)) && |Commits(cs)| == |cs|
  {
    hide History, Commits;
  }

  lemma PathsRead(data: Bytes, cs: seq<Source>, complete: bool, i: nat)
    requires Written(data, cs, complete) && i < |cs|
    ensures var p := Commits(cs)[i];
            && |p.paths| == |cs[i].paths| && p.parents == cs[i].parents
            && C.HistoryLaidOut(data, LayoutOf(cs, complete))
            && forall j :: 0 <= j < |p.paths| ==>
                 PathText(data, LayoutOf(cs, complete), Truncated(p.first + j)) == PathSaid(cs[i].paths[j])
  {
    hide PathText, PathSaid, History, Table, Words, Stored, Payload, Place, PathCount, AllPaths, Commits, Behind;
    hide C.HistoryLaidOut;
    CountSmall(data, cs, complete);
    var p, all := Commits(cs)[i], AllPaths(Commits(cs));
    assert Standing(data, Start(cs), all, 0, p, cs[i]);
    forall j | 0 <= j < |p.paths|
      ensures PathText(data, LayoutOf(cs, complete), Truncated(p.first + j)) == PathSaid(cs[i].paths[j])
    {
      assert all[p.first..p.first + |p.paths|][j] == all[p.first + j];
      PathTextRead(data, cs, complete, p.first + j, cs[i].paths[j]);
    }
  }

  /** What the evaluation reads from a written corpus is what was written. */
  lemma HistoryRead(cs: seq<Source>, complete: bool)
    requires Writable(cs, complete)
    ensures var data := History(cs, complete);
            && C.DecodeHistory(data) == Some(LayoutOf(cs, complete))
            && C.HistoryLaidOut(data, LayoutOf(cs, complete))
            && CorpusOf(data, LayoutOf(cs, complete)) == Said(cs, complete)
  {
    HistoryAccepted(cs, complete);
    IsWritten(cs, complete);
    hide C.DecodeHistory, CommitOf, CommitSaid, History, Written;
    var data, c := History(cs, complete), LayoutOf(cs, complete);
    forall i | 0 <= i < |cs|
      ensures CommitOf(data, c, i) == CommitSaid(cs[i])
    {
      CommitRead(data, cs, complete, i);
    }
  }
}
