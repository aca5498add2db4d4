/** Writing a snapshot, as the daemon does, and the proof that the lookup finds
    in it what was written. */
module SnapshotWriter {
  import opened Wrappers
  import opened SnapshotTable

  const KIND_EXACT := 1
  const KIND_WARM_FILE := 2
  const KIND_SEARCH_CORPUS := 3
  const KIND_HISTORY_CORPUS := 4

  const MAX_FAST_PATH_BYTES := 1024 * 1024
  const MAX_INSPECTION_BYTES := 256 * 1024
  const MAX_SEARCH_CORPUS_BYTES := 48 * 1024 * 1024
  const MAX_HISTORY_CORPUS_BYTES := 8 * 1024 * 1024
  const MAX_SNAPSHOT_BYTES := 64 * 1024 * 1024

  /** An answer to be recorded under a command and an epoch. */
  datatype Candidate = Candidate(key: Bytes, epoch: Bytes, stdout: Bytes, stderr: Bytes, code: int, wall: nat,
                                 outHash: Bytes, errHash: Bytes, kind: nat)

  /** SHA-256 in hexadecimal. */
  type Hash = Bytes -> Bytes

  function MaxBytes(kind: nat): nat {
    if kind == KIND_SEARCH_CORPUS then MAX_SEARCH_CORPUS_BYTES
    else if kind == KIND_HISTORY_CORPUS then MAX_HISTORY_CORPUS_BYTES
    else MAX_INSPECTION_BYTES
  }

  /** Too large for its kind, or of no known kind: its row stays empty. */
  predicate Skipped(c: Candidate) {
    var size := |c.stdout| + |c.stderr|;
    || (size > MAX_FAST_PATH_BYTES &&
        (c.kind !in {KIND_WARM_FILE, KIND_SEARCH_CORPUS, KIND_HISTORY_CORPUS} || size > MaxBytes(c.kind)))
    || c.kind !in {KIND_EXACT, KIND_WARM_FILE, KIND_SEARCH_CORPUS, KIND_HISTORY_CORPUS}
  }

  // ---- What is written

  function Zeros(n: nat): (b: Bytes)
    ensures |b| == n && forall i :: 0 <= i < n ==> b[i] == 0
  {
    seq(n, _ => 0)
  }

  /** A text copied into a field of 64 bytes. */
  function Fit64(text: Bytes): (b: Bytes)
    ensures |b| == 64 && (|text| == 64 ==> b == text)
  {
    if |text| >= 64 then text[..64] else text + Zeros(64 - |text|)
  }

  function Put64(n: nat): (b: Bytes)
    ensures |b| == 8
  {
    Put32(Truncated(n)) + Put32(Truncated(n / U32))
  }

  function EntryFor(c: Candidate, at: nat, hash: Hash): (e: Entry)
    ensures Encodable(e)
  {
    Entry(Fit64(c.key), Fit64(hash(c.epoch)), Fit64(c.outHash), Fit64(c.errHash), Truncated(at),
          Truncated(|c.stdout|), Truncated(at + |c.stdout|), Truncated(|c.stderr|), Signed32(Bits32(c.code)),
          Truncated(c.kind),
          Put64(c.wall) + Zeros(32))
  }

  function Row(c: Candidate, at: nat, hash: Hash): (b: Bytes)
    ensures |b| == ENTRY_BYTES
  {
    if Skipped(c) then Zeros(ENTRY_BYTES) else EntryBytes(EntryFor(c, at, hash))
  }

  /** The outputs of the candidates, one after the other. */
  function Payload(cs: seq<Candidate>): Bytes {
    if cs == [] then []
    else
      var last, before := cs[|cs| - 1], Payload(cs[..|cs| - 1]);
      if Skipped(last) then before else before + last.stdout + last.stderr
  }

  /** The rows of the candidates; `start` is where the payload starts. */
  function Table(cs: seq<Candidate>, start: nat, hash: Hash): (b: Bytes)
    ensures |b| == |cs| * ENTRY_BYTES
  {
    if cs == [] then []
    else
      var before := cs[..|cs| - 1];
      Table(before, start, hash) + Row(cs[|cs| - 1], start + |Payload(before)|, hash)
  }

  function Start(cs: seq<Candidate>): nat {
    HEADER_BYTES + |cs| * ENTRY_BYTES
  }

  function SizesOf(cs: seq<Candidate>): Header {
    Header(|cs|, Start(cs), Start(cs) + |Payload(cs)|)
  }

  predicate Writable(cs: seq<Candidate>) {
    cs != [] && |cs| <= MAX_ENTRIES && Start(cs) + |Payload(cs)| <= MAX_SNAPSHOT_BYTES
  }

  function Snapshot(cs: seq<Candidate>, hash: Hash): Bytes
    requires Writable(cs)
  {
    HeaderBytes(SizesOf(cs)) + Zeros(36) + Table(cs, Start(cs), hash) + Payload(cs)
  }

  // ---- The writer

  /** The bytes from `at` on replaced. */
  function Overwrite(frame: Bytes, at: nat, bytes: Bytes): (r: Bytes)
    requires at + |bytes| <= |frame|
    ensures |r| == |frame|
  {
    frame[..at] + bytes + frame[at + |bytes|..]
  }

  lemma OverwriteMiddle(before: Bytes, was: Bytes, after: Bytes, bytes: Bytes)
    requires |was| == |bytes|
    ensures Overwrite(before + was + after, |before|, bytes) == before + bytes + after
  {
  }

  lemma ZerosSplit(n: nat, m: nat)
    ensures Zeros(n + m) == Zeros(n) + Zeros(m)
  {
  }

  lemma NextRow(cs: seq<Candidate>, i: nat, start: nat, hash: Hash)
    requires i < |cs|
    ensures Table(cs[..i + 1], start, hash) ==
            Table(cs[..i], start, hash) + Row(cs[i], start + |Payload(cs[..i])|, hash)
    ensures Payload(cs[..i + 1]) ==
            if Skipped(cs[i]) then Payload(cs[..i]) else Payload(cs[..i]) + cs[i].stdout + cs[i].stderr
  {
    hide Row, Skipped;
    NextPrefix(cs, i);
    hide Table, Payload;
    LastRow(cs[..i + 1], start, hash);
  }

  lemma NextPrefix(cs: seq<Candidate>, i: nat)
    requires i < |cs|
    ensures cs[..i + 1][..i] == cs[..i] && cs[..i + 1][i] == cs[i]
  {
  }

  lemma LastRow(cs: seq<Candidate>, start: nat, hash: Hash)
    requires cs != []
    ensures var before, last := cs[..|cs| - 1], cs[|cs| - 1];
            && Table(cs, start, hash) == Table(before, start, hash) + Row(last, start + |Payload(before)|, hash)
            && Payload(cs) == if Skipped(last) then Payload(before) else Payload(before) + last.stdout + last.stderr
  {
    hide Row, Skipped;
  }

  lemma {:induction false} PayloadGrows(cs: seq<Candidate>, i: nat)
    requires i <= |cs|
    ensures Payload(cs[..i]) <= Payload(cs)
    decreases |cs| - i
  {
    if i == |cs| {
      assert cs[..i] == cs;
    } else {
      NextRow(cs, i, 0, x => x);
      PayloadGrows(cs, i + 1);
    }
  }

  /** The frame with the rows of the first candidates filled in. */
  ghost predicate FilledTo(frame: Bytes, cs: seq<Candidate>, i: nat, hash: Hash)
    requires i <= |cs|
  {
    frame == Zeros(HEADER_BYTES) + Table(cs[..i], Start(cs), hash) + Zeros((|cs| - i) * ENTRY_BYTES)
  }

  lemma FillRow(frame: Bytes, cs: seq<Candidate>, i: nat, hash: Hash)
    requires i < |cs| && FilledTo(frame, cs, i, hash)
    ensures var at, row := HEADER_BYTES + i * ENTRY_BYTES, Row(cs[i], Start(cs) + |Payload(cs[..i])|, hash);
            && at + ENTRY_BYTES <= |frame|
            && FilledTo(Overwrite(frame, at, row), cs, i + 1, hash)
            && (Skipped(cs[i]) ==> Overwrite(frame, at, row) == frame)
  {
    hide Table, Payload;
    var row, rest := Row(cs[i], Start(cs) + |Payload(cs[..i])|, hash), (|cs| - i - 1) * ENTRY_BYTES;
    var before := Zeros(HEADER_BYTES) + Table(cs[..i], Start(cs), hash);
    NextRow(cs, i, Start(cs), hash);
    ZerosSplit(ENTRY_BYTES, rest);
    Assoc(before, Zeros(ENTRY_BYTES), Zeros(rest));
    assert (|cs| - i) * ENTRY_BYTES == ENTRY_BYTES + rest;
    OverwriteMiddle(before, Zeros(ENTRY_BYTES), Zeros(rest), row);
    Assoc(Zeros(HEADER_BYTES), Table(cs[..i], Start(cs), hash), row);
  }

  /** Write the candidates: the rows into the frame, the outputs behind it. */
  method EncodeSnapshot(cs: seq<Candidate>, hash: Hash) returns (r: Option<Bytes>)
    ensures r == if Writable(cs) then Some(Snapshot(cs, hash)) else None
  {
    hide Table, Payload, EntryFor, EntryBytes, HeaderBytes, Skipped;
    if cs == [] || |cs| > MAX_ENTRIES {
      return None;
    }
    var payloadOffset := HEADER_BYTES + |cs| * ENTRY_BYTES;
    var frame, payload := Zeros(payloadOffset), [];
    StartsEmpty(frame, cs, hash);
    for i := 0 to |cs|
      invariant |frame| == payloadOffset && FilledTo(frame, cs, i, hash)
      invariant payload == Payload(cs[..i])
      invariant payloadOffset + |payload| <= MAX_SNAPSHOT_BYTES
    {
      FillRow(frame, cs, i, hash);
      NextRow(cs, i, payloadOffset, hash);
      var c := cs[i];
      if Skipped(c) {
        continue;
      }
      var at := payloadOffset + |payload|;
      payload := payload + c.stdout + c.stderr;
      if payloadOffset + |payload| > MAX_SNAPSHOT_BYTES {
        PayloadGrows(cs, i + 1);
        return None;
      }
      frame := Overwrite(frame, HEADER_BYTES + i * ENTRY_BYTES, EntryBytes(EntryFor(c, at, hash)));
    }
    assert cs[..|cs|] == cs;
    frame := frame + payload;
    HeaderPut(frame, cs, hash);
    r := Some(Overwrite(frame, 0, HeaderBytes(SizesOf(cs))));
  }

  lemma StartsEmpty(frame: Bytes, cs: seq<Candidate>, hash: Hash)
    requires frame == Zeros(Start(cs))
    ensures FilledTo(frame, cs, 0, hash) && Payload(cs[..0]) == []
  {
    ZerosSplit(HEADER_BYTES, |cs| * ENTRY_BYTES);
    assert Zeros(HEADER_BYTES) + [] == Zeros(HEADER_BYTES);
  }

  lemma HeaderPut(frame: Bytes, cs: seq<Candidate>, hash: Hash)
    requires Writable(cs) && |frame| >= 28
    requires frame == Zeros(HEADER_BYTES) + Table(cs, Start(cs), hash) + [] + Payload(cs) ||
             frame == Zeros(HEADER_BYTES) + Table(cs, Start(cs), hash) + Zeros(0) + Payload(cs)
    ensures Overwrite(frame, 0, HeaderBytes(SizesOf(cs))) == Snapshot(cs, hash)
  {
    hide Table, Payload, HeaderBytes;
    ZerosSplit(28, 36);
    var table, payload := Table(cs, Start(cs), hash), Payload(cs);
    assert frame == [] + Zeros(28) + (Zeros(36) + table + payload);
    OverwriteMiddle([], Zeros(28), Zeros(36) + table + payload, HeaderBytes(SizesOf(cs)));
  }

  // ---- Finding what was written

  lemma {:induction false} TableGrows(cs: seq<Candidate>, i: nat, start: nat, hash: Hash)
    requires i <= |cs|
    ensures Table(cs[..i], start, hash) <= Table(cs, start, hash)
    decreases |cs| - i
  {
    if i == |cs| {
      assert cs[..i] == cs;
    } else {
      NextRow(cs, i, start, hash);
      TableGrows(cs, i + 1, start, hash);
    }
  }

  lemma PrefixSlice(whole: Bytes, before: Bytes, part: Bytes)
    requires before + part <= whole
    ensures whole[|before|..|before| + |part|] == part
  {
    assert whole[..|before + part|] == before + part;
    assert whole[|before|..|before| + |part|] == whole[..|before + part|][|before|..];
  }

  lemma RowAt(cs: seq<Candidate>, i: nat, start: nat, hash: Hash)
    requires i < |cs|
    ensures Table(cs, start, hash)[i * ENTRY_BYTES..(i + 1) * ENTRY_BYTES] ==
            Row(cs[i], start + |Payload(cs[..i])|, hash)
  {
    hide Table, Payload, Row;
    NextRow(cs, i, start, hash);
    TableGrows(cs, i + 1, start, hash);
    PrefixSlice(Table(cs, start, hash), Table(cs[..i], start, hash), Row(cs[i], start + |Payload(cs[..i])|, hash));
  }

  /** The candidate's outputs stand at a place. */
  predicate OutputsIn(data: Bytes, at: nat, c: Candidate) {
    && at + |c.stdout| + |c.stderr| <= |data|
    && data[at..at + |c.stdout|] == c.stdout
    && data[at + |c.stdout|..at + |c.stdout| + |c.stderr|] == c.stderr
  }

  lemma OutputsBehind(whole: Bytes, before: Bytes, c: Candidate)
    requires before + c.stdout + c.stderr <= whole
    ensures OutputsIn(whole, |before|, c)
  {
    assert before + c.stdout <= before + c.stdout + c.stderr <= whole;
    PrefixSlice(whole, before, c.stdout);
    PrefixSlice(whole, before + c.stdout, c.stderr);
  }

  lemma OutputsAt(cs: seq<Candidate>, i: nat)
    requires i < |cs| && !Skipped(cs[i])
    ensures OutputsIn(Payload(cs), |Payload(cs[..i])|, cs[i])
  {
    hide Payload, Skipped, Table, Row, OutputsIn;
    NextRow(cs, i, 0, x => x);
    PayloadGrows(cs, i + 1);
    OutputsBehind(Payload(cs), Payload(cs[..i]), cs[i]);
  }

  lemma OutputsShifted(data: Bytes, from: nat, payload: Bytes, at: nat, c: Candidate)
    requires from <= |data| && data[from..] == payload && OutputsIn(payload, at, c)
    ensures OutputsIn(data, from + at, c)
  {
    assert data[from..] == data[from..|data|];
    SliceInside(data, from, |data|, payload, at, at + |c.stdout|);
    SliceInside(data, from, |data|, payload, at + |c.stdout|, at + |c.stdout| + |c.stderr|);
  }

  /** Where the parts of a snapshot lie. */
  lemma PartsOf(cs: seq<Candidate>, hash: Hash)
    requires Writable(cs)
    ensures var data := Snapshot(cs, hash);
            && |data| == Start(cs) + |Payload(cs)|
            && data[..28] == HeaderBytes(SizesOf(cs))
            && data[HEADER_BYTES..Start(cs)] == Table(cs, Start(cs), hash)
            && data[Start(cs)..] == Payload(cs)
  {
    hide Table, Payload, HeaderBytes;
  }

  /** The reader accepts the header. */
  lemma HeaderAccepted(cs: seq<Candidate>, hash: Hash)
    requires Writable(cs)
    ensures ReadHeader(Snapshot(cs, hash)) == Some(SizesOf(cs))
  {
    hide Table, Payload, HeaderBytes, ReadHeader, Snapshot;
    PartsOf(cs, hash);
    HeaderExact(Snapshot(cs, hash), SizesOf(cs));
  }

  lemma SliceInside(data: Bytes, from: nat, to: nat, part: Bytes, lo: nat, hi: nat)
    requires from <= to <= |data| && data[from..to] == part && lo <= hi <= |part|
    ensures data[from + lo..from + hi] == part[lo..hi]
  {
    SliceOfSlice(data, from, to - from, lo, hi - lo);
  }

  /** Row `i` of the snapshot is that of the candidate. */
  lemma RowWritten(cs: seq<Candidate>, hash: Hash, i: nat)
    requires Writable(cs) && i < |cs|
    ensures var data := Snapshot(cs, hash);
            && HEADER_BYTES + (i + 1) * ENTRY_BYTES <= |data|
            && data[HEADER_BYTES + i * ENTRY_BYTES..HEADER_BYTES + (i + 1) * ENTRY_BYTES] ==
               Row(cs[i], Start(cs) + |Payload(cs[..i])|, hash)
  {
    hide Table, Payload, Row, Snapshot;
    PartsOf(cs, hash);
    RowAt(cs, i, Start(cs), hash);
    SliceInside(Snapshot(cs, hash), HEADER_BYTES, Start(cs), Table(cs, Start(cs), hash), i * ENTRY_BYTES,
                (i + 1) * ENTRY_BYTES);
  }

  /** What the candidate says of itself is true, and can be recorded. */
  predicate Proper(c: Candidate, hash: Hash) {
    && |c.key| == |hash(c.epoch)| == |hash(c.stdout)| == |hash(c.stderr)| == 64
    && c.outHash == hash(c.stdout) && c.errHash == hash(c.stderr)
    && Hex(c.outHash) && Hex(c.errHash)
    && -0x8000_0000 <= c.code < 0x8000_0000 && !Skipped(c)
  }

  /** Every candidate is proper, and they come in the order of their keys. */
  ghost predicate InOrder(cs: seq<Candidate>, hash: Hash) {
    && (forall c :: c in cs ==> Proper(c, hash))
    && forall i, j :: 0 <= i <= j < |cs| ==> NotAfter(cs[i].key, cs[j].key)
  }

  predicate NotAfter(a: Bytes, b: Bytes) {
    |a| == |b| && !Less(b, a)
  }

  /** The entry holds the candidate's data. */
  predicate Holds(e: Entry, c: Candidate, data: Bytes, payload: nat) {
    && e.key == c.key && e.kind == c.kind && e.code == c.code && e.outHash == c.outHash && e.errHash == c.errHash
    && payload <= e.out && e.out + e.outLen <= |data| && data[e.out..e.out + e.outLen] == c.stdout
    && payload <= e.err && e.err + e.errLen <= |data| && data[e.err..e.err + e.errLen] == c.stderr
  }

  lemma OutputsWritten(cs: seq<Candidate>, hash: Hash, i: nat)
    requires Writable(cs) && i < |cs| && !Skipped(cs[i])
    ensures OutputsIn(Snapshot(cs, hash), Start(cs) + |Payload(cs[..i])|, cs[i])
  {
    hide Payload, Snapshot, Skipped, Table, HeaderBytes, OutputsIn;
    PartsOf(cs, hash);
    OutputsAt(cs, i);
    OutputsShifted(Snapshot(cs, hash), Start(cs), Payload(cs), |Payload(cs[..i])|, cs[i]);
  }

  /** The numbers of a proper candidate's entry do not wrap. */
  lemma EntryIs(c: Candidate, at: nat, hash: Hash)
    requires Proper(c, hash) && at + |c.stdout| + |c.stderr| < U32
    ensures var e := EntryFor(c, at, hash);
            && e.key == c.key && e.epoch == hash(c.epoch) && e.kind == c.kind && e.code == c.code
            && e.outHash == c.outHash && e.errHash == c.errHash
            && e.out == at && e.outLen == |c.stdout| && e.err == at + |c.stdout| && e.errLen == |c.stderr|
  {
    hide Hex, Put64;
    SignedBits(c.code);
  }

  /** The entry of a candidate holds its data. */
  lemma EntryHolds(c: Candidate, at: nat, hash: Hash, data: Bytes, payload: nat)
    requires Proper(c, hash) && payload <= at && |data| < U32 && OutputsIn(data, at, c)
    ensures EntryFor(c, at, hash).epoch == hash(c.epoch) && Holds(EntryFor(c, at, hash), c, data, payload)
  {
    hide EntryFor, Proper;
    EntryIs(c, at, hash);
  }

  lemma RowClaims(cs: seq<Candidate>, hash: Hash, i: nat, at: nat)
    requires Writable(cs) && i < |cs| && !Skipped(cs[i]) && at == Start(cs) + |Payload(cs[..i])|
    ensures Claims(Snapshot(cs, hash), i, EntryFor(cs[i], at, hash))
  {
    hide Payload, Snapshot, Skipped, EntryBytes, EntryFor;
    RowWritten(cs, hash, i);
    EncodableEntry(cs[i], at, hash);
  }

  lemma EncodableEntry(c: Candidate, at: nat, hash: Hash)
    ensures Encodable(EntryFor(c, at, hash))
  {
  }

  lemma EntryWritten(cs: seq<Candidate>, hash: Hash, i: nat) returns (e: Entry)
    requires Writable(cs) && i < |cs| && Proper(cs[i], hash)
    ensures Claims(Snapshot(cs, hash), i, e) && e.epoch == hash(cs[i].epoch)
    ensures Holds(e, cs[i], Snapshot(cs, hash), Start(cs))
  {
    hide *;
    IsWritten(cs[i], hash);
    SmallSnapshot(cs, hash);
    var at := Start(cs) + |Payload(cs[..i])|;
    OutputsWritten(cs, hash, i);
    RowClaims(cs, hash, i, at);
    EntryHolds(cs[i], at, hash, Snapshot(cs, hash), Start(cs));
    e := EntryFor(cs[i], at, hash);
  }

  lemma IsWritten(c: Candidate, hash: Hash)
    requires Proper(c, hash)
    ensures !Skipped(c)
  {
  }

  lemma SmallSnapshot(cs: seq<Candidate>, hash: Hash)
    requires Writable(cs)
    ensures |Snapshot(cs, hash)| < U32
  {
    hide Payload, Table;
  }

  lemma ClaimOnce(data: Bytes, h: Header, i: nat, a: Entry, b: Entry)
    requires Fits(data, h) && i < h.count && Claims(data, i, a) && Claims(data, i, b)
    ensures a.key == b.key && a.epoch == b.epoch
  {
    hide Claims, Key, Field, Number;
    ClaimRead(data, h, i, a);
    ClaimRead(data, h, i, b);
  }

  lemma KeysWritten(cs: seq<Candidate>, hash: Hash)
    requires Writable(cs) && InOrder(cs, hash) && ReadHeader(Snapshot(cs, hash)) == Some(SizesOf(cs))
    ensures SortedByKey(Snapshot(cs, hash), SizesOf(cs))
  {
    hide Snapshot, Key, Less, Claims, Fits, Proper;
    var data, h := Snapshot(cs, hash), SizesOf(cs);
    forall i: nat | i < |cs|
      ensures Key(data, h, i) == cs[i].key
    {
      assert cs[i] in cs;
      var e := EntryWritten(cs, hash, i);
      ClaimRead(data, h, i, e);
    }
    assert forall i, j :: 0 <= i <= j < |cs| ==> NotAfter(cs[i].key, cs[j].key);
  }

  /** The first candidate for a key and an epoch. */
  predicate FirstCandidate(cs: seq<Candidate>, hash: Hash, key: Bytes, epoch: Bytes, i: nat) {
    && i < |cs| && cs[i].key == key && hash(cs[i].epoch) == hash(epoch)
    && forall j :: 0 <= j < i ==> cs[j].key != key || hash(cs[j].epoch) != hash(epoch)
  }

  /** The answer is the candidate's. */
  predicate Gives(data: Bytes, a: Answer, c: Candidate) {
    && a.out + a.outLen <= |data| && data[a.out..a.out + a.outLen] == c.stdout
    && a.err + a.errLen <= |data| && data[a.err..a.err + a.errLen] == c.stderr
    && a.code == c.code
  }

  lemma ClaimIsFor(cs: seq<Candidate>, hash: Hash, key: Bytes, epoch: Bytes, kind: nat, j: nat, e: Entry)
    requires Writable(cs) && j < |cs| && Proper(cs[j], hash) && Fits(Snapshot(cs, hash), SizesOf(cs))
    requires Claims(Snapshot(cs, hash), j, e)
    ensures IsFor(e, Want(key, hash(epoch), kind, hash)) <==> cs[j].key == key && hash(cs[j].epoch) == hash(epoch)
  {
    hide Snapshot, Claims, Fits, Proper;
    var mine := EntryWritten(cs, hash, j);
    ClaimOnce(Snapshot(cs, hash), SizesOf(cs), j, e, mine);
  }

  lemma IsProper(cs: seq<Candidate>, hash: Hash, i: nat)
    requires InOrder(cs, hash) && i < |cs|
    ensures Proper(cs[i], hash)
  {
    assert cs[i] in cs;
  }

  lemma FirstIsFirst(cs: seq<Candidate>, hash: Hash, key: Bytes, epoch: Bytes, kind: nat, i: nat, e: Entry)
    requires Writable(cs) && InOrder(cs, hash) && Fits(Snapshot(cs, hash), SizesOf(cs))
    requires FirstCandidate(cs, hash, key, epoch, i) && Claims(Snapshot(cs, hash), i, e)
    ensures FirstFor(Snapshot(cs, hash), SizesOf(cs), Want(key, hash(epoch), kind, hash), i, e)
  {
    hide Snapshot, Claims, Fits, Proper, InOrder, IsFor;
    var data, want := Snapshot(cs, hash), Want(key, hash(epoch), kind, hash);
    IsProper(cs, hash, i);
    ClaimIsFor(cs, hash, key, epoch, kind, i, e);
    forall j: nat, e' | j < i && Claims(data, j, e')
      ensures !IsFor(e', want)
    {
      IsProper(cs, hash, j);
      ClaimIsFor(cs, hash, key, epoch, kind, j, e');
    }
  }

  lemma GoodWritten(cs: seq<Candidate>, hash: Hash, key: Bytes, epoch: Bytes, kind: nat, c: Candidate, e: Entry)
    requires Writable(cs) && Fits(Snapshot(cs, hash), SizesOf(cs)) && Proper(c, hash)
    requires Holds(e, c, Snapshot(cs, hash), Start(cs)) && |Snapshot(cs, hash)| == Start(cs) + |Payload(cs)|
    ensures Good(Snapshot(cs, hash), SizesOf(cs), e, Want(key, hash(epoch), kind, hash)) <==> c.kind == kind
    ensures Gives(Snapshot(cs, hash), Answer(e.out, e.outLen, e.err, e.errLen, e.code), c)
  {
    hide Snapshot, Hex, Fits, Payload, Skipped;
  }

  /** The lookup in a written snapshot gives the output, the error output and the
      exit code of the first candidate for the key and the epoch, if that one is
      of the kind wanted, and nothing otherwise. */
  lemma FindsWritten(cs: seq<Candidate>, hash: Hash, key: Bytes, epoch: Bytes, kind: nat, i: nat)
    requires Writable(cs) && InOrder(cs, hash) && FirstCandidate(cs, hash, key, epoch, i)
    ensures var data := Snapshot(cs, hash);
            var r := LinearFind(data, Want(key, hash(epoch), kind, hash));
            && ReadHeader(data) == Some(SizesOf(cs)) && SortedByKey(data, SizesOf(cs))
            && (r.Some? <==> cs[i].kind == kind)
            && (r.Some? ==> Gives(data, r.value, cs[i]))
  {
    HeaderAccepted(cs, hash);
    PartsOf(cs, hash);
    hide Snapshot, ReadHeader, Fits, Claims, InOrder, Proper, Payload, LinearScan, FirstCandidate, Good, Gives;
    hide FirstFor;
    hide HeaderBytes, Table, SortedByKey, Holds;
    var data, h, want := Snapshot(cs, hash), SizesOf(cs), Want(key, hash(epoch), kind, hash);
    KeysWritten(cs, hash);
    FirstInside(cs, hash, key, epoch, i);
    IsProper(cs, hash, i);
    var e := EntryWritten(cs, hash, i);
    FirstIsFirst(cs, hash, key, epoch, kind, i, e);
    GoodWritten(cs, hash, key, epoch, kind, cs[i], e);
    ScanIs(data, h, want, LinearScan(data, h, want, 0));
  }

  lemma FirstInside(cs: seq<Candidate>, hash: Hash, key: Bytes, epoch: Bytes, i: nat)
    requires FirstCandidate(cs, hash, key, epoch, i)
    ensures i < |cs|
  {
  }

  /** Nothing is found that was not written. */
  lemma FindsNothingElse(cs: seq<Candidate>, hash: Hash, key: Bytes, epoch: Bytes, kind: nat)
    requires Writable(cs) && InOrder(cs, hash)
    requires forall i :: 0 <= i < |cs| ==> cs[i].key != key || hash(cs[i].epoch) != hash(epoch)
    ensures SortedByKey(Snapshot(cs, hash), SizesOf(cs))
    ensures LinearFind(Snapshot(cs, hash), Want(key, hash(epoch), kind, hash)).None?
  {
    HeaderAccepted(cs, hash);
    hide Snapshot, ReadHeader, Fits, Claims, InOrder, Proper, LinearScan, IsFor, SortedByKey, Good;
    var data, h, want := Snapshot(cs, hash), SizesOf(cs), Want(key, hash(epoch), kind, hash);
    KeysWritten(cs, hash);
    forall i: nat, e | i < h.count && Claims(data, i, e)
      ensures !IsFor(e, want)
    {
      IsProper(cs, hash, i);
      ClaimIsFor(cs, hash, key, epoch, kind, i, e);
    }
    ScanIs(data, h, want, LinearScan(data, h, want, 0));
  }
}
