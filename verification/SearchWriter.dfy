/** The bytes of a search corpus, as the daemon writes them, and the proof that
    the reader finds in them the files written, with the index the search relies
    on. */
module SearchWriter {
  import opened Wrappers
  import opened SnapshotTable
  import opened Slots
  import opened Lines
  import opened Filters
  import opened Regex
  import opened Bloom
  import R = RepoSearch
  import C = CorpusFormat
  import S = CorpusSearch

  /** A file to be recorded with the records of its lines. */
  datatype Source = Source(path: Bytes, content: Bytes, lines: seq<R.LineRecord>, foldUnsafe: bool)

  // ---- The index

  /** The records of a file's lines, made as the daemon makes them. */
  method IndexLines(content: string) returns (lines: seq<R.LineRecord>)
    ensures lines == R.RecordsFrom(content, 0)
  {
    hide Mask, R.RecordsFrom;
    lines := [];
    var offset := 0;
    assert [] + R.RecordsFrom(content, 0) == R.RecordsFrom(content, 0);
    while offset < |content|
      invariant 0 <= offset <= |content|
      invariant lines + R.RecordsFrom(content, offset) == R.RecordsFrom(content, 0)
      decreases |content| - offset
    {
      var lineEnd, next := FindLine(content, offset);
      var line := content[offset..lineEnd];
      var bloom := LiteralMask(line, false);
      var folded := LiteralMask(line, true);
      R.PlainFold(line);
      var record := R.LineRecord(offset, lineEnd - offset, bloom, folded);
      NextRecord(content, offset, record, lines);
      lines := lines + [record];
      offset := next;
    }
    NoRecords(content);
    assert lines + [] == lines;
  }

  lemma NextRecord(content: string, offset: nat, record: R.LineRecord, before: seq<R.LineRecord>)
    requires offset < |content|
    requires var line := content[offset..Lines.LineEnd(content, offset)];
             record == R.LineRecord(offset, |line|, Mask(line), Mask(FoldAll(true, line)))
    ensures before + [record] + R.RecordsFrom(content, NextLine(content, offset)) ==
            before + R.RecordsFrom(content, offset)
  {
    hide Mask;
    var rest := R.RecordsFrom(content, NextLine(content, offset));
    assert before + [record] + rest == before + ([record] + rest);
  }

  lemma NoRecords(content: string)
    ensures R.RecordsFrom(content, |content|) == []
  {
  }

  /** The records are those of the content. */
  predicate Indexed(f: Source) {
    f.lines == R.RecordsFrom(C.Text(f.content), 0)
  }

  lemma {:induction false} RecordsInside(content: string, offset: nat, j: nat)
    requires offset <= |content| && j < |R.RecordsFrom(content, offset)|
    ensures var r := R.RecordsFrom(content, offset)[j];
            r.offset + r.length <= |content|
    decreases |content| - offset
  {
    hide Mask;
    if j > 0 {
      RecordsInside(content, NextLine(content, offset), j - 1);
    }
  }

  // ---- What is written

  /** The texts of the files, one after the other. */
  function Payload(fs: seq<Source>): Bytes {
    if fs == [] then [] else fs[0].path + (fs[0].content + Payload(fs[1..]))
  }

  function AllLines(fs: seq<Source>): seq<R.LineRecord> {
    if fs == [] then [] else fs[0].lines + AllLines(fs[1..])
  }

  /** A file with the places of its texts and the number of its first line. */
  datatype Placed = Placed(path: Slot, content: Slot, first: nat, count: nat, foldUnsafe: bool)

  function Place(fs: seq<Source>, at: nat, first: nat): (placed: seq<Placed>)
    ensures |placed| == |fs|
  {
    if fs == [] then []
    else
      var f := fs[0];
      var content := at + |f.path|;
      [Placed(Slot(at, f.path), Slot(content, f.content), first, |f.lines|, f.foldUnsafe)] +
      Place(fs[1..], content + |f.content|, first + |f.lines|)
  }

  function FileRow(p: Placed): seq<nat> {
    [p.path.offset, |p.path.bytes|, p.content.offset, |p.content.bytes|, p.first, Flagged(p.count, p.foldUnsafe)]
  }

  /** A count of lines with the fold mark in the highest of 32 bits. */
  function Flagged(count: nat, unsafe: bool): (n: nat)
    ensures count < 0x8000_0000 ==>
              n < U32 && n % C.FOLD_UNSAFE == count && (n >= C.FOLD_UNSAFE <==> unsafe)
  {
    count + if unsafe then 0x8000_0000 else 0
  }

  function FileRows(placed: seq<Placed>): (rows: seq<seq<nat>>)
    ensures |rows| == |placed|
  {
    seq(|placed|, i requires 0 <= i < |placed| => FileRow(placed[i]))
  }

  function OrderRows(order: seq<nat>): (rows: seq<seq<nat>>)
    ensures |rows| == |order|
  {
    seq(|order|, i requires 0 <= i < |order| => [order[i]])
  }

  function LineRow(r: R.LineRecord): seq<nat> {
    [r.offset, r.length, Low(r.bloom), High(r.bloom), Low(r.foldedBloom), High(r.foldedBloom)]
  }

  function LineRows(lines: seq<R.LineRecord>): (rows: seq<seq<nat>>)
    ensures |rows| == |lines|
  {
    seq(|lines|, i requires 0 <= i < |lines| => LineRow(lines[i]))
  }

  /** The halves of 64 bits. */
  function Low(word: bv64): (n: nat)
    ensures n < U32
  {
    word as int % U32
  }

  function High(word: bv64): (n: nat)
    ensures n < U32
  {
    word as int / U32
  }

  lemma Halves64(word: bv64)
    ensures (Low(word) + U32 * High(word)) as bv64 == word
  {
  }

  datatype Layout = Layout(defaults: nat, hidden: nat, lines: nat, payload: nat)

  /** Where the tables behind the file records start. */
  function LayOut(fs: seq<Source>, defaults: seq<nat>, hidden: seq<nat>): Layout {
    var a := 48 + |fs| * 24;
    var b := a + |defaults| * 4;
    var c := b + |hidden| * 4;
    Layout(a, b, c, c + |AllLines(fs)| * 24)
  }

  function Files(fs: seq<Source>, defaults: seq<nat>, hidden: seq<nat>): (placed: seq<Placed>)
    ensures |placed| == |fs|
  {
    Place(fs, LayOut(fs, defaults, hidden).payload, 0)
  }

  function Head(fs: seq<Source>, defaults: seq<nat>, hidden: seq<nat>): seq<nat> {
    var l := LayOut(fs, defaults, hidden);
    [2, |fs|, |defaults|, |hidden|, 48, l.defaults, l.hidden, l.payload, l.payload + |Payload(fs)|, l.lines]
  }

  /** The corpus: the mark and the sizes, a row for each file, the two orders, a
      row for each line, and the texts. */
  function Corpus(fs: seq<Source>, defaults: seq<nat>, hidden: seq<nat>): Bytes {
    BytesOf("SQRGC001") +
    (Words(Head(fs, defaults, hidden)) +
     (Table(FileRows(Files(fs, defaults, hidden))) +
      (Table(OrderRows(defaults)) +
       (Table(OrderRows(hidden)) + (Table(LineRows(AllLines(fs))) + Payload(fs))))))
  }

  /** The orders name files, no more than there are, and all fits. */
  predicate Writable(fs: seq<Source>, defaults: seq<nat>, hidden: seq<nat>) {
    && 1 <= |fs| <= 10000 && |defaults| <= |fs| && |hidden| <= |fs|
    && (forall i :: 0 <= i < |defaults| ==> defaults[i] < |fs|)
    && (forall i :: 0 <= i < |hidden| ==> hidden[i] < |fs|)
    && LayOut(fs, defaults, hidden).payload < 48 * 1024 * 1024
    && |Corpus(fs, defaults, hidden)| <= 48 * 1024 * 1024
  }

  // ---- Where it stands

  /** A text stands at its place behind another. */
  predicate Behind(data: Bytes, at: nat, s: Slot, bytes: Bytes) {
    Stored(data, s) && s.bytes == bytes && at <= s.offset
  }

  /** A file stands where it was placed, and its lines are among all. */
  ghost predicate Standing(data: Bytes, at: nat, all: seq<R.LineRecord>, first: nat, p: Placed, f: Source) {
    && Behind(data, at, p.path, f.path) && Behind(data, at, p.content, f.content)
    && p.count == |f.lines| && p.foldUnsafe == f.foldUnsafe
    && first <= p.first && p.first - first + p.count <= |all|
    && all[p.first - first..p.first - first + p.count] == f.lines
  }

  lemma {:induction false} AllStanding(data: Bytes, fs: seq<Source>, at: nat, first: nat)
    requires From(data, at, Payload(fs))
    ensures forall i :: 0 <= i < |fs| ==> Standing(data, at, AllLines(fs), first, Place(fs, at, first)[i], fs[i])
  {
    hide From, Stored, Standing;
    if fs != [] {
      var f, placed, rest := fs[0], Place(fs, at, first), Payload(fs[1..]);
      var next, later := at + |f.path| + |f.content|, AllLines(fs[1..]);
      StoredFirst(data, at, f.path, f.content + rest);
      StoredFirst(data, at + |f.path|, f.content, rest);
      FirstStanding(data, at, later, first, placed[0], f);
      AllStanding(data, fs[1..], next, first + |f.lines|);
      assert placed[1..] == Place(fs[1..], next, first + |f.lines|);
      forall i | 1 <= i < |fs|
        ensures Standing(data, at, AllLines(fs), first, placed[i], fs[i])
      {
        assert placed[1..][i - 1] == placed[i] && fs[1..][i - 1] == fs[i];
        LaterStanding(data, at, f.lines, next, later, first, placed[i], fs[i]);
      }
    }
  }

  lemma FirstStanding(data: Bytes, at: nat, later: seq<R.LineRecord>, first: nat, p: Placed, f: Source)
    requires p == Placed(Slot(at, f.path), Slot(at + |f.path|, f.content), first, |f.lines|, f.foldUnsafe)
    requires Stored(data, p.path) && Stored(data, p.content)
    ensures Standing(data, at, f.lines + later, first, p, f)
  {
    hide Stored;
  }

  lemma LaterStanding(data: Bytes, at: nat, before: seq<R.LineRecord>, next: nat, later: seq<R.LineRecord>, first: nat,
                      p: Placed, f: Source)
    requires at <= next && Standing(data, next, later, first + |before|, p, f)
    ensures Standing(data, at, before + later, first, p, f)
  {
    hide Stored;
    var k := p.first - first - |before|;
    assert (before + later)[|before| + k..|before| + k + p.count] == later[k..k + p.count];
  }

  // ---- Reading it

  function CorpusOf(fs: seq<Source>, defaults: seq<nat>, hidden: seq<nat>): C.SearchCorpus {
    var l := LayOut(fs, defaults, hidden);
    C.SearchCorpus(|fs|, |defaults|, |hidden|, 48, l.defaults, l.hidden, l.payload, l.lines, |AllLines(fs)|)
  }

  /** The tables and the texts stand at their places. */
  ghost predicate Parts(data: Bytes, fs: seq<Source>, defaults: seq<nat>, hidden: seq<nat>) {
    var l := LayOut(fs, defaults, hidden);
    && Stored(data, Slot(8, Words(Head(fs, defaults, hidden))))
    && Stored(data, Slot(48, Table(FileRows(Files(fs, defaults, hidden)))))
    && Stored(data, Slot(l.defaults, Table(OrderRows(defaults))))
    && Stored(data, Slot(l.hidden, Table(OrderRows(hidden))))
    && Stored(data, Slot(l.lines, Table(LineRows(AllLines(fs)))))
    && From(data, l.payload, Payload(fs))
  }

  lemma PartsOf(fs: seq<Source>, defaults: seq<nat>, hidden: seq<nat>)
    ensures var data := Corpus(fs, defaults, hidden);
            && |data| == LayOut(fs, defaults, hidden).payload + |Payload(fs)| && data[..8] == BytesOf("SQRGC001")
            && Parts(data, fs, defaults, hidden)
  {
    hide Words, Table, Payload, Place, AllLines;
    var data, l := Corpus(fs, defaults, hidden), LayOut(fs, defaults, hidden);
    TableSize(FileRows(Files(fs, defaults, hidden)), 24);
    TableSize(OrderRows(defaults), 4);
    TableSize(OrderRows(hidden), 4);
    TableSize(LineRows(AllLines(fs)), 24);
    var a, b, c := Words(Head(fs, defaults, hidden)), Table(FileRows(Files(fs, defaults, hidden))),
                   Table(OrderRows(defaults));
    var d, e, f := Table(OrderRows(hidden)), Table(LineRows(AllLines(fs))), Payload(fs);
    FromStart(data);
    hide From, Stored;
    StoredFirst(data, 0, BytesOf("SQRGC001"), a + (b + (c + (d + (e + f)))));
    StoredFirst(data, 8, a, b + (c + (d + (e + f))));
    StoredFirst(data, 48, b, c + (d + (e + f)));
    StoredFirst(data, l.defaults, c, d + (e + f));
    StoredFirst(data, l.hidden, d, e + f);
    StoredFirst(data, l.lines, e, f);
  }

  /** The reader accepts the corpus. */
  lemma CorpusAccepted(fs: seq<Source>, defaults: seq<nat>, hidden: seq<nat>)
    requires Writable(fs, defaults, hidden)
    ensures C.DecodeSearch(Corpus(fs, defaults, hidden)) == Some(CorpusOf(fs, defaults, hidden))
  {
    PartsOf(fs, defaults, hidden);
    hide Corpus, Table, Words, Stored, Payload, Place, AllLines, Le32, From;
    var data, ns := Corpus(fs, defaults, hidden), Head(fs, defaults, hidden);
    ReadsBack(data, 8, ns);
    assert Le32(data, 8 + 4 * 0) == ns[0] && Le32(data, 8 + 4 * 1) == ns[1] && Le32(data, 8 + 4 * 2) == ns[2];
    assert Le32(data, 8 + 4 * 3) == ns[3] && Le32(data, 8 + 4 * 4) == ns[4] && Le32(data, 8 + 4 * 5) == ns[5];
    assert Le32(data, 8 + 4 * 6) == ns[6] && Le32(data, 8 + 4 * 7) == ns[7] && Le32(data, 8 + 4 * 8) == ns[8];
    assert Le32(data, 8 + 4 * 9) == ns[9];
    assert BytesOf("SQRGC001") == C.SEARCH_MAGIC;
  }

  predicate GoodPath(path: Bytes) {
    1 <= |path| < 4096 && 0 !in path
  }

  function SliceOf(s: Slot): C.Slice {
    C.Slice(s.offset, |s.bytes|)
  }

  /** What holds of a written corpus, for its reader. */
  ghost predicate Written(data: Bytes, fs: seq<Source>, defaults: seq<nat>, hidden: seq<nat>) {
    && |data| < U32 && C.SearchLaidOut(data, CorpusOf(fs, defaults, hidden)) && Parts(data, fs, defaults, hidden)
    && (forall i :: 0 <= i < |defaults| ==> defaults[i] < U32) && (forall i :: 0 <= i < |hidden| ==> hidden[i] < U32)
    && (forall i :: 0 <= i < |fs| ==>
          Standing(data, LayOut(fs, defaults, hidden).payload, AllLines(fs), 0, Files(fs, defaults, hidden)[i], fs[i]))
  }

  lemma IsWritten(fs: seq<Source>, defaults: seq<nat>, hidden: seq<nat>)
    requires Writable(fs, defaults, hidden)
    ensures Written(Corpus(fs, defaults, hidden), fs, defaults, hidden)
  {
    PartsOf(fs, defaults, hidden);
    CorpusAccepted(fs, defaults, hidden);
    hide Corpus, Table, Words, Stored, Payload, Place, AllLines, From, Standing, C.DecodeSearch;
    AllStanding(Corpus(fs, defaults, hidden), fs, LayOut(fs, defaults, hidden).payload, 0);
  }

  lemma LaidOut(data: Bytes, fs: seq<Source>, defaults: seq<nat>, hidden: seq<nat>)
    requires Written(data, fs, defaults, hidden)
    ensures C.SearchLaidOut(data, CorpusOf(fs, defaults, hidden)) && |data| < U32
    ensures |AllLines(fs)| * 24 <= |data| && |data| < 0x8000_0000
  {
    hide AllLines, Parts, Standing;
  }

  /** The numbers of a file record. */
  lemma FileNumbers(data: Bytes, at: nat, p: Placed)
    requires Reads(data, at, FileRow(p))
    ensures at + 24 <= |data|
    ensures Le32(data, at) == p.path.offset && Le32(data, at + 4) == |p.path.bytes|
    ensures Le32(data, at + 8) == p.content.offset && Le32(data, at + 12) == |p.content.bytes|
    ensures Le32(data, at + 16) == p.first
    ensures Le32(data, at + 20) == Flagged(p.count, p.foldUnsafe)
  {
    hide Le32, Flagged;
    var row := FileRow(p);
    assert Le32(data, at + 4 * 0) == row[0] && Le32(data, at + 4 * 1) == row[1] && Le32(data, at + 4 * 2) == row[2];
    assert Le32(data, at + 4 * 3) == row[3] && Le32(data, at + 4 * 4) == row[4] && Le32(data, at + 4 * 5) == row[5];
  }

  /** What the reader makes of a file record with these numbers. */
  lemma FileOfNumbers(data: Bytes, c: C.SearchCorpus, i: nat, p: Placed)
    requires C.SearchLaidOut(data, c) && i < c.files && |data| < U32 && Reads(data, 48 + i * 24, FileRow(p))
    requires p.count < 0x8000_0000
    ensures var path, content := SliceOf(p.path), SliceOf(p.content);
            C.FileAt(data, c, i) ==
            if path.length == 0 || path.length >= 4096 || !C.SliceOk(c.payload, |data|, path) ||
               !C.SliceOk(c.payload, |data|, content) || p.first > c.lines || p.count > c.lines - p.first ||
               0 in C.At(data, path)
            then None
            else Some(C.SearchFile(path, content, p.first, p.count, p.foldUnsafe))
  {
    FileNumbers(data, 48 + i * 24, p);
    C.RecordInside(48, i, c.files, 24, c.defaultOrder);
    assert c.records == 48;
    hide Reads, Le32, C.RecordOffset, C.At, FileRow, Flagged, C.SearchLaidOut;
  }

  lemma SliceRead(data: Bytes, at: nat, s: Slot, bytes: Bytes)
    requires Behind(data, at, s, bytes) && |data| < U32
    ensures s.offset < U32 && |s.bytes| < U32 && s.bytes == bytes
    ensures C.SliceOk(at, |data|, SliceOf(s)) && C.At(data, SliceOf(s)) == bytes
  {
  }

  /** The file is read as it was written, if its path can be. */
  lemma FileStored(data: Bytes, c: C.SearchCorpus, i: nat, p: Placed, f: Source)
    requires C.SearchLaidOut(data, c) && i < c.files && |data| < U32 && Reads(data, 48 + i * 24, FileRow(p))
    requires Behind(data, c.payload, p.path, f.path) && Behind(data, c.payload, p.content, f.content)
    requires p.count < 0x8000_0000 && p.first + p.count <= c.lines
    ensures var r := C.FileAt(data, c, i);
            && (r.Some? <==> GoodPath(f.path))
            && (r.Some? ==>
                  && r.value == C.SearchFile(SliceOf(p.path), SliceOf(p.content), p.first, p.count, p.foldUnsafe)
                  && C.At(data, r.value.path) == f.path && C.At(data, r.value.content) == f.content)
  {
    SliceRead(data, c.payload, p.path, f.path);
    SliceRead(data, c.payload, p.content, f.content);
    FileOfNumbers(data, c, i, p);
    hide Reads, Behind, C.SliceOk, C.At, FileRow, C.SearchLaidOut, C.FileAt;
  }

  lemma SmallFile(data: Bytes, at: nat, all: seq<R.LineRecord>, p: Placed, f: Source)
    requires Standing(data, at, all, 0, p, f) && |data| < U32 && |all| < 0x8000_0000
    ensures Small(FileRow(p))
  {
  }

  lemma RecordRead(data: Bytes, fs: seq<Source>, defaults: seq<nat>, hidden: seq<nat>, i: nat)
    requires Written(data, fs, defaults, hidden) && i < |fs|
    ensures Reads(data, 48 + i * 24, FileRow(Files(fs, defaults, hidden)[i]))
  {
    LaidOut(data, fs, defaults, hidden);
    hide Table, Words, Stored, Payload, AllLines, Files, Standing, Reads, Small, C.SearchLaidOut, From, Head;
    var placed := Files(fs, defaults, hidden);
    SmallFile(data, LayOut(fs, defaults, hidden).payload, AllLines(fs), placed[i], fs[i]);
    assert FileRows(placed)[i] == FileRow(placed[i]);
    RowRead(data, 48, FileRows(placed), 24, i);
  }

  // ---- Lines

  lemma LineNumbers(data: Bytes, at: nat, r: R.LineRecord)
    requires Reads(data, at, LineRow(r))
    ensures at + 24 <= |data|
    ensures Le32(data, at) == r.offset && Le32(data, at + 4) == r.length
    ensures S.Word64(data, at + 8) == r.bloom && S.Word64(data, at + 16) == r.foldedBloom
  {
    hide Le32, Low, High, S.Word64;
    var row := LineRow(r);
    assert Le32(data, at + 4 * 0) == row[0] && Le32(data, at + 4 * 1) == row[1] && Le32(data, at + 4 * 2) == row[2];
    assert Le32(data, at + 4 * 3) == row[3] && Le32(data, at + 4 * 4) == row[4] && Le32(data, at + 4 * 5) == row[5];
    WordStored(data, at + 8, r.bloom);
    WordStored(data, at + 16, r.foldedBloom);
  }

  lemma WordStored(data: Bytes, at: nat, word: bv64)
    requires at + 8 <= |data| && Le32(data, at) == Low(word) && Le32(data, at + 4) == High(word)
    ensures S.Word64(data, at) == word
  {
    hide Le32, Low, High;
    Halves64(word);
  }

  /** What the reader makes of a line record with these numbers. */
  lemma LineOfNumbers(data: Bytes, c: C.SearchCorpus, f: C.SearchFile, line: nat, r: R.LineRecord)
    requires C.SearchLaidOut(data, c) && line < f.lineCount && f.lineStart + f.lineCount <= c.lines
    requires Reads(data, c.lineRecords + (f.lineStart + line) * 24, LineRow(r))
    ensures S.RecordAt(data, c, f, line) == r
  {
    assert c.lineRecords + c.lines * 24 <= c.payload < U32;
    hide Reads, Le32, S.Word64, C.RecordOffset, LineRow, C.SearchLaidOut;
    var k := f.lineStart + line;
    C.RecordInside(c.lineRecords, k, c.lines, 24, c.payload);
    LineNumbers(data, c.lineRecords + k * 24, r);
  }

  lemma SmallLine(r: R.LineRecord)
    requires r.offset < U32 && r.length < U32
    ensures Small(LineRow(r))
  {
    hide Low, High;
  }

  /** A line record is read as it was written. */
  lemma LineRead(data: Bytes, fs: seq<Source>, defaults: seq<nat>, hidden: seq<nat>, f: C.SearchFile, line: nat)
    requires Written(data, fs, defaults, hidden) && line < f.lineCount && f.lineStart + f.lineCount <= |AllLines(fs)|
    requires var r := AllLines(fs)[f.lineStart + line]; r.offset < U32 && r.length < U32
    ensures C.SearchLaidOut(data, CorpusOf(fs, defaults, hidden))
    ensures S.RecordAt(data, CorpusOf(fs, defaults, hidden), f, line) == AllLines(fs)[f.lineStart + line]
  {
    LaidOut(data, fs, defaults, hidden);
    hide Table, Words, Stored, Payload, AllLines, Files, Standing, Reads, Small, From, Head, LineRow, S.RecordAt;
    hide C.SearchLaidOut;
    var c, all, k := CorpusOf(fs, defaults, hidden), AllLines(fs), f.lineStart + line;
    assert LineRows(all)[k] == LineRow(all[k]);
    SmallLine(all[k]);
    RowRead(data, c.lineRecords, LineRows(all), 24, k);
    LineOfNumbers(data, c, f, line, all[k]);
  }

  // ---- The orders

  lemma OrderRead(data: Bytes, c: C.SearchCorpus, order: seq<nat>, hidden: bool)
    requires C.SearchLaidOut(data, c) && |data| < U32 && |order| == if hidden then c.hidden else c.defaults
    requires Stored(data, Slot(if hidden then c.hiddenOrder else c.defaultOrder, Table(OrderRows(order))))
    requires forall i :: 0 <= i < |order| ==> order[i] < U32
    ensures S.Order(data, c, hidden) == order
  {
    hide Table, Stored, Words, Le32, C.RecordOffset;
    var table := if hidden then c.hiddenOrder else c.defaultOrder;
    var rows := OrderRows(order);
    forall i | 0 <= i < |order|
      ensures C.OrderAt(data, c, hidden, i) == order[i]
    {
      assert rows[i] == [order[i]];
      RowRead(data, table, rows, 4, i);
      assert Le32(data, table + i * 4 + 4 * 0) == rows[i][0];
      C.RecordInside(table, i, |order|, 4, if hidden then c.lineRecords else c.hiddenOrder);
    }
  }

  // ---- The whole corpus

  /** Reading file `i` gives this one. */
  ghost predicate Gives(data: Bytes, c: C.SearchCorpus, i: nat, f: Source)
    requires C.SearchLaidOut(data, c)
  {
    var r := C.FileAt(data, c, i);
    && (r.Some? <==> GoodPath(f.path))
    && (r.Some? ==>
          && S.PathOf(data, r.value) == C.Text(f.path)
          && forall name :: S.FileOf(data, c, r.value, name) == R.File(name, C.Text(f.content), f.lines, f.foldUnsafe))
  }

  lemma LinesFit(data: Bytes, at: nat, all: seq<R.LineRecord>, p: Placed, f: Source, j: nat)
    requires Standing(data, at, all, 0, p, f) && Indexed(f) && |data| < U32 && j < p.count
    ensures p.first + j < |all| && all[p.first + j] == f.lines[j]
    ensures f.lines[j].offset < U32 && f.lines[j].length < U32
  {
    hide R.RecordsFrom;
    assert all[p.first..p.first + p.count][j] == all[p.first + j];
    RecordsInside(C.Text(f.content), 0, j);
  }

  /** The file record is that of the file where it was placed. */
  ghost predicate AtPlace(data: Bytes, c: C.SearchCorpus, i: nat, all: seq<R.LineRecord>, p: Placed, f: Source)
    requires C.SearchLaidOut(data, c)
  {
    var r := C.FileAt(data, c, i);
    && Standing(data, c.payload, all, 0, p, f) && |all| == c.lines && (r.Some? <==> GoodPath(f.path))
    && (r.Some? ==>
          && r.value == C.SearchFile(SliceOf(p.path), SliceOf(p.content), p.first, p.count, p.foldUnsafe)
          && C.At(data, r.value.path) == f.path && C.At(data, r.value.content) == f.content)
  }

  lemma FileAtRead(data: Bytes, fs: seq<Source>, defaults: seq<nat>, hidden: seq<nat>, i: nat)
    requires Written(data, fs, defaults, hidden) && i < |fs|
    ensures C.SearchLaidOut(data, CorpusOf(fs, defaults, hidden))
    ensures AtPlace(data, CorpusOf(fs, defaults, hidden), i, AllLines(fs), Files(fs, defaults, hidden)[i], fs[i])
  {
    LaidOut(data, fs, defaults, hidden);
    RecordRead(data, fs, defaults, hidden, i);
    hide Parts, Payload, AllLines, Files, Reads, C.SearchLaidOut, C.FileAt, Behind, C.Text, C.At, GoodPath;
    var c, p := CorpusOf(fs, defaults, hidden), Files(fs, defaults, hidden)[i];
    assert Standing(data, c.payload, AllLines(fs), 0, p, fs[i]);
    FileStored(data, c, i, p, fs[i]);
  }

  lemma LinesRead(data: Bytes, fs: seq<Source>, defaults: seq<nat>, hidden: seq<nat>, p: Placed, f: Source,
                  r: C.SearchFile)
    requires Written(data, fs, defaults, hidden) && Indexed(f)
    requires Standing(data, LayOut(fs, defaults, hidden).payload, AllLines(fs), 0, p, f)
    requires r.lineStart == p.first && r.lineCount == p.count
    ensures C.SearchLaidOut(data, CorpusOf(fs, defaults, hidden)) && r.lineStart + r.lineCount <= |AllLines(fs)|
    ensures r.lineCount == |f.lines|
    ensures forall j :: 0 <= j < r.lineCount ==> S.RecordAt(data, CorpusOf(fs, defaults, hidden), r, j) == f.lines[j]
  {
    LaidOut(data, fs, defaults, hidden);
    CountIs(data, LayOut(fs, defaults, hidden).payload, AllLines(fs), p, f);
    hide Written, AllLines, C.SearchLaidOut, Indexed, S.RecordAt, Standing;
    forall j | 0 <= j < p.count
      ensures S.RecordAt(data, CorpusOf(fs, defaults, hidden), r, j) == f.lines[j]
    {
      LinesFit(data, LayOut(fs, defaults, hidden).payload, AllLines(fs), p, f, j);
      LineRead(data, fs, defaults, hidden, r, j);
    }
  }

  lemma FileRead(data: Bytes, fs: seq<Source>, defaults: seq<nat>, hidden: seq<nat>, i: nat)
    requires Written(data, fs, defaults, hidden) && i < |fs| && Indexed(fs[i])
    ensures C.SearchLaidOut(data, CorpusOf(fs, defaults, hidden))
    ensures Gives(data, CorpusOf(fs, defaults, hidden), i, fs[i])
  {
    LaidOut(data, fs, defaults, hidden);
    FileAtRead(data, fs, defaults, hidden, i);
    hide Written, AllLines, Files, C.SearchLaidOut, Indexed, C.FileAt, S.RecordAt, C.Text, C.At, GoodPath, Standing;
    hide S.FileOf, LayOut;
    var c, p, f := CorpusOf(fs, defaults, hidden), Files(fs, defaults, hidden)[i], fs[i];
    var r := C.FileAt(data, c, i);
    if r.Some? {
      CountIs(data, c.payload, AllLines(fs), p, f);
      LinesRead(data, fs, defaults, hidden, p, f, r.value);
      FileOfIs(data, c, r.value, f);
    }
  }

  lemma CountIs(data: Bytes, at: nat, all: seq<R.LineRecord>, p: Placed, f: Source)
    requires Standing(data, at, all, 0, p, f)
    ensures p.count == |f.lines| && p.foldUnsafe == f.foldUnsafe && p.first + p.count <= |all|
  {
  }

  lemma FileOfIs(data: Bytes, c: C.SearchCorpus, r: C.SearchFile, f: Source)
    requires C.SearchLaidOut(data, c) && C.Inside(data, c.payload, r.content) && r.lineStart + r.lineCount <= c.lines
    requires C.At(data, r.content) == f.content && r.lineCount == |f.lines| && r.foldUnsafe == f.foldUnsafe
    requires forall j :: 0 <= j < r.lineCount ==> S.RecordAt(data, c, r, j) == f.lines[j]
    ensures forall name :: S.FileOf(data, c, r, name) == R.File(name, C.Text(f.content), f.lines, f.foldUnsafe)
  {
    hide C.SearchLaidOut, S.RecordAt, C.At, C.Text;
  }

  /** A search reads these files in these orders, each with the records the index
      relies on. */
  ghost predicate Reading(data: Bytes, c: C.SearchCorpus, fs: seq<Source>, defaults: seq<nat>, hidden: seq<nat>) {
    && C.DecodeSearch(data) == Some(c) && C.SearchLaidOut(data, c) && S.WellWritten(data, c)
    && S.Order(data, c, false) == defaults && S.Order(data, c, true) == hidden
    && c.files == |fs| && forall i :: 0 <= i < |fs| ==> Gives(data, c, i, fs[i])
  }

  /** What a search reads from a written corpus is what was written. */
  lemma CorpusRead(fs: seq<Source>, defaults: seq<nat>, hidden: seq<nat>)
    requires Writable(fs, defaults, hidden) && forall i :: 0 <= i < |fs| ==> Indexed(fs[i])
    ensures Reading(Corpus(fs, defaults, hidden), CorpusOf(fs, defaults, hidden), fs, defaults, hidden)
  {
    CorpusAccepted(fs, defaults, hidden);
    IsWritten(fs, defaults, hidden);
    hide Corpus, C.DecodeSearch, Written, C.SearchLaidOut, Indexed, Gives, S.Order, S.WellWritten;
    var data, c := Corpus(fs, defaults, hidden), CorpusOf(fs, defaults, hidden);
    forall i | 0 <= i < |fs|
      ensures C.SearchLaidOut(data, c) && Gives(data, c, i, fs[i])
    {
      FileRead(data, fs, defaults, hidden, i);
    }
    OrdersRead(data, fs, defaults, hidden);
    AllIndexed(data, c, fs);
  }

  lemma AllIndexed(data: Bytes, c: C.SearchCorpus, fs: seq<Source>)
    requires C.SearchLaidOut(data, c) && c.files == |fs|
    requires forall i :: 0 <= i < |fs| ==> Gives(data, c, i, fs[i]) && Indexed(fs[i])
    ensures S.WellWritten(data, c)
  {
    hide C.SearchLaidOut, Indexed, Gives, S.FileOf, R.RecordsFrom;
    forall index: nat | C.FileAt(data, c, index).Some?
      ensures var file := S.FileOf(data, c, C.FileAt(data, c, index).value, "");
              file.records == R.RecordsFrom(file.content, 0)
    {
      GivesIndexed(data, c, index, fs[index]);
    }
  }

  lemma OrdersRead(data: Bytes, fs: seq<Source>, defaults: seq<nat>, hidden: seq<nat>)
    requires Written(data, fs, defaults, hidden)
    ensures var c := CorpusOf(fs, defaults, hidden);
            C.SearchLaidOut(data, c) && S.Order(data, c, false) == defaults && S.Order(data, c, true) == hidden
  {
    hide Table, Words, Stored, Payload, AllLines, Files, Standing, From, Head, S.Order, C.SearchLaidOut;
    OrderRead(data, CorpusOf(fs, defaults, hidden), defaults, false);
    OrderRead(data, CorpusOf(fs, defaults, hidden), hidden, true);
  }

  lemma GivesIndexed(data: Bytes, c: C.SearchCorpus, i: nat, f: Source)
    requires C.SearchLaidOut(data, c) && Gives(data, c, i, f) && Indexed(f) && C.FileAt(data, c, i).Some?
    ensures var file := S.FileOf(data, c, C.FileAt(data, c, i).value, "");
            file.records == R.RecordsFrom(file.content, 0)
  {
    hide C.SearchLaidOut, S.FileOf, R.RecordsFrom, C.FileAt;
  }
}
