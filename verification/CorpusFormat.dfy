/** The two corpus formats: whatever bytes a decoder accepts, every record and
    slice read from them afterwards lies inside them. */
module CorpusFormat {
  import opened Wrappers
  import opened SnapshotTable

  const PATH_BUF := 4096

  /** A slice of the data. */
  datatype Slice = Slice(offset: nat, length: nat)

  /** Inside the payload, in numbers that 32 bits hold. */
  predicate Inside(data: Bytes, payload: nat, s: Slice) {
    payload <= s.offset && s.offset + s.length <= |data| < U32
  }

  /** The checks on an offset and a length, which cannot overflow. */
  predicate SliceOk(payload: nat, length: nat, s: Slice) {
    payload <= s.offset <= length && s.length <= length - s.offset
  }

  function At(data: Bytes, s: Slice): Bytes
    requires s.offset + s.length <= |data|
  {
    data[s.offset..s.offset + s.length]
  }

  /** The bytes as text, a char for each. */
  function Text(bytes: Bytes): (text: string)
    ensures |text| == |bytes| && forall i :: 0 <= i < |text| ==> text[i] as int == bytes[i]
  {
    seq(|bytes|, i requires 0 <= i < |bytes| => bytes[i] as char)
  }

  /** Where a record starts, computed in 32 bits from its table. */
  function RecordOffset(table: nat, index: nat, size: nat): nat {
    table + Truncated(index * size)
  }

  lemma {:induction false} ProductGrows(a: nat, b: nat, size: nat)
    requires a < b
    ensures a * size + size <= b * size
    decreases b
  {
    if a + 1 < b {
      ProductGrows(a, b - 1, size);
      assert b * size == (b - 1) * size + size;
    } else {
      assert b * size == (a + 1) * size == a * size + size;
    }
  }

  lemma RecordInside(table: nat, index: nat, count: nat, size: nat, end: nat)
    requires index < count && table + count * size <= end < U32
    ensures RecordOffset(table, index, size) == table + index * size
    ensures RecordOffset(table, index, size) + size <= end
  {
    ProductGrows(index, count, size);
  }

  // ---- Repository search

  const SEARCH_MAGIC: Bytes := [0x53, 0x51, 0x52, 0x47, 0x43, 0x30, 0x30, 0x31]
  const SEARCH_HEADER := 48
  const SEARCH_RECORD := 24
  const SEARCH_LINE := 24
  const SEARCH_MAX_FILES := 10000
  const SEARCH_MAX_BYTES := 48 * 1024 * 1024
  const FOLD_UNSAFE := 0x8000_0000

  datatype SearchCorpus = SearchCorpus(
    files: nat, defaults: nat, hidden: nat, records: nat, defaultOrder: nat, hiddenOrder: nat, payload: nat,
    lineRecords: nat, lines: nat)

  /** The tables follow one another and the payload follows them. */
  predicate SearchLaidOut(data: Bytes, c: SearchCorpus) {
    && |data| <= SEARCH_MAX_BYTES && 1 <= c.files <= SEARCH_MAX_FILES
    && c.defaults <= c.files && c.hidden <= c.files
    && c.records == SEARCH_HEADER
    && c.defaultOrder == c.records + c.files * SEARCH_RECORD
    && c.hiddenOrder == c.defaultOrder + c.defaults * 4
    && c.lineRecords == c.hiddenOrder + c.hidden * 4
    && c.payload == c.lineRecords + c.lines * SEARCH_LINE <= |data|
  }

  function DecodeSearch(data: Bytes): (r: Option<SearchCorpus>)
    ensures r.Some? ==> SearchLaidOut(data, r.value)
  {
    if |data| < SEARCH_HEADER || |data| > SEARCH_MAX_BYTES || data[..8] != SEARCH_MAGIC ||
       Le32(data, 8) != 2
    then None
    else
      CheckSearch(|data|, Le32(data, 12), Le32(data, 16), Le32(data, 20), Le32(data, 24), Le32(data, 28),
                  Le32(data, 32), Le32(data, 36), Le32(data, 40), Le32(data, 44))
  }

  function CheckSearch(length: nat, files: nat, defaults: nat, hidden: nat, records: nat, defaultOrder: nat,
                       hiddenOrder: nat, payload: nat, total: nat, lineRecords: nat): (r: Option<SearchCorpus>)
    requires length <= SEARCH_MAX_BYTES
    ensures r.Some? ==>
              var c := r.value;
              && 1 <= c.files <= SEARCH_MAX_FILES && c.defaults <= c.files && c.hidden <= c.files
              && c.records == SEARCH_HEADER && c.defaultOrder == c.records + c.files * SEARCH_RECORD
              && c.hiddenOrder == c.defaultOrder + c.defaults * 4 && c.lineRecords == c.hiddenOrder + c.hidden * 4
              && c.payload == c.lineRecords + c.lines * SEARCH_LINE <= length
  {
    var recordsEnd, defaultEnd, hiddenEnd := records + files * SEARCH_RECORD, defaultOrder + defaults * 4,
                                             hiddenOrder + hidden * 4;
    if files == 0 || files > SEARCH_MAX_FILES || defaults > files || hidden > files || records != SEARCH_HEADER ||
       total != length || lineRecords < hiddenEnd || payload < lineRecords ||
       (payload - lineRecords) % SEARCH_LINE != 0 ||
       recordsEnd != defaultOrder || defaultEnd != hiddenOrder || hiddenEnd != lineRecords || payload > length
    then None
    else
      Some(SearchCorpus(files, defaults, hidden, records, defaultOrder, hiddenOrder, payload, lineRecords,
                        (payload - lineRecords) / SEARCH_LINE))
  }

  datatype SearchFile = SearchFile(path: Slice, content: Slice, lineStart: nat, lineCount: nat, foldUnsafe: bool)

  /** A file record: its path and content lie in the payload, its lines in the
      line table. */
  function FileAt(data: Bytes, c: SearchCorpus, index: nat): (r: Option<SearchFile>)
    requires SearchLaidOut(data, c)
    ensures r.Some? ==>
              && index < c.files && Inside(data, c.payload, r.value.path) && Inside(data, c.payload, r.value.content)
              && 1 <= r.value.path.length < PATH_BUF && 0 !in At(data, r.value.path)
              && r.value.lineStart + r.value.lineCount <= c.lines
  {
    if index >= c.files then None
    else
      RecordInside(c.records, index, c.files, SEARCH_RECORD, c.defaultOrder);
      var record := RecordOffset(c.records, index, SEARCH_RECORD);
      var path, content := Slice(Le32(data, record), Le32(data, record + 4)),
                           Slice(Le32(data, record + 8), Le32(data, record + 12));
      var lineStart, lineCount := Le32(data, record + 16), Le32(data, record + 20) % FOLD_UNSAFE;
      if path.length == 0 || path.length >= PATH_BUF || !SliceOk(c.payload, |data|, path) ||
         !SliceOk(c.payload, |data|, content) || lineStart > c.lines || lineCount > c.lines - lineStart ||
         0 in At(data, path)
      then None
      else Some(SearchFile(path, content, lineStart, lineCount, Le32(data, record + 20) >= FOLD_UNSAFE))
  }

  /** A line of a file: its bytes lie in the file's content. */
  function LineAt(data: Bytes, c: SearchCorpus, f: SearchFile, line: nat): (r: Option<Slice>)
    requires SearchLaidOut(data, c) && Inside(data, c.payload, f.content) && f.lineStart + f.lineCount <= c.lines
    ensures r.Some? ==>
              && line < f.lineCount && Inside(data, c.payload, r.value)
              && f.content.offset <= r.value.offset &&
                 r.value.offset + r.value.length <= f.content.offset + f.content.length
    ensures line < f.lineCount ==> Truncated(f.lineStart + line) == f.lineStart + line < c.lines
  {
    if line >= f.lineCount then None
    else
      var global := Truncated(f.lineStart + line);
      if global >= c.lines then None
      else
        RecordInside(c.lineRecords, global, c.lines, SEARCH_LINE, c.payload);
        var record := RecordOffset(c.lineRecords, global, SEARCH_LINE);
        var s := Slice(Le32(data, record), Le32(data, record + 4));
        if s.offset > f.content.length || s.length > f.content.length - s.offset then None
        else Some(Slice(f.content.offset + s.offset, s.length))
  }

  /** The file that comes at a place in the default or hidden order. */
  function OrderAt(data: Bytes, c: SearchCorpus, hidden: bool, place: nat): (index: nat)
    requires SearchLaidOut(data, c) && place < if hidden then c.hidden else c.defaults
    ensures index < U32
  {
    var table := if hidden then c.hiddenOrder else c.defaultOrder;
    RecordInside(table, place, if hidden then c.hidden else c.defaults, 4,
                 if hidden then c.lineRecords else c.hiddenOrder);
    Le32(data, RecordOffset(table, place, 4))
  }

  // ---- History

  const HISTORY_MAGIC: Bytes := [0x53, 0x51, 0x47, 0x49, 0x54, 0x48, 0x30, 0x31]
  const HISTORY_HEADER := 32
  const HISTORY_RECORD := 32
  const HISTORY_PATH := 8
  const HISTORY_MAX_COMMITS := 512
  const HISTORY_MAX_BYTES := 8 * 1024 * 1024

  datatype HistoryCorpus = HistoryCorpus(
    commits: nat, records: nat, pathRecords: nat, paths: nat, payload: nat, complete: bool)

  predicate HistoryLaidOut(data: Bytes, c: HistoryCorpus) {
    && |data| <= HISTORY_MAX_BYTES && 1 <= c.commits <= HISTORY_MAX_COMMITS && c.records == HISTORY_HEADER
    && c.pathRecords == c.records + c.commits * HISTORY_RECORD
    && c.payload == c.pathRecords + c.paths * HISTORY_PATH <= |data|
  }

  function DecodeHistory(data: Bytes): (r: Option<HistoryCorpus>)
    ensures r.Some? ==> HistoryLaidOut(data, r.value)
  {
    if |data| < HISTORY_HEADER || |data| > HISTORY_MAX_BYTES || data[..8] != HISTORY_MAGIC ||
       Le32(data, 8) != 1
    then None
    else
      CheckHistory(|data|, Le32(data, 12), Le32(data, 16), Le32(data, 20), Le32(data, 24), Le32(data, 28))
  }

  function CheckHistory(length: nat, commits: nat, records: nat, pathRecords: nat, payload: nat, complete: nat)
    : (r: Option<HistoryCorpus>)
    requires length <= HISTORY_MAX_BYTES
    ensures r.Some? ==>
              var c := r.value;
              && 1 <= c.commits <= HISTORY_MAX_COMMITS && c.records == HISTORY_HEADER
              && c.pathRecords == c.records + c.commits * HISTORY_RECORD
              && c.payload == c.pathRecords + c.paths * HISTORY_PATH <= length
  {
    if commits == 0 || commits > HISTORY_MAX_COMMITS || records != HISTORY_HEADER || pathRecords < records ||
       payload < pathRecords || payload > length || pathRecords - records != Truncated(commits * HISTORY_RECORD) ||
       (payload - pathRecords) % HISTORY_PATH != 0 || complete > 1
    then None
    else
      Some(HistoryCorpus(commits, records, pathRecords, (payload - pathRecords) / HISTORY_PATH, payload, complete == 1))
  }

  datatype HistoryCommit = HistoryCommit(hash: Slice, oneline: Slice, pathStart: nat, pathCount: nat, parents: nat)

  function CommitAt(data: Bytes, c: HistoryCorpus, index: nat): (r: Option<HistoryCommit>)
    requires HistoryLaidOut(data, c)
    ensures r.Some? ==>
              && index < c.commits && Inside(data, c.payload, r.value.hash) && Inside(data, c.payload, r.value.oneline)
              && r.value.hash.length == 40 && r.value.oneline.length >= 1
              && 0 !in At(data, r.value.hash) && 0 !in At(data, r.value.oneline)
              && r.value.pathStart + r.value.pathCount <= c.paths
  {
    if index >= c.commits then None
    else
      RecordInside(c.records, index, c.commits, HISTORY_RECORD, c.pathRecords);
      var record := RecordOffset(c.records, index, HISTORY_RECORD);
      var hash, oneline := Slice(Le32(data, record), Le32(data, record + 4)),
                           Slice(Le32(data, record + 8), Le32(data, record + 12));
      var pathStart, pathCount := Le32(data, record + 16), Le32(data, record + 20);
      if hash.length != 40 || oneline.length == 0 || !SliceOk(c.payload, |data|, hash) ||
         !SliceOk(c.payload, |data|, oneline) || pathStart > c.paths || pathCount > c.paths - pathStart ||
         0 in At(data, hash) || 0 in At(data, oneline)
      then None
      else Some(HistoryCommit(hash, oneline, pathStart, pathCount, Le32(data, record + 24)))
  }

  function PathAt(data: Bytes, c: HistoryCorpus, index: nat): (r: Option<Slice>)
    requires HistoryLaidOut(data, c)
    ensures r.Some? ==>
              && index < c.paths && Inside(data, c.payload, r.value) && 1 <= r.value.length < PATH_BUF
              && 0 !in At(data, r.value)
  {
    if index >= c.paths then None
    else
      RecordInside(c.pathRecords, index, c.paths, HISTORY_PATH, c.payload);
      var record := RecordOffset(c.pathRecords, index, HISTORY_PATH);
      var s := Slice(Le32(data, record), Le32(data, record + 4));
      if s.length == 0 || s.length >= PATH_BUF || !SliceOk(c.payload, |data|, s) || 0 in At(data, s) then None
      else Some(s)
  }

  /** The path records of a commit are among those of the corpus, and adding the
      path index to the commit's first does not wrap. */
  lemma CommitPathsInside(data: Bytes, c: HistoryCorpus, index: nat, path: nat)
    requires HistoryLaidOut(data, c) && CommitAt(data, c, index).Some?
    requires path < CommitAt(data, c, index).value.pathCount
    ensures var commit := CommitAt(data, c, index).value;
            Truncated(commit.pathStart + path) == commit.pathStart + path < c.paths
  {
    hide CommitAt;
  }
}
