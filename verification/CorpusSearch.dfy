/** Answering a repository search from the bytes of a corpus: the files chosen by
    path and glob, read by the decoder and searched with the index. */
module CorpusSearch {
  import opened Wrappers
  import opened SnapshotTable
  import opened Lines
  import opened Filters
  import opened Regex
  import opened SeedIndex
  import opened RepoSearch
  import C = CorpusFormat

  /** A parsed search; `globs` is the verdict of its globs on a path. */
  datatype Request = Request(
    pattern: string, fixed: bool, quiet: bool, filesWithMatches: bool, lineNumber: bool, paths: seq<string>,
    hidden: bool, allowMissing: bool, withFilename: bool, noFilename: bool, ignoreCase: bool, smartCase: bool,
    implicitPath: bool, globs: string -> bool)

  /** The regex library: how the pattern, if it can be used, decides a line when
      case is ignored or not. */
  type Library = bool -> Option<string -> bool>

  // ---- The files of a corpus

  function Word64(data: Bytes, i: nat): bv64
    requires i + 8 <= |data|
  {
    (Le32(data, i) + U32 * Le32(data, i + 4)) as bv64
  }

  /** The line record as it stands in the corpus. */
  function RecordAt(data: Bytes, c: C.SearchCorpus, f: C.SearchFile, line: nat): LineRecord
    requires C.SearchLaidOut(data, c) && f.lineStart + f.lineCount <= c.lines && line < f.lineCount
  {
    C.RecordInside(c.lineRecords, f.lineStart + line, c.lines, C.SEARCH_LINE, c.payload);
    var record := C.RecordOffset(c.lineRecords, f.lineStart + line, C.SEARCH_LINE);
    LineRecord(Le32(data, record), Le32(data, record + 4), Word64(data, record + 8), Word64(data, record + 16))
  }

  lemma TextOfPart(bytes: Bytes, lo: nat, hi: nat)
    requires lo <= hi <= |bytes|
    ensures C.Text(bytes[lo..hi]) == C.Text(bytes)[lo..hi]
  {
  }

  /** Part of a slice is part of its text. */
  lemma PartOfText(data: Bytes, whole: C.Slice, offset: nat, length: nat)
    requires whole.offset + whole.length <= |data| && offset + length <= whole.length
    ensures C.Text(C.At(data, C.Slice(whole.offset + offset, length))) ==
            C.Text(C.At(data, whole))[offset..offset + length]
  {
    SliceOfSlice(data, whole.offset, whole.length, offset, length);
    TextOfPart(C.At(data, whole), offset, offset + length);
  }

  /** Reading a line through its record gives that part of the file's text, or
      fails where the record points outside. */
  lemma LineIsSlice(data: Bytes, c: C.SearchCorpus, f: C.SearchFile, line: nat)
    requires C.SearchLaidOut(data, c) && C.Inside(data, c.payload, f.content) && f.lineStart + f.lineCount <= c.lines
    requires line < f.lineCount
    ensures var r, text, s := RecordAt(data, c, f, line), C.Text(C.At(data, f.content)), C.LineAt(data, c, f, line);
            && (s.None? <==> r.offset > |text| || r.length > |text| - r.offset)
            && (s.Some? ==> C.Text(C.At(data, s.value)) == text[r.offset..r.offset + r.length])
  {
    hide Le32;
    var r := RecordAt(data, c, f, line);
    if C.LineAt(data, c, f, line).Some? {
      PartOfText(data, f.content, r.offset, r.length);
    }
  }

  /** How a path is printed below a search root. */
  function Printed(req: Request, root: string, path: string): string {
    if root == "." && !req.implicitPath then "./" + path else path
  }

  function FileOf(data: Bytes, c: C.SearchCorpus, f: C.SearchFile, name: string): File
    requires C.SearchLaidOut(data, c) && C.Inside(data, c.payload, f.content) && f.lineStart + f.lineCount <= c.lines
  {
    File(name, C.Text(C.At(data, f.content)),
         seq(f.lineCount, line requires 0 <= line < f.lineCount => RecordAt(data, c, f, line)), f.foldUnsafe)
  }

  /** The writer recorded the newline split of every file. */
  ghost predicate WellWritten(data: Bytes, c: C.SearchCorpus)
    requires C.SearchLaidOut(data, c)
  {
    forall index :: C.FileAt(data, c, index).Some? ==>
      var file := FileOf(data, c, C.FileAt(data, c, index).value, "");
      file.records == RecordsFrom(file.content, 0)
  }

  // ---- Which files are searched

  /** The indices of the files, in the order they are searched. */
  function Order(data: Bytes, c: C.SearchCorpus, hidden: bool): seq<nat>
    requires C.SearchLaidOut(data, c)
  {
    var count := if hidden then c.hidden else c.defaults;
    seq(count, i requires 0 <= i < count => C.OrderAt(data, c, hidden, i))
  }

  function PathOf(data: Bytes, f: C.SearchFile): string
    requires f.path.offset + f.path.length <= |data|
  {
    C.Text(C.At(data, f.path))
  }

  /** The path is the root or lies below it. */
  predicate Below(root: string, path: string) {
    root == path || (|root| < |path| && root == path[..|root|] && path[|root|] == '/')
  }

  datatype Kind = Bad | Missing | Regular | Directory

  /** What a search path names: decided by the first file at or below it. */
  function KindOf(data: Bytes, c: C.SearchCorpus, order: seq<nat>, path: string): Kind
    requires C.SearchLaidOut(data, c)
  {
    if path == "." then Directory
    else if order == [] then Missing
    else
      var f := C.FileAt(data, c, order[0]);
      if f.None? then Bad
      else if PathOf(data, f.value) == path then Regular
      else if Below(path, PathOf(data, f.value)) then Directory
      else KindOf(data, c, order[1..], path)
  }

  predicate Chosen(req: Request, root: string, path: string) {
    (root == "." || Below(root, path)) && req.globs(path)
  }

  /** The files of one root in order; None for a malformed record. */
  function FilesBelow(data: Bytes, c: C.SearchCorpus, req: Request, root: string, order: seq<nat>): seq<Option<File>>
    requires C.SearchLaidOut(data, c)
  {
    if order == [] then []
    else
      var f, rest := C.FileAt(data, c, order[0]), FilesBelow(data, c, req, root, order[1..]);
      if order[0] >= c.files then rest
      else if f.None? then [None] + rest
      else
        var path := PathOf(data, f.value);
        if Chosen(req, root, path) then [Some(FileOf(data, c, f.value, Printed(req, root, path)))] + rest else rest
  }

  function FilesOf(data: Bytes, c: C.SearchCorpus, req: Request, roots: seq<string>, order: seq<nat>)
    : seq<Option<File>>
    requires C.SearchLaidOut(data, c)
  {
    if roots == [] then []
    else
      var rest := FilesOf(data, c, req, roots[1..], order);
      if KindOf(data, c, order, roots[0]).Missing? then rest
      else FilesBelow(data, c, req, roots[0], order) + rest
  }

  /** A file where ignoring case takes more than ASCII is chosen, or a record
      cannot be read. */
  predicate Unsafe(data: Bytes, c: C.SearchCorpus, req: Request, roots: seq<string>, order: seq<nat>)
    requires C.SearchLaidOut(data, c)
  {
    exists i, j :: 0 <= i < |roots| && 0 <= j < |order| && UnsafeAt(data, c, req, roots[i], order, order[j])
  }

  predicate UnsafeAt(data: Bytes, c: C.SearchCorpus, req: Request, root: string, order: seq<nat>, index: nat)
    requires C.SearchLaidOut(data, c)
  {
    var f := C.FileAt(data, c, index);
    !KindOf(data, c, order, root).Missing? &&
    (f.None? || (f.value.foldUnsafe && Chosen(req, root, PathOf(data, f.value))))
  }

  // ---- What the answer is

  /** The files in order, every line of each; a quiet search stops at the first
      match. */
  function SearchFiles(s: Search, files: seq<Option<File>>, out: string, matched: bool): Outcome
    decreases |files|
  {
    if files == [] || (s.query.quiet && matched) then Searched(out, matched)
    else if files[0].None? then Failed
    else
      var r := SearchFile(s, files[0].value, out, matched);
      if r.Failed? then Failed else SearchFiles(s, files[1..], r.out, r.matched)
  }

  predicate HasUpper(pattern: string) {
    exists i :: 0 <= i < |pattern| && IsUpper(pattern[i])
  }

  predicate IgnoresCase(req: Request) {
    req.ignoreCase || (req.smartCase && !HasUpper(req.pattern))
  }

  /** The search a request asks for, when the pattern can be used. */
  function SearchOf(req: Request, library: Library, anyDirectory: bool): Option<Search> {
    var showFilename := req.withFilename || (!req.noFilename && (|req.paths| > 1 || anyDirectory));
    var query := Query(req.pattern, req.fixed, req.quiet, req.filesWithMatches, req.lineNumber, showFilename);
    if req.fixed then Some(Search(query, _ => false, IgnoresCase(req)))
    else
      var regexec := library(IgnoresCase(req));
      if regexec.None? then None else Some(Search(query, regexec.value, IgnoresCase(req)))
  }

  predicate AnyOf(kinds: seq<Kind>, kind: Kind) {
    exists i :: 0 <= i < |kinds| && kinds[i] == kind
  }

  function Kinds(data: Bytes, c: C.SearchCorpus, order: seq<nat>, paths: seq<string>): (kinds: seq<Kind>)
    requires C.SearchLaidOut(data, c)
    ensures |kinds| == |paths|
  {
    seq(|paths|, i requires 0 <= i < |paths| => KindOf(data, c, order, paths[i]))
  }

  /** Searching every line of every chosen file, without the index. */
  function PlainAnswer(data: Bytes, c: C.SearchCorpus, req: Request, library: Library): Option<(string, int)>
    requires C.SearchLaidOut(data, c)
  {
    var order := Order(data, c, req.hidden);
    var kinds := Kinds(data, c, order, req.paths);
    var s := SearchOf(req, library, AnyOf(kinds, Directory));
    if AnyOf(kinds, Bad) || (AnyOf(kinds, Missing) && !req.allowMissing) then None
    else if (IgnoresCase(req) && Unsafe(data, c, req, req.paths, order)) || s.None? then None
    else
      match SearchFiles(s.value, FilesOf(data, c, req, req.paths, order), "", false)
      case Failed => None
      case Searched(out, matched) => Some((out, if AnyOf(kinds, Missing) then 2 else if matched then 0 else 1))
  }

  // ---- What the answer says

  /** The path is the search path, or lies below it. */
  predicate Names(root: string, path: string) {
    root == path || root + "/" <= path
  }

  predicate Readable(data: Bytes, c: C.SearchCorpus, index: nat)
    requires C.SearchLaidOut(data, c)
  {
    C.FileAt(data, c, index).Some?
  }

  function PathAt(data: Bytes, c: C.SearchCorpus, index: nat): string
    requires C.SearchLaidOut(data, c) && Readable(data, c, index)
  {
    C.Text(C.At(data, C.FileAt(data, c, index).value.path))
  }

  /** None of the first `n` files of the order is at or below the search path,
      and all of them can be read. */
  predicate NotAmong(data: Bytes, c: C.SearchCorpus, order: seq<nat>, path: string, n: nat)
    requires C.SearchLaidOut(data, c) && n <= |order|
  {
    forall i :: 0 <= i < n ==> Readable(data, c, order[i]) && !Names(path, PathAt(data, c, order[i]))
  }

  /** The first file at or below the search path. */
  predicate FirstNamed(data: Bytes, c: C.SearchCorpus, order: seq<nat>, path: string, i: nat)
    requires C.SearchLaidOut(data, c)
  {
    && i < |order| && NotAmong(data, c, order, path, i)
    && Readable(data, c, order[i]) && Names(path, PathAt(data, c, order[i]))
  }

  predicate Nowhere(data: Bytes, c: C.SearchCorpus, order: seq<nat>, path: string)
    requires C.SearchLaidOut(data, c)
  {
    path != "." && NotAmong(data, c, order, path, |order|)
  }

  ghost predicate IsDirectory(data: Bytes, c: C.SearchCorpus, order: seq<nat>, path: string)
    requires C.SearchLaidOut(data, c)
  {
    path == "." || exists i: nat :: FirstNamed(data, c, order, path, i) && PathAt(data, c, order[i]) != path
  }

  /** A record that cannot be read comes before any file at or below the path. */
  ghost predicate Unclear(data: Bytes, c: C.SearchCorpus, order: seq<nat>, path: string)
    requires C.SearchLaidOut(data, c)
  {
    path != "." &&
    exists i: nat :: i < |order| && NotAmong(data, c, order, path, i) && !Readable(data, c, order[i])
  }

  lemma BelowIsNames(root: string, path: string)
    ensures Below(root, path) <==> Names(root, path)
  {
    if |root| < |path| {
      assert path[..|root| + 1] == path[..|root|] + [path[|root|]];
    }
  }

  lemma KindStep(data: Bytes, c: C.SearchCorpus, order: seq<nat>, path: string, n: nat)
    requires C.SearchLaidOut(data, c) && n < |order| && path != "."
    ensures KindOf(data, c, order[n..], path) ==
            if !Readable(data, c, order[n]) then Bad
            else if PathAt(data, c, order[n]) == path then Regular
            else if Names(path, PathAt(data, c, order[n])) then Directory
            else KindOf(data, c, order[n + 1..], path)
  {
    hide C.FileAt, C.SearchLaidOut, Below, Names;
    RestOfRest(order, n, 1);
    if Readable(data, c, order[n]) {
      BelowIsNames(path, PathAt(data, c, order[n]));
    }
  }

  lemma SamePath(root: string, path: string)
    ensures root == path ==> Names(root, path)
  {
  }

  /** The kind is told by the first file that cannot be read or is named. */
  ghost predicate KindSaid(data: Bytes, c: C.SearchCorpus, order: seq<nat>, path: string, kind: Kind)
    requires C.SearchLaidOut(data, c)
  {
    match kind
    case Missing => NotAmong(data, c, order, path, |order|)
    case Bad => exists i: nat :: i < |order| && NotAmong(data, c, order, path, i) && !Readable(data, c, order[i])
    case Directory => exists i: nat :: FirstNamed(data, c, order, path, i) && PathAt(data, c, order[i]) != path
    case Regular => exists i: nat :: FirstNamed(data, c, order, path, i) && PathAt(data, c, order[i]) == path
  }

  lemma {:induction false} KindIs(data: Bytes, c: C.SearchCorpus, order: seq<nat>, path: string, n: nat)
    requires C.SearchLaidOut(data, c) && n <= |order| && path != "." && NotAmong(data, c, order, path, n)
    ensures KindSaid(data, c, order, path, KindOf(data, c, order[n..], path))
    decreases |order| - n
  {
    hide C.SearchLaidOut, KindOf, Names, Readable, PathAt;
    if n == |order| {
      NoKind(data, c, path);
      assert order[n..] == [];
    } else {
      KindStep(data, c, order, path, n);
      if Readable(data, c, order[n]) {
        SamePath(path, PathAt(data, c, order[n]));
        if Names(path, PathAt(data, c, order[n])) {
          assert FirstNamed(data, c, order, path, n);
        } else {
          KindIs(data, c, order, path, n + 1);
        }
      } else {
        assert NotAmong(data, c, order, path, n) && !Readable(data, c, order[n]);
      }
    }
  }

  lemma NoKind(data: Bytes, c: C.SearchCorpus, path: string)
    requires C.SearchLaidOut(data, c) && path != "."
    ensures KindOf(data, c, [], path) == Missing
  {
  }

  /** At most one place decides. */
  lemma OneStop(data: Bytes, c: C.SearchCorpus, order: seq<nat>, path: string, i: nat, j: nat)
    requires C.SearchLaidOut(data, c) && i < |order| && j <= |order|
    requires NotAmong(data, c, order, path, i) && NotAmong(data, c, order, path, j)
    requires !Readable(data, c, order[i]) || Names(path, PathAt(data, c, order[i]))
    ensures j <= i
  {
    hide C.SearchLaidOut, Names, Readable, PathAt;
  }

  lemma OneKind(data: Bytes, c: C.SearchCorpus, order: seq<nat>, path: string, a: Kind, b: Kind)
    requires C.SearchLaidOut(data, c) && KindSaid(data, c, order, path, a) && KindSaid(data, c, order, path, b)
    ensures a == b
  {
    hide C.SearchLaidOut, Names, Readable, PathAt;
    var i := StopOf(data, c, order, path, a);
    var j := StopOf(data, c, order, path, b);
    hide NotAmong;
    if i < |order| {
      OneStop(data, c, order, path, i, j);
    }
    if j < |order| {
      OneStop(data, c, order, path, j, i);
    }
  }

  /** The place that decides, or the end. */
  lemma StopOf(data: Bytes, c: C.SearchCorpus, order: seq<nat>, path: string, kind: Kind) returns (i: nat)
    requires C.SearchLaidOut(data, c) && KindSaid(data, c, order, path, kind)
    ensures i <= |order| && NotAmong(data, c, order, path, i)
    ensures i == |order| <==> kind == Missing
    ensures i < |order| ==>
              && (kind == Bad <==> !Readable(data, c, order[i]))
              && (kind != Bad ==> Names(path, PathAt(data, c, order[i])))
              && (kind == Regular <==> Readable(data, c, order[i]) && PathAt(data, c, order[i]) == path)
  {
    hide C.SearchLaidOut, Names, Readable, PathAt, NotAmong;
    match kind
    case Missing => i := |order|;
    case Bad =>
      i :| i < |order| && NotAmong(data, c, order, path, i) && !Readable(data, c, order[i]);
    case Directory =>
      i :| FirstNamed(data, c, order, path, i) && PathAt(data, c, order[i]) != path;
    case Regular =>
      i :| FirstNamed(data, c, order, path, i) && PathAt(data, c, order[i]) == path;
  }

  /** What kind of thing a search path names, by the order of the files. */
  lemma KindExact(data: Bytes, c: C.SearchCorpus, order: seq<nat>, path: string)
    requires C.SearchLaidOut(data, c)
    ensures var kind := KindOf(data, c, order, path);
            && (kind == Missing <==> Nowhere(data, c, order, path))
            && (kind == Directory <==> IsDirectory(data, c, order, path))
            && (kind == Bad <==> Unclear(data, c, order, path))
  {
    hide C.SearchLaidOut, KindOf, NotAmong, FirstNamed, Readable, PathAt;
    if path != "." {
      assert order[0..] == order;
      assert NotAmong(data, c, order, path, 0) by {
        NoneYet(data, c, order, path);
      }
      KindIs(data, c, order, path, 0);
      forall kind | KindSaid(data, c, order, path, kind)
        ensures kind == KindOf(data, c, order, path)
      {
        OneKind(data, c, order, path, kind, KindOf(data, c, order, path));
      }
      assert Nowhere(data, c, order, path) <==> KindSaid(data, c, order, path, Missing);
      assert IsDirectory(data, c, order, path) <==> KindSaid(data, c, order, path, Directory);
      assert Unclear(data, c, order, path) <==> KindSaid(data, c, order, path, Bad);
    } else {
      DotKind(data, c, order);
    }
  }

  lemma NoneYet(data: Bytes, c: C.SearchCorpus, order: seq<nat>, path: string)
    requires C.SearchLaidOut(data, c)
    ensures NotAmong(data, c, order, path, 0)
  {
  }

  lemma DotKind(data: Bytes, c: C.SearchCorpus, order: seq<nat>)
    requires C.SearchLaidOut(data, c)
    ensures KindOf(data, c, order, ".") == Directory
  {
  }

  /** The file is one the request chooses below a root. */
  predicate Picks(req: Request, root: string, path: string) {
    (root == "." || Names(root, path)) && req.globs(path)
  }

  /** The name as printed and the content of a file of the corpus. */
  function Item(data: Bytes, c: C.SearchCorpus, req: Request, root: string, index: nat): File
    requires C.SearchLaidOut(data, c) && Readable(data, c, index)
  {
    var dot := if root == "." && !req.implicitPath then "./" else "";
    File(dot + PathAt(data, c, index), C.Text(C.At(data, C.FileAt(data, c, index).value.content)), [], false)
  }

  predicate Taken(data: Bytes, c: C.SearchCorpus, req: Request, root: string, index: nat)
    requires C.SearchLaidOut(data, c)
  {
    Readable(data, c, index) && Picks(req, root, PathAt(data, c, index))
  }

  /** What a file of the corpus adds to the output below a root. */
  ghost function OutputOf(data: Bytes, c: C.SearchCorpus, req: Request, s: Search, root: string, index: nat): string
    requires C.SearchLaidOut(data, c)
  {
    if Taken(data, c, req, root, index) then Added(s, Item(data, c, req, root, index)) else ""
  }

  ghost predicate HitOf(data: Bytes, c: C.SearchCorpus, req: Request, s: Search, root: string, index: nat)
    requires C.SearchLaidOut(data, c)
  {
    Taken(data, c, req, root, index) && AnyHit(s, Item(data, c, req, root, index))
  }

  /** The outputs of the files below a root, in the order of the corpus. */
  ghost function Outputs(data: Bytes, c: C.SearchCorpus, req: Request, s: Search, root: string, order: seq<nat>)
    : (parts: seq<string>)
    requires C.SearchLaidOut(data, c)
    ensures |parts| == |order|
    ensures forall i :: 0 <= i < |order| ==> parts[i] == OutputOf(data, c, req, s, root, order[i])
  {
    seq(|order|, i requires 0 <= i < |order| => OutputOf(data, c, req, s, root, order[i]))
  }

  /** The outputs of the roots, in the order given. */
  ghost function RootOutputs(data: Bytes, c: C.SearchCorpus, req: Request, s: Search, roots: seq<string>,
                             order: seq<nat>): (parts: seq<string>)
    requires C.SearchLaidOut(data, c)
    ensures |parts| == |roots|
    ensures forall r :: 0 <= r < |roots| ==> parts[r] == Concat(Outputs(data, c, req, s, roots[r], order))
  {
    seq(|roots|, r requires 0 <= r < |roots| => Concat(Outputs(data, c, req, s, roots[r], order)))
  }

  ghost predicate HitBelow(data: Bytes, c: C.SearchCorpus, req: Request, s: Search, root: string, order: seq<nat>)
    requires C.SearchLaidOut(data, c)
  {
    exists i :: 0 <= i < |order| && HitOf(data, c, req, s, root, order[i])
  }

  ghost predicate HitAnywhere(data: Bytes, c: C.SearchCorpus, req: Request, s: Search, roots: seq<string>,
                              order: seq<nat>)
    requires C.SearchLaidOut(data, c)
  {
    exists r :: 0 <= r < |roots| && HitBelow(data, c, req, s, roots[r], order)
  }

  /** A record of the table that the order names cannot be read. */
  predicate Broken(data: Bytes, c: C.SearchCorpus, order: seq<nat>)
    requires C.SearchLaidOut(data, c)
  {
    exists i :: 0 <= i < |order| && order[i] < c.files && !Readable(data, c, order[i])
  }

  // ---- The search of a list of files

  ghost function AddedBy(s: Search, f: Option<File>): string {
    if f.Some? then Added(s, f.value) else ""
  }

  ghost function Total(s: Search, files: seq<Option<File>>): string {
    if files == [] then "" else AddedBy(s, files[0]) + Total(s, files[1..])
  }

  ghost predicate HitIn(s: Search, files: seq<Option<File>>) {
    exists i :: 0 <= i < |files| && files[i].Some? && AnyHit(s, files[i].value)
  }

  /** What a search comes to that adds this output. */
  ghost predicate FilesSearched(s: Search, broken: bool, total: string, hit: bool, out: string, matched: bool,
                                r: Outcome) {
    match r
    case Failed => broken || (hit && OverLimit(s.query, out + total))
    case Searched(out', matched') =>
      && out' == out + total && (matched' <==> matched || hit)
      && (!s.query.quiet ==> !broken && !(hit && OverLimit(s.query, out + total)))
  }

  lemma FileFirst(s: Search, file: File, out: string, matched: bool, broken: bool, total: string, hit: bool, r: Outcome)
    requires var one := SearchFile(s, file, out, matched);
             if one.Failed? then r == Failed
             else FilesSearched(s, broken, total, hit, one.out, one.matched, r)
    requires !hit ==> total == ""
    ensures FilesSearched(s, broken, Added(s, file) + total, AnyHit(s, file) || hit, out, matched, r)
  {
    SearchPrints(s, file, out, matched);
    var mine := Added(s, file);
    NothingAdded(s, file);
    hide SearchFile, Added, AnyHit;
    Assoc(out, mine, total);
    assert out + mine + "" == out + mine;
  }

  lemma NothingAdded(s: Search, file: File)
    ensures !AnyHit(s, file) || s.query.quiet ==> Added(s, file) == ""
  {
  }

  lemma {:induction false} QuietTotal(s: Search, files: seq<Option<File>>)
    ensures s.query.quiet || !HitIn(s, files) ==> Total(s, files) == ""
  {
    hide Added, AnyHit;
    if files != [] {
      QuietTotal(s, files[1..]);
      HitFirst(s, files);
      if files[0].Some? {
        NothingAdded(s, files[0].value);
      }
    }
  }

  lemma HitFirst(s: Search, files: seq<Option<File>>)
    requires files != []
    ensures HitIn(s, files) <==> (files[0].Some? && AnyHit(s, files[0].value)) || HitIn(s, files[1..])
    ensures None in files <==> files[0].None? || None in files[1..]
  {
    hide AnyHit;
    assert files == [files[0]] + files[1..];
    if i :| 0 <= i < |files[1..]| && files[1..][i].Some? && AnyHit(s, files[1..][i].value) {
      assert files[i + 1] == files[1..][i];
    }
    if i :| 0 <= i < |files| && files[i].Some? && AnyHit(s, files[i].value) {
      assert i > 0 ==> files[1..][i - 1] == files[i];
    }
  }

  lemma {:induction false} SearchesFiles(s: Search, files: seq<Option<File>>, out: string, matched: bool)
    ensures FilesSearched(s, None in files, Total(s, files), HitIn(s, files), out, matched,
                          SearchFiles(s, files, out, matched))
    decreases |files|
  {
    hide SearchFile, AnyHit, Added, HitIn, OverLimit;
    QuietTotal(s, files);
    assert out + "" == out;
    if files == [] {
      NoneThere(s);
    } else if s.query.quiet && matched {
    } else {
      HitFirst(s, files);
      if files[0].Some? {
        var one := SearchFile(s, files[0].value, out, matched);
        if one.Searched? {
          SearchesFiles(s, files[1..], one.out, one.matched);
        }
        QuietTotal(s, files[1..]);
        FileFirst(s, files[0].value, out, matched, None in files[1..], Total(s, files[1..]), HitIn(s, files[1..]),
                  SearchFiles(s, files, out, matched));
      }
    }
  }

  lemma NoneThere(s: Search)
    ensures !HitIn(s, [])
  {
  }

  // ---- The chosen files

  lemma SameText(s: Search, f: File, g: File)
    requires f.name == g.name && f.content == g.content
    ensures Added(s, f) == Added(s, g) && (AnyHit(s, f) <==> AnyHit(s, g))
  {
  }

  /** What the first file of an order contributes. */
  lemma BelowStep(data: Bytes, c: C.SearchCorpus, req: Request, s: Search, root: string, order: seq<nat>)
    requires C.SearchLaidOut(data, c) && order != []
    ensures var files, rest := FilesBelow(data, c, req, root, order), FilesBelow(data, c, req, root, order[1..]);
            var index := order[0];
            && Total(s, files) == OutputOf(data, c, req, s, root, index) + Total(s, rest)
            && (HitIn(s, files) <==> HitOf(data, c, req, s, root, index) || HitIn(s, rest))
            && (None in files <==> (index < c.files && !Readable(data, c, index)) || None in rest)
  {
    hide C.SearchLaidOut, AnyHit, Added, C.FileAt, Names, Below, HitIn;
    var files, rest, index := FilesBelow(data, c, req, root, order), FilesBelow(data, c, req, root, order[1..]),
                              order[0];
    assert "" + Total(s, rest) == Total(s, rest);
    if Readable(data, c, index) {
      BelowIsNames(root, PathAt(data, c, index));
      ReadableInside(data, c, index);
      if Taken(data, c, req, root, index) {
        var file := FileOf(data, c, C.FileAt(data, c, index).value, Printed(req, root, PathAt(data, c, index)));
        assert "" + PathAt(data, c, index) == PathAt(data, c, index);
        SameText(s, file, Item(data, c, req, root, index));
        assert files == [Some(file)] + rest && files[1..] == rest;
        HitFirst(s, files);
      }
    } else if index < c.files {
      assert files == [None] + rest && files[1..] == rest;
      HitFirst(s, files);
    }
  }

  lemma ReadableInside(data: Bytes, c: C.SearchCorpus, index: nat)
    requires C.SearchLaidOut(data, c) && Readable(data, c, index)
    ensures index < c.files
  {
  }

  lemma {:induction false} BelowAdds(data: Bytes, c: C.SearchCorpus, req: Request, s: Search, root: string,
                                     order: seq<nat>)
    requires C.SearchLaidOut(data, c)
    ensures var files := FilesBelow(data, c, req, root, order);
            && Total(s, files) == Concat(Outputs(data, c, req, s, root, order))
            && (HitIn(s, files) <==> HitBelow(data, c, req, s, root, order))
            && (None in files <==> Broken(data, c, order))
    decreases |order|
  {
    hide C.SearchLaidOut, OutputOf, HitOf, Readable, HitIn;
    if order == [] {
      NoneThere(s);
    } else {
      BelowStep(data, c, req, s, root, order);
      BelowAdds(data, c, req, s, root, order[1..]);
      var parts, rest := Outputs(data, c, req, s, root, order), Outputs(data, c, req, s, root, order[1..]);
      assert parts[0] == OutputOf(data, c, req, s, root, order[0]) && parts[1..] == rest;
      hide FilesBelow, Outputs;
      FirstOrLater(data, c, req, s, root, order);
    }
  }

  lemma FirstOrLater(data: Bytes, c: C.SearchCorpus, req: Request, s: Search, root: string, order: seq<nat>)
    requires C.SearchLaidOut(data, c) && order != []
    ensures HitBelow(data, c, req, s, root, order) <==>
            HitOf(data, c, req, s, root, order[0]) || HitBelow(data, c, req, s, root, order[1..])
    ensures Broken(data, c, order) <==>
            (order[0] < c.files && !Readable(data, c, order[0])) || Broken(data, c, order[1..])
  {
    hide C.SearchLaidOut, HitOf, Readable;
    var rest := order[1..];
    if i :| 0 <= i < |rest| && HitOf(data, c, req, s, root, rest[i]) {
      assert order[i + 1] == rest[i];
    }
    if i :| 0 <= i < |order| && HitOf(data, c, req, s, root, order[i]) {
      assert i > 0 ==> rest[i - 1] == order[i];
    }
    if i :| 0 <= i < |rest| && rest[i] < c.files && !Readable(data, c, rest[i]) {
      assert order[i + 1] == rest[i];
    }
    if i :| 0 <= i < |order| && order[i] < c.files && !Readable(data, c, order[i]) {
      assert i > 0 ==> rest[i - 1] == order[i];
    }
  }

  /** Below a path that names nothing no file is chosen. */
  lemma {:induction false} NothingBelow(data: Bytes, c: C.SearchCorpus, req: Request, root: string, order: seq<nat>,
                                        n: nat)
    requires C.SearchLaidOut(data, c) && Nowhere(data, c, order, root) && n <= |order|
    ensures FilesBelow(data, c, req, root, order[n..]) == []
    decreases |order| - n
  {
    hide C.SearchLaidOut, C.FileAt, Below, Names;
    if n < |order| {
      NothingBelow(data, c, req, root, order, n + 1);
      RestOfRest(order, n, 1);
      assert order[n..][0] == order[n];
      BelowIsNames(root, PathAt(data, c, order[n]));
    }
  }

  lemma {:induction false} TotalAppend(s: Search, a: seq<Option<File>>, b: seq<Option<File>>)
    ensures Total(s, a + b) == Total(s, a) + Total(s, b)
    ensures HitIn(s, a + b) <==> HitIn(s, a) || HitIn(s, b)
    ensures None in a + b <==> None in a || None in b
  {
    hide AddedBy, HitIn;
    if a == [] {
      assert a + b == b && "" + Total(s, b) == Total(s, b);
      NoneThere(s);
    } else {
      assert (a + b)[1..] == a[1..] + b && (a + b)[0] == a[0];
      TotalAppend(s, a[1..], b);
      Assoc(AddedBy(s, a[0]), Total(s, a[1..]), Total(s, b));
      HitFirst(s, a);
      HitFirst(s, a + b);
    }
  }

  lemma {:induction false} RootsAdd(data: Bytes, c: C.SearchCorpus, req: Request, s: Search, roots: seq<string>,
                                    order: seq<nat>)
    requires C.SearchLaidOut(data, c)
    ensures var files := FilesOf(data, c, req, roots, order);
            && Total(s, files) == Concat(RootOutputs(data, c, req, s, roots, order))
            && (HitIn(s, files) <==> HitAnywhere(data, c, req, s, roots, order))
            && (None in files <==> roots != [] && Broken(data, c, order))
    decreases |roots|
  {
    hide C.SearchLaidOut, KindOf, FilesBelow, Outputs, HitBelow, HitIn, Nowhere, Broken;
    if roots == [] {
      NoneThere(s);
    } else {
      hide Concat, RootOutputs, HitAnywhere;
      var below, rest := FilesBelow(data, c, req, roots[0], order), FilesOf(data, c, req, roots[1..], order);
      KindExact(data, c, order, roots[0]);
      assert order[0..] == order;
      if Nowhere(data, c, order, roots[0]) {
        NothingBelow(data, c, req, roots[0], order, 0);
        assert [] + rest == rest;
      }
      assert FilesOf(data, c, req, roots, order) == below + rest;
      TotalAppend(s, below, rest);
      BelowAdds(data, c, req, s, roots[0], order);
      RootsAdd(data, c, req, s, roots[1..], order);
      FirstRootOutput(data, c, req, s, roots, order);
      FirstOrLaterRoot(data, c, req, s, roots, order);
    }
  }

  lemma FirstRootOutput(data: Bytes, c: C.SearchCorpus, req: Request, s: Search, roots: seq<string>, order: seq<nat>)
    requires C.SearchLaidOut(data, c) && roots != []
    ensures Concat(RootOutputs(data, c, req, s, roots, order)) ==
            Concat(Outputs(data, c, req, s, roots[0], order)) +
            Concat(RootOutputs(data, c, req, s, roots[1..], order))
  {
    hide C.SearchLaidOut, Outputs;
    var parts := RootOutputs(data, c, req, s, roots, order);
    assert parts[0] == Concat(Outputs(data, c, req, s, roots[0], order));
    assert parts[1..] == RootOutputs(data, c, req, s, roots[1..], order);
  }

  lemma FirstOrLaterRoot(data: Bytes, c: C.SearchCorpus, req: Request, s: Search, roots: seq<string>, order: seq<nat>)
    requires C.SearchLaidOut(data, c) && roots != []
    ensures HitAnywhere(data, c, req, s, roots, order) <==>
            HitBelow(data, c, req, s, roots[0], order) || HitAnywhere(data, c, req, s, roots[1..], order)
  {
    hide C.SearchLaidOut, HitBelow;
    if i :| 0 <= i < |roots[1..]| && HitBelow(data, c, req, s, roots[1..][i], order) {
      assert roots[i + 1] == roots[1..][i];
    }
    if i :| 0 <= i < |roots| && HitBelow(data, c, req, s, roots[i], order) {
      assert i > 0 ==> roots[1..][i - 1] == roots[i];
    }
  }

  // ---- The whole answer

  /** Case is ignored on demand, or by smart case without an upper-case letter. */
  predicate CaseIgnored(req: Request) {
    req.ignoreCase || (req.smartCase && forall ch :: ch in req.pattern ==> !('A' <= ch <= 'Z'))
  }

  /** The search does what the request says: file names are shown on demand, and
      otherwise, unless that is unwanted, where there can be several files. */
  ghost predicate Asks(data: Bytes, c: C.SearchCorpus, req: Request, library: Library, order: seq<nat>, s: Search)
    requires C.SearchLaidOut(data, c)
  {
    && s.query.pattern == req.pattern && s.query.fixed == req.fixed && s.query.quiet == req.quiet
    && s.query.filesWithMatches == req.filesWithMatches && s.query.lineNumber == req.lineNumber
    && (s.query.showFilename <==>
        req.withFilename ||
        (!req.noFilename && (|req.paths| > 1 || exists p :: p in req.paths && IsDirectory(data, c, order, p))))
    && (s.ignoreCase <==> CaseIgnored(req))
    && (!req.fixed ==> library(s.ignoreCase) == Some(s.regexec))
  }

  /** A file is chosen where ignoring case takes more than ASCII, or a record
      cannot be read. */
  ghost predicate CaseUnsafe(data: Bytes, c: C.SearchCorpus, req: Request, order: seq<nat>)
    requires C.SearchLaidOut(data, c)
  {
    exists p, i :: p in req.paths && 0 <= i < |order| && CaseUnsafeAt(data, c, req, order, p, order[i])
  }

  predicate CaseUnsafeAt(data: Bytes, c: C.SearchCorpus, req: Request, order: seq<nat>, path: string, index: nat)
    requires C.SearchLaidOut(data, c)
  {
    && !Nowhere(data, c, order, path)
    && (!Readable(data, c, index) ||
        (C.FileAt(data, c, index).value.foldUnsafe && Picks(req, path, PathAt(data, c, index))))
  }

  ghost predicate SomeNowhere(data: Bytes, c: C.SearchCorpus, req: Request, order: seq<nat>)
    requires C.SearchLaidOut(data, c)
  {
    exists p :: p in req.paths && Nowhere(data, c, order, p)
  }

  ghost predicate SomeUnclear(data: Bytes, c: C.SearchCorpus, req: Request, order: seq<nat>)
    requires C.SearchLaidOut(data, c)
  {
    exists p :: p in req.paths && Unclear(data, c, order, p)
  }

  /** The output of the whole search. */
  ghost function WholeOutput(data: Bytes, c: C.SearchCorpus, req: Request, s: Search, order: seq<nat>): string
    requires C.SearchLaidOut(data, c)
  {
    Concat(RootOutputs(data, c, req, s, req.paths, order))
  }

  /** More than the output limit would be printed. */
  ghost predicate TooMuch(data: Bytes, c: C.SearchCorpus, req: Request, s: Search, order: seq<nat>)
    requires C.SearchLaidOut(data, c)
  {
    HitAnywhere(data, c, req, s, req.paths, order) && OverLimit(s.query, WholeOutput(data, c, req, s, order))
  }

  /** The output and the exit status of a search, and that nothing stood against
      answering it. */
  ghost predicate Answered(data: Bytes, c: C.SearchCorpus, req: Request, s: Search, order: seq<nat>, out: string,
                           code: int)
    requires C.SearchLaidOut(data, c)
  {
    && out == WholeOutput(data, c, req, s, order)
    && code == (if SomeNowhere(data, c, req, order) then 2
                else if HitAnywhere(data, c, req, s, req.paths, order) then 0 else 1)
    && !SomeUnclear(data, c, req, order) && (SomeNowhere(data, c, req, order) ==> req.allowMissing)
    && (CaseIgnored(req) ==> !CaseUnsafe(data, c, req, order))
    && !TooMuch(data, c, req, s, order) && (!req.quiet && req.paths != [] ==> !Broken(data, c, order))
  }

  /** The search that the request asks for gives this answer. */
  ghost predicate Says(data: Bytes, c: C.SearchCorpus, req: Request, library: Library, out: string, code: int)
    requires C.SearchLaidOut(data, c)
  {
    var order := Order(data, c, req.hidden);
    exists s :: Asks(data, c, req, library, order, s) && Answered(data, c, req, s, order, out, code)
  }

  /** What stands against answering. */
  ghost predicate Declined(data: Bytes, c: C.SearchCorpus, req: Request, library: Library, order: seq<nat>)
    requires C.SearchLaidOut(data, c)
  {
    || SomeUnclear(data, c, req, order) || (SomeNowhere(data, c, req, order) && !req.allowMissing)
    || (CaseIgnored(req) && CaseUnsafe(data, c, req, order))
    || (!req.fixed && library(CaseIgnored(req)).None?)
    || (req.paths != [] && Broken(data, c, order))
    || exists s :: Asks(data, c, req, library, order, s) && TooMuch(data, c, req, s, order)
  }

  lemma CaseIs(req: Request)
    ensures IgnoresCase(req) <==> CaseIgnored(req)
  {
    if HasUpper(req.pattern) {
      var i :| 0 <= i < |req.pattern| && IsUpper(req.pattern[i]);
      assert req.pattern[i] in req.pattern;
    }
  }

  lemma KindsAre(data: Bytes, c: C.SearchCorpus, req: Request, order: seq<nat>)
    requires C.SearchLaidOut(data, c)
    ensures var kinds := Kinds(data, c, order, req.paths);
            && (AnyOf(kinds, Missing) <==> SomeNowhere(data, c, req, order))
            && (AnyOf(kinds, Bad) <==> SomeUnclear(data, c, req, order))
            && (AnyOf(kinds, Directory) <==> exists p :: p in req.paths && IsDirectory(data, c, order, p))
  {
    hide C.SearchLaidOut, KindOf, Nowhere, Unclear, IsDirectory;
    var kinds := Kinds(data, c, order, req.paths);
    forall r | 0 <= r < |req.paths|
      ensures kinds[r] == Missing <==> Nowhere(data, c, order, req.paths[r])
      ensures kinds[r] == Bad <==> Unclear(data, c, order, req.paths[r])
      ensures kinds[r] == Directory <==> IsDirectory(data, c, order, req.paths[r])
    {
      KindExact(data, c, order, req.paths[r]);
    }
  }

  lemma UnsafeIs(data: Bytes, c: C.SearchCorpus, req: Request, order: seq<nat>)
    requires C.SearchLaidOut(data, c)
    ensures Unsafe(data, c, req, req.paths, order) <==> CaseUnsafe(data, c, req, order)
  {
    hide C.SearchLaidOut, UnsafeAt, CaseUnsafeAt;
    forall r, i | 0 <= r < |req.paths| && 0 <= i < |order|
      ensures UnsafeAt(data, c, req, req.paths[r], order, order[i]) <==>
              CaseUnsafeAt(data, c, req, order, req.paths[r], order[i])
    {
      UnsafeAtIs(data, c, req, order, req.paths[r], order[i]);
    }
    if p, i :| p in req.paths && 0 <= i < |order| && CaseUnsafeAt(data, c, req, order, p, order[i]) {
      var r :| 0 <= r < |req.paths| && req.paths[r] == p;
      assert UnsafeAt(data, c, req, req.paths[r], order, order[i]);
    }
    if r, i :| 0 <= r < |req.paths| && 0 <= i < |order| && UnsafeAt(data, c, req, req.paths[r], order, order[i]) {
      assert req.paths[r] in req.paths && CaseUnsafeAt(data, c, req, order, req.paths[r], order[i]);
    }
  }

  lemma UnsafeAtIs(data: Bytes, c: C.SearchCorpus, req: Request, order: seq<nat>, path: string, index: nat)
    requires C.SearchLaidOut(data, c)
    ensures UnsafeAt(data, c, req, path, order, index) <==> CaseUnsafeAt(data, c, req, order, path, index)
  {
    hide C.SearchLaidOut, KindOf, Nowhere, Below, Names, C.FileAt;
    KindExact(data, c, order, path);
    if Readable(data, c, index) {
      BelowIsNames(path, PathAt(data, c, index));
    }
  }

  lemma SearchAsks(data: Bytes, c: C.SearchCorpus, req: Request, library: Library, order: seq<nat>)
    requires C.SearchLaidOut(data, c)
    ensures var s := SearchOf(req, library, AnyOf(Kinds(data, c, order, req.paths), Directory));
            && (s.None? <==> !req.fixed && library(CaseIgnored(req)).None?)
            && (s.Some? ==> Asks(data, c, req, library, order, s.value))
  {
    hide C.SearchLaidOut, Kinds, AnyOf, IsDirectory, IgnoresCase, CaseIgnored;
    CaseIs(req);
    KindsAre(data, c, req, order);
  }

  /** The answer of the plain search is the one described. */
  lemma PlainAnswerIs(data: Bytes, c: C.SearchCorpus, req: Request, library: Library)
    requires C.SearchLaidOut(data, c)
    ensures var order, r := Order(data, c, req.hidden), PlainAnswer(data, c, req, library);
            && (r.Some? ==> Says(data, c, req, library, r.value.0, r.value.1))
            && (r.None? ==> Declined(data, c, req, library, order))
  {
    hide C.SearchLaidOut, Order, Kinds, AnyOf, Unsafe, CaseUnsafe, SomeNowhere, SomeUnclear, SearchFiles, FilesOf, Asks;
    hide CaseIgnored, IgnoresCase, SearchOf, RootOutputs, HitAnywhere, Broken, HitIn, Total;
    var order := Order(data, c, req.hidden);
    CaseIs(req);
    KindsAre(data, c, req, order);
    UnsafeIs(data, c, req, order);
    SearchAsks(data, c, req, library, order);
    var s := SearchOf(req, library, AnyOf(Kinds(data, c, order, req.paths), Directory));
    hide Answered, TooMuch;
    if s.Some? {
      SearchAnswers(data, c, req, library, order, s.value);
    }
  }

  /** What the search of the chosen files comes to, where nothing stands against
      it. */
  lemma SearchAnswers(data: Bytes, c: C.SearchCorpus, req: Request, library: Library, order: seq<nat>, s: Search)
    requires C.SearchLaidOut(data, c) && Asks(data, c, req, library, order, s)
    ensures var r := SearchFiles(s, FilesOf(data, c, req, req.paths, order), "", false);
            && (r.Failed? ==> (req.paths != [] && Broken(data, c, order)) || TooMuch(data, c, req, s, order))
            && (r.Searched? && !SomeUnclear(data, c, req, order) &&
                (SomeNowhere(data, c, req, order) ==> req.allowMissing) &&
                (CaseIgnored(req) ==> !CaseUnsafe(data, c, req, order)) ==>
                  Answered(data, c, req, s, order, r.out,
                           if SomeNowhere(data, c, req, order) then 2 else if r.matched then 0 else 1))
  {
    hide C.SearchLaidOut, CaseUnsafe, SomeNowhere, SomeUnclear, SearchFiles, FilesOf, Asks, CaseIgnored, RootOutputs;
    hide HitAnywhere, Broken, HitIn, Total, Concat;
    var files := FilesOf(data, c, req, req.paths, order);
    SearchesFiles(s, files, "", false);
    RootsAdd(data, c, req, s, req.paths, order);
    assert "" + Total(s, files) == Total(s, files);
    AsksQuiet(data, c, req, library, order, s);
  }

  lemma AsksQuiet(data: Bytes, c: C.SearchCorpus, req: Request, library: Library, order: seq<nat>, s: Search)
    requires C.SearchLaidOut(data, c) && Asks(data, c, req, library, order, s)
    ensures s.query.quiet == req.quiet
  {
  }

  /** An answer is what the search asked for says; there is none only where the
      bytes are refused or something stands against answering. */
  ghost predicate Replies(data: Bytes, req: Request, library: Library, r: Option<(string, int)>) {
    match C.DecodeSearch(data)
    case None => r.None?
    case Some(c) =>
      if r.Some? then Says(data, c, req, library, r.value.0, r.value.1)
      else Declined(data, c, req, library, Order(data, c, req.hidden))
  }

  lemma RepliesPlainly(data: Bytes, req: Request, library: Library)
    ensures var c := C.DecodeSearch(data);
            Replies(data, req, library, if c.None? then None else PlainAnswer(data, c.value, req, library))
  {
    hide PlainAnswer, Says, Declined;
    if C.DecodeSearch(data).Some? {
      PlainAnswerIs(data, C.DecodeSearch(data).value, req, library);
    }
  }

  /** What the search below one root comes to. */
  ghost predicate RootSearched(data: Bytes, c: C.SearchCorpus, req: Request, s: Search, root: string, order: seq<nat>,
                               out: string, matched: bool, r: Outcome)
    requires C.SearchLaidOut(data, c)
  {
    FilesSearched(s, Broken(data, c, order), Concat(Outputs(data, c, req, s, root, order)),
                  HitBelow(data, c, req, s, root, order), out, matched, r)
  }

  lemma SearchesRoot(data: Bytes, c: C.SearchCorpus, req: Request, s: Search, root: string, order: seq<nat>,
                     out: string, matched: bool)
    requires C.SearchLaidOut(data, c)
    ensures RootSearched(data, c, req, s, root, order, out, matched,
                         SearchFiles(s, FilesBelow(data, c, req, root, order), out, matched))
  {
    SearchesFiles(s, FilesBelow(data, c, req, root, order), out, matched);
    BelowAdds(data, c, req, s, root, order);
  }

  // ---- The evaluator

  method PathKind(data: Bytes, c: C.SearchCorpus, order: seq<nat>, path: string) returns (kind: Kind)
    requires C.SearchLaidOut(data, c)
    ensures kind == KindOf(data, c, order, path)
  {
    if path == "." {
      return Directory;
    }
    assert order[0..] == order;
    for i := 0 to |order|
      invariant KindOf(data, c, order[i..], path) == KindOf(data, c, order, path)
    {
      assert order[i..][1..] == order[i + 1..];
      var f := C.FileAt(data, c, order[i]);
      if f.None? {
        return Bad;
      }
      if PathOf(data, f.value) == path {
        return Regular;
      }
      if Below(path, PathOf(data, f.value)) {
        return Directory;
      }
    }
    kind := Missing;
  }

  method AllKinds(data: Bytes, c: C.SearchCorpus, order: seq<nat>, paths: seq<string>) returns (kinds: seq<Kind>)
    requires C.SearchLaidOut(data, c)
    ensures kinds == Kinds(data, c, order, paths)
  {
    kinds := [];
    for i := 0 to |paths|
      invariant |kinds| == i && forall j :: 0 <= j < i ==> kinds[j] == KindOf(data, c, order, paths[j])
    {
      var kind := PathKind(data, c, order, paths[i]);
      kinds := kinds + [kind];
    }
  }

  method FindKind(kinds: seq<Kind>, kind: Kind) returns (found: bool)
    ensures found <==> AnyOf(kinds, kind)
  {
    for i := 0 to |kinds|
      invariant forall j :: 0 <= j < i ==> kinds[j] != kind
    {
      if kinds[i] == kind {
        return true;
      }
    }
    found := false;
  }

  method FindUnsafe(data: Bytes, c: C.SearchCorpus, req: Request, order: seq<nat>, kinds: seq<Kind>)
    returns (found: bool)
    requires C.SearchLaidOut(data, c) && kinds == Kinds(data, c, order, req.paths)
    ensures found <==> Unsafe(data, c, req, req.paths, order)
  {
    hide KindOf, Chosen, PathOf, UnsafeAt;
    for i := 0 to |req.paths|
      invariant forall k, j :: 0 <= k < i && 0 <= j < |order| ==>
                  !UnsafeAt(data, c, req, req.paths[k], order, order[j])
    {
      var here := FindUnsafeBelow(data, c, req, req.paths[i], order, kinds[i]);
      if here {
        return true;
      }
    }
    found := false;
  }

  method FindUnsafeBelow(data: Bytes, c: C.SearchCorpus, req: Request, root: string, order: seq<nat>, kind: Kind)
    returns (found: bool)
    requires C.SearchLaidOut(data, c) && kind == KindOf(data, c, order, root)
    ensures found <==> exists j :: 0 <= j < |order| && UnsafeAt(data, c, req, root, order, order[j])
  {
    hide KindOf, Chosen, PathOf, C.SearchLaidOut;
    if kind == Missing {
      return false;
    }
    for j := 0 to |order|
      invariant forall n :: 0 <= n < j ==> !UnsafeAt(data, c, req, root, order, order[n])
    {
      var f := C.FileAt(data, c, order[j]);
      if f.None? || (f.value.foldUnsafe && Chosen(req, root, PathOf(data, f.value))) {
        return true;
      }
    }
    found := false;
  }

  lemma {:induction false} SearchJoins(s: Search, a: seq<Option<File>>, b: seq<Option<File>>, out: string,
                                       matched: bool)
    ensures var r := SearchFiles(s, a, out, matched);
            SearchFiles(s, a + b, out, matched) == if r.Failed? then r else SearchFiles(s, b, r.out, r.matched)
    decreases |a|
  {
    hide SearchFile;
    if a == [] {
      assert a + b == b;
    } else if !(s.query.quiet && matched) && a[0].Some? {
      assert (a + b)[1..] == a[1..] + b;
      var r := SearchFile(s, a[0].value, out, matched);
      if r.Searched? {
        SearchJoins(s, a[1..], b, r.out, r.matched);
      }
    }
  }

  /** The files of one root in turn. */
  method RunRoot(s: Search, data: Bytes, c: C.SearchCorpus, req: Request, root: string, order: seq<nat>,
                 seeds: seq<Seed>, out: string, matched: bool, ghost re: Regex)
    returns (r: Outcome)
    requires C.SearchLaidOut(data, c) && WellWritten(data, c) && Understood(s, re)
    requires seeds == MakeSeeds(Literals(s.query), s.ignoreCase)
    ensures r == SearchFiles(s, FilesBelow(data, c, req, root, order), out, matched)
  {
    hide SearchFile, Understood, RecordsFrom, MakeSeeds, Literals, C.FileAt, C.SearchLaidOut, Chosen, PathOf, Printed;
    hide WellWritten;
    var i, res, any := 0, out, matched;
    assert order[0..] == order;
    while i < |order| && !(s.query.quiet && any)
      invariant 0 <= i <= |order|
      invariant SearchFiles(s, FilesBelow(data, c, req, root, order[i..]), res, any) ==
                SearchFiles(s, FilesBelow(data, c, req, root, order), out, matched)
    {
      assert order[i..][1..] == order[i + 1..];
      var index := order[i];
      i := i + 1;
      if index >= c.files {
        continue;
      }
      var f := C.FileAt(data, c, index);
      if f.None? {
        return Failed;
      }
      var path := PathOf(data, f.value);
      if Chosen(req, root, path) {
        var file := FileOf(data, c, f.value, Printed(req, root, path));
        WellWrittenFile(data, c, index, Printed(req, root, path));
        var one := EvalFile(s, file, seeds, res, any, re);
        if one.Failed? {
          return Failed;
        }
        res, any := one.out, one.matched;
      }
    }
    r := Searched(res, any);
  }

  /** Search the chosen files below one root, through the index if there are
      seeds. */
  method EvaluateRoot(s: Search, data: Bytes, c: C.SearchCorpus, req: Request, root: string, order: seq<nat>,
                      seeds: seq<Seed>, out: string, matched: bool, ghost re: Regex)
    returns (r: Outcome)
    requires C.SearchLaidOut(data, c) && WellWritten(data, c) && Understood(s, re)
    requires seeds == MakeSeeds(Literals(s.query), s.ignoreCase)
    ensures r == SearchFiles(s, FilesBelow(data, c, req, root, order), out, matched)
    ensures RootSearched(data, c, req, s, root, order, out, matched, r)
  {
    SearchesRoot(data, c, req, s, root, order, out, matched);
    hide RootSearched, C.SearchLaidOut, WellWritten, Understood, MakeSeeds, Literals, FilesBelow, SearchFiles;
    r := RunRoot(s, data, c, req, root, order, seeds, out, matched, re);
  }

  lemma WellWrittenFile(data: Bytes, c: C.SearchCorpus, index: nat, name: string)
    requires C.SearchLaidOut(data, c) && WellWritten(data, c) && C.FileAt(data, c, index).Some?
    ensures var file := FileOf(data, c, C.FileAt(data, c, index).value, name);
            file.records == RecordsFrom(file.content, 0)
  {
    var file := FileOf(data, c, C.FileAt(data, c, index).value, "");
    assert file.records == RecordsFrom(file.content, 0);
  }

  /** The regex library decides the pattern as its matching semantics does, and
      the pattern is one the index understands. */
  ghost predicate LibraryAgrees(req: Request, library: Library, re: Regex) {
    forall anyDirectory :: var s := SearchOf(req, library, anyDirectory); s.Some? ==> Understood(s.value, re)
  }

  /** Evaluate a search on the bytes of a corpus: index or not, the answer is
      that of searching every line of every chosen file. */
  method Evaluate(data: Bytes, req: Request, library: Library, ghost re: Regex) returns (r: Option<(string, int)>)
    requires C.DecodeSearch(data).Some? ==> WellWritten(data, C.DecodeSearch(data).value)
    requires LibraryAgrees(req, library, re)
    ensures r == var c := C.DecodeSearch(data); if c.None? then None else PlainAnswer(data, c.value, req, library)
    ensures Replies(data, req, library, r)
  {
    RepliesPlainly(data, req, library);
    hide Understood, WellWritten, Unsafe, SearchFiles, FilesOf, AnyOf, Replies, C.DecodeSearch, SearchOf, Kinds;
    hide Order, IgnoresCase;
    var corpus := C.DecodeSearch(data);
    if corpus.None? {
      return None;
    }
    var c := corpus.value;
    var order := Order(data, c, req.hidden);
    var kinds := AllKinds(data, c, order, req.paths);
    var bad := FindKind(kinds, Bad);
    var missing := FindKind(kinds, Missing);
    var directory := FindKind(kinds, Directory);
    if bad || (missing && !req.allowMissing) {
      return None;
    }
    if IgnoresCase(req) {
      var unsafe := FindUnsafe(data, c, req, order, kinds);
      if unsafe {
        return None;
      }
    }
    var search := SearchOf(req, library, directory);
    if search.None? {
      return None;
    }
    var found := EvaluateRoots(search.value, data, c, req, order, kinds, re);
    if found.Failed? {
      return None;
    }
    r := Some((found.out, if missing then 2 else if found.matched then 0 else 1));
  }

  method EvaluateRoots(s: Search, data: Bytes, c: C.SearchCorpus, req: Request, order: seq<nat>, kinds: seq<Kind>,
                       ghost re: Regex)
    returns (r: Outcome)
    requires C.SearchLaidOut(data, c) && WellWritten(data, c) && Understood(s, re)
    requires kinds == Kinds(data, c, order, req.paths)
    ensures r == SearchFiles(s, FilesOf(data, c, req, req.paths, order), "", false)
  {
    hide SearchFile, Understood, WellWritten, MakeSeeds, Literals, FilesBelow, KindOf;
    var seeds := SeedMasks(s.query, s.ignoreCase);
    var i, out, matched := 0, "", false;
    assert req.paths[0..] == req.paths;
    while i < |req.paths| && !(s.query.quiet && matched)
      invariant 0 <= i <= |req.paths|
      invariant SearchFiles(s, FilesOf(data, c, req, req.paths[i..], order), out, matched) ==
                SearchFiles(s, FilesOf(data, c, req, req.paths, order), "", false)
    {
      var root := req.paths[i];
      assert req.paths[i..][1..] == req.paths[i + 1..];
      if kinds[i] != Missing {
        SearchJoins(s, FilesBelow(data, c, req, root, order), FilesOf(data, c, req, req.paths[i + 1..], order), out,
                    matched);
        var below := EvaluateRoot(s, data, c, req, root, order, seeds, out, matched, re);
        if below.Failed? {
          return Failed;
        }
        out, matched := below.out, below.matched;
      }
      i := i + 1;
    }
    r := Searched(out, matched);
  }
}
