/** Answering `git log --oneline -n N -- paths` from a corpus of the newest
    commits. */
module GitHistory {
  import opened Wrappers
  import Lines

  const MAX_FAST_OUTPUT_BYTES := 1024 * 1024

  /** A commit and the paths it changed, newest first in a history; what the
      corpus holds malformed is None. */
  datatype Commit = Commit(oneline: string, paths: seq<Option<string>>, parents: nat)

  datatype Query = Query(limit: nat, paths: seq<string>)

  datatype Corpus = Corpus(commits: seq<Option<Commit>>, complete: bool)

  // ---- Paths

  /** A selected path names the file itself or a directory above it. */
  predicate Selects(selected: string, path: string) {
    selected == "." || selected == path ||
    (|selected| < |path| && path[..|selected|] == selected && path[|selected|] == '/')
  }

  predicate Selected(query: Query, path: string) {
    exists i :: 0 <= i < |query.paths| && Selects(query.paths[i], path)
  }

  /** Some path of the commit is selected. */
  predicate Touches(query: Query, c: Commit) {
    exists i :: 0 <= i < |c.paths| && c.paths[i].Some? && Selected(query, c.paths[i].value)
  }

  /** A selected path is `.`, the path itself, or a directory above it. */
  lemma SelectsIs(selected: string, path: string)
    ensures Selects(selected, path) <==> selected == "." || selected == path || selected + "/" <= path
  {
    if |selected| < |path| {
      assert path[..|selected| + 1] == path[..|selected|] + [path[|selected|]];
    }
  }

  // ---- What git would print

  /** The commits of a history that touch the paths. */
  function Touching(query: Query, history: seq<Commit>): seq<Commit> {
    if history == [] then []
    else (if Touches(query, history[0]) then [history[0]] else []) + Touching(query, history[1..])
  }

  function Listing(commits: seq<Commit>): string {
    if commits == [] then "" else commits[0].oneline + "\n" + Listing(commits[1..])
  }

  function FirstOf(commits: seq<Commit>, n: nat): seq<Commit> {
    if |commits| <= n then commits else commits[..n]
  }

  /** The log of a history: the first commits that touch the paths. */
  function Log(query: Query, history: seq<Commit>): string {
    Listing(FirstOf(Touching(query, history), query.limit))
  }

  /** Some path of the commit is selected by its name or by a directory. */
  ghost predicate IsTouched(query: Query, c: Commit) {
    exists selected, path ::
      selected in query.paths && Some(path) in c.paths &&
      (selected == "." || selected == path || selected + "/" <= path)
  }

  /** How many of the first `i` commits touch the paths. */
  ghost function Earlier(query: Query, history: seq<Commit>, i: nat): nat
    requires i <= |history|
  {
    multiset(seq(i, j requires 0 <= j < i => IsTouched(query, history[j])))[true]
  }

  /** The line of each commit, if it touches the paths and fewer than `n` before
      it do. */
  ghost function LogLines(query: Query, history: seq<Commit>, n: int): (lines: seq<string>)
    ensures |lines| == |history|
    ensures forall i :: 0 <= i < |history| ==>
              lines[i] == if IsTouched(query, history[i]) && Earlier(query, history, i) < n
                          then history[i].oneline + "\n" else ""
  {
    seq(|history|, i requires 0 <= i < |history| =>
                     if IsTouched(query, history[i]) && Earlier(query, history, i) < n
                     then history[i].oneline + "\n" else "")
  }

  lemma TouchedIs(query: Query, c: Commit)
    ensures Touches(query, c) <==> IsTouched(query, c)
  {
    if Touches(query, c) {
      var i :| 0 <= i < |c.paths| && c.paths[i].Some? && Selected(query, c.paths[i].value);
      var j :| 0 <= j < |query.paths| && Selects(query.paths[j], c.paths[i].value);
      SelectsIs(query.paths[j], c.paths[i].value);
      assert query.paths[j] in query.paths && Some(c.paths[i].value) in c.paths;
    }
    if selected, path :| selected in query.paths && Some(path) in c.paths &&
                         (selected == "." || selected == path || selected + "/" <= path) {
      SelectsIs(selected, path);
      var j :| 0 <= j < |query.paths| && query.paths[j] == selected;
      var i :| 0 <= i < |c.paths| && c.paths[i] == Some(path);
      assert Selected(query, c.paths[i].value);
    }
  }

  lemma EarlierFirst(query: Query, history: seq<Commit>, i: nat)
    requires 1 <= i <= |history|
    ensures Earlier(query, history, i) ==
            (if IsTouched(query, history[0]) then 1 else 0) + Earlier(query, history[1..], i - 1)
  {
    hide IsTouched;
    var all := seq(i, j requires 0 <= j < i => IsTouched(query, history[j]));
    var rest := seq(i - 1, j requires 0 <= j < i - 1 => IsTouched(query, history[1..][j]));
    assert all == [IsTouched(query, history[0])] + rest;
  }

  lemma LaterLines(query: Query, history: seq<Commit>, n: int)
    requires history != []
    ensures LogLines(query, history, n)[1..] ==
            LogLines(query, history[1..], if IsTouched(query, history[0]) then n - 1 else n)
    ensures LogLines(query, history, n)[0] ==
            if IsTouched(query, history[0]) && n > 0 then history[0].oneline + "\n" else ""
  {
    hide IsTouched;
    forall i | 1 <= i < |history|
      ensures Earlier(query, history, i) ==
              (if IsTouched(query, history[0]) then 1 else 0) + Earlier(query, history[1..], i - 1)
    {
      EarlierFirst(query, history, i);
    }
  }

  lemma {:induction false} ListingIs(query: Query, history: seq<Commit>, n: nat)
    ensures Listing(FirstOf(Touching(query, history), n)) == Lines.Concat(LogLines(query, history, n))
  {
    hide Touches, IsTouched, LogLines;
    if history != [] {
      var rest, hit := history[1..], IsTouched(query, history[0]);
      TouchedIs(query, history[0]);
      LaterLines(query, history, n);
      var t := Touching(query, rest);
      if !hit {
        ListingIs(query, rest, n);
        assert [] + t == t;
      } else if n == 0 {
        NoLines(query, rest, -1);
        assert FirstOf([history[0]] + t, 0) == [];
      } else {
        ListingIs(query, rest, n - 1);
        assert FirstOf([history[0]] + t, n) == [history[0]] + FirstOf(t, n - 1);
      }
    }
  }

  lemma {:induction false} NoLines(query: Query, history: seq<Commit>, n: int)
    requires n <= 0
    ensures Lines.Concat(LogLines(query, history, n)) == ""
  {
    hide IsTouched;
    if history != [] {
      LaterLines(query, history, n);
      NoLines(query, history[1..], if IsTouched(query, history[0]) then n - 1 else n);
    }
  }

  /** The log is the line of each commit that touches the paths, in order, as long
      as fewer than the limit came before. */
  lemma LogIs(query: Query, history: seq<Commit>)
    ensures Log(query, history) == Lines.Concat(LogLines(query, history, query.limit))
  {
    ListingIs(query, history, query.limit);
  }

  lemma {:induction false} TouchingConcat(query: Query, a: seq<Commit>, b: seq<Commit>)
    ensures Touching(query, a + b) == Touching(query, a) + Touching(query, b)
    decreases |a|
  {
    if a == [] {
      assert a + b == b;
    } else {
      assert (a + b)[1..] == a[1..] + b;
      TouchingConcat(query, a[1..], b);
    }
  }

  lemma {:induction false} ListingConcat(a: seq<Commit>, b: seq<Commit>)
    ensures Listing(a + b) == Listing(a) + Listing(b)
    decreases |a|
  {
    if a == [] {
      assert a + b == b;
    } else {
      assert (a + b)[1..] == a[1..] + b;
      ListingConcat(a[1..], b);
    }
  }

  // ---- Evaluation

  /** Is the commit selected? None if a path read on the way is malformed. */
  method FindSelected(query: Query, c: Commit) returns (selected: Option<bool>)
    ensures selected.Some? ==> selected.value == Touches(query, c)
    ensures selected.None? ==> !AllRead(c.paths)
  {
    for i := 0 to |c.paths|
      invariant forall j :: 0 <= j < i ==> c.paths[j].Some? && !Selected(query, c.paths[j].value)
    {
      if c.paths[i].None? {
        return None;
      }
      var hit := PathSelected(query, c.paths[i].value);
      if hit {
        return Some(true);
      }
    }
    selected := Some(false);
  }

  method PathSelected(query: Query, path: string) returns (selected: bool)
    ensures selected <==> Selected(query, path)
  {
    for i := 0 to |query.paths|
      invariant forall j :: 0 <= j < i ==> !Selects(query.paths[j], path)
    {
      if Selects(query.paths[i], path) {
        return true;
      }
    }
    selected := false;
  }

  /** The well-formed commits the corpus starts with. */
  function Known(commits: seq<Option<Commit>>): (known: seq<Commit>)
    ensures |known| <= |commits|
    ensures forall i :: 0 <= i < |known| ==> commits[i] == Some(known[i])
  {
    if commits == [] || commits[0].None? then [] else [commits[0].value] + Known(commits[1..])
  }

  /** What an answer rests on: the first `scanned` commits, none of them a
      merge, hold enough commits, or the corpus is all there is. */
  ghost predicate Answers(query: Query, corpus: Corpus, scanned: nat, out: string) {
    && scanned <= |Known(corpus.commits)|
    && (forall i :: 0 <= i < scanned ==> Known(corpus.commits)[i].parents <= 1)
    && out == Listing(Touching(query, Known(corpus.commits)[..scanned]))
    && |Touching(query, Known(corpus.commits)[..scanned])| <= query.limit
    && (|Touching(query, Known(corpus.commits)[..scanned])| == query.limit ||
        (corpus.complete && scanned == |corpus.commits|))
  }

  /** Nothing malformed and no merge: the history is one line. */
  predicate Linear(corpus: Corpus) {
    forall i :: 0 <= i < |corpus.commits| ==>
                  && corpus.commits[i].Some? && corpus.commits[i].value.parents <= 1
                  && AllRead(corpus.commits[i].value.paths)
  }

  predicate AllRead(paths: seq<Option<string>>) {
    forall i :: 0 <= i < |paths| ==> paths[i].Some?
  }

  method Evaluate(query: Query, corpus: Corpus) returns (out: Option<string>, ghost scanned: nat)
    ensures out.Some? ==> Answers(query, corpus, scanned, out.value)
    ensures out.None? && Linear(corpus) ==>
              || (!corpus.complete && |Touching(query, Known(corpus.commits))| < query.limit)
              || |Log(query, Known(corpus.commits))| > MAX_FAST_OUTPUT_BYTES
  {
    hide Touches, Touching, Listing, Known, Log;
    var text, count, i := "", 0, 0;
    ghost var known := Known(corpus.commits);
    NothingScanned(query, known);
    scanned := 0;
    while i < |corpus.commits| && count < query.limit
      invariant i <= |known| && forall k :: 0 <= k < i ==> known[k].parents <= 1
      invariant text == Listing(Touching(query, known[..i])) && count == |Touching(query, known[..i])|
      invariant count <= query.limit
    {
      var c := corpus.commits[i];
      if c.None? || c.value.parents > 1 {
        return None, scanned;
      }
      var selected := FindSelected(query, c.value);
      if selected.None? {
        assert !AllRead(c.value.paths);
        return None, scanned;
      }
      KnownNext(corpus.commits, i);
      OneMore(query, known, i);
      if selected.value {
        text := text + c.value.oneline + "\n";
        if |text| > MAX_FAST_OUTPUT_BYTES {
          LogGrows(query, known, i + 1);
          return None, scanned;
        }
        count := count + 1;
      }
      i := i + 1;
    }
    scanned := i;
    if count < query.limit && !corpus.complete {
      assert known[..i] == known;
      return None, scanned;
    }
    out := Some(text);
  }

  lemma NothingScanned(query: Query, known: seq<Commit>)
    ensures Touching(query, known[..0]) == [] && Listing([]) == ""
  {
  }

  /** A log is at least as long as what its first commits print. */
  lemma LogGrows(query: Query, known: seq<Commit>, i: nat)
    requires i <= |known| && |Touching(query, known[..i])| <= query.limit
    ensures |Log(query, known)| >= |Listing(Touching(query, known[..i]))|
  {
    assert known == known[..i] + known[i..];
    TouchingConcat(query, known[..i], known[i..]);
    var t, first := Touching(query, known[..i]), FirstOf(Touching(query, known), query.limit);
    assert first == t + first[|t|..];
    ListingConcat(t, first[|t|..]);
  }

  lemma {:induction false} KnownNext(commits: seq<Option<Commit>>, i: nat)
    requires i < |commits| && i <= |Known(commits)| && commits[i].Some?
    ensures i < |Known(commits)| && Known(commits)[i] == commits[i].value
    decreases i
  {
    if i > 0 {
      KnownNext(commits[1..], i - 1);
    }
  }

  lemma OneMore(query: Query, known: seq<Commit>, i: nat)
    requires i < |known|
    ensures var t, more := Touching(query, known[..i]), Touches(query, known[i]);
            && Touching(query, known[..i + 1]) == (if more then t + [known[i]] else t)
            && Listing(Touching(query, known[..i + 1])) ==
               (if more then Listing(t) + known[i].oneline + "\n" else Listing(t))
  {
    hide Touches;
    assert known[..i + 1] == known[..i] + [known[i]];
    TouchingConcat(query, known[..i], [known[i]]);
    var t := Touching(query, known[..i]);
    ListingConcat(t, [known[i]]);
    assert Touching(query, [known[i]]) == if Touches(query, known[i]) then [known[i]] else [];
    assert Listing([known[i]]) == known[i].oneline + "\n";
    assert t + [] == t;
  }

  // ---- Prefix stability

  /** The corpus holds the newest commits of the history, all of them if it says
      so. */
  ghost predicate NewestOf(corpus: Corpus, history: seq<Commit>) {
    && |corpus.commits| <= |history|
    && (forall i :: 0 <= i < |corpus.commits| && corpus.commits[i].Some? ==> corpus.commits[i].value == history[i])
    && (corpus.complete ==> |corpus.commits| == |history|)
  }

  /** An answer from the newest commits is the log of the whole history, however
      far it goes on, and no merge lies in what was scanned. */
  lemma AnswerIsLog(query: Query, corpus: Corpus, scanned: nat, out: string, history: seq<Commit>)
    requires Answers(query, corpus, scanned, out) && NewestOf(corpus, history)
    ensures out == Log(query, history)
    ensures scanned <= |history| && forall i :: 0 <= i < scanned ==> history[i].parents <= 1
  {
    var known := Known(corpus.commits);
    assert known[..scanned] == history[..scanned];
    assert history == history[..scanned] + history[scanned..];
    TouchingConcat(query, history[..scanned], history[scanned..]);
    var t := Touching(query, history[..scanned]);
    if |t| == query.limit {
      assert FirstOf(Touching(query, history), query.limit) == t;
    } else {
      assert history[scanned..] == [];
      assert t + [] == t;
    }
  }
}
