/** Answering a path-limited log from the bytes of a history corpus. */
module CorpusHistory {
  import opened Wrappers
  import opened SnapshotTable
  import opened GitHistory
  import C = CorpusFormat

  function PathText(data: Bytes, c: C.HistoryCorpus, index: nat): Option<string>
    requires C.HistoryLaidOut(data, c)
  {
    var s := C.PathAt(data, c, index);
    if s.None? then None else Some(C.Text(C.At(data, s.value)))
  }

  /** The commit the decoder reads, its paths one by one. */
  function CommitOf(data: Bytes, c: C.HistoryCorpus, index: nat): Option<Commit>
    requires C.HistoryLaidOut(data, c)
  {
    var commit := C.CommitAt(data, c, index);
    if commit.None? then None
    else
      var r := commit.value;
      Some(Commit(C.Text(C.At(data, r.oneline)),
                  seq(r.pathCount, i requires 0 <= i < r.pathCount => PathText(data, c, Truncated(r.pathStart + i))),
                  r.parents))
  }

  function CorpusOf(data: Bytes, c: C.HistoryCorpus): Corpus
    requires C.HistoryLaidOut(data, c)
  {
    Corpus(seq(c.commits, i requires 0 <= i < c.commits => CommitOf(data, c, i)), c.complete)
  }

  /** Evaluate on the bytes. An answer is the log of every history whose newest
      commits the bytes hold, however far it goes on, and no merge lies in what
      was scanned; bytes the decoder does not accept are not answered. */
  method EvaluateBytes(data: Bytes, query: Query) returns (out: Option<string>, ghost scanned: nat)
    ensures out.Some? ==> C.DecodeHistory(data).Some?
    ensures out.Some? ==>
              forall history: seq<Commit> :: NewestOf(CorpusOf(data, C.DecodeHistory(data).value), history) ==>
                && out.value == Log(query, history)
                && scanned <= |history| && forall i :: 0 <= i < scanned ==> history[i].parents <= 1
    ensures out.None? && C.DecodeHistory(data).Some? && Linear(CorpusOf(data, C.DecodeHistory(data).value)) ==>
              var corpus := CorpusOf(data, C.DecodeHistory(data).value);
              || (!corpus.complete && |Touching(query, Known(corpus.commits))| < query.limit)
              || |Log(query, Known(corpus.commits))| > MAX_FAST_OUTPUT_BYTES
  {
    hide Touching, Known, Log, Linear, Answers, NewestOf;
    var c := C.DecodeHistory(data);
    if c.None? {
      return None, 0;
    }
    var corpus := CorpusOf(data, c.value);
    out, scanned := Evaluate(query, corpus);
    if out.Some? {
      forall history: seq<Commit> | NewestOf(corpus, history)
        ensures out.value == Log(query, history)
        ensures scanned <= |history| && forall i :: 0 <= i < scanned ==> history[i].parents <= 1
      {
        AnswerIsLog(query, corpus, scanned, out.value, history);
      }
    }
  }
}
