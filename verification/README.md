# Squire replay model

Squire answers read-only commands of coding agents from caches instead of
running them. The promise behind every cache is the same: a hit gives what the
slow path would give. This project models the parts of Squire that carry that
promise and proves it.

- **Change guard** (`FileTree`, `ChangeGuard`, `RepoWorld`, `HotFiles`). An epoch
  is computed by reads whose paths depend on earlier reads. Each read is preceded
  by a watch, and a result is kept only while no report waits in the queue. Other
  processes may create, replace, rename and remove files and directories between
  any two steps. `RepoWorld.Cache` holds four worlds with remembered fingerprints and 256
  stored epochs each; `HotFiles.Cache` holds 64 single files.
- **Shell plans** (`ShellTokens`, `ShellQuote`, `ShellText`, `ShellPlan`,
  `ShellParser`, `PlanLayout`, `PlanMeaning`, `PlanTheorems`, `FilterMeaning`,
  `ShellEval`, `PlanCandidate`, with `Lines`, `Filters`, `Arguments` and `Sorting`).
  A tokenizer and a recursive-descent parser fill a flat node array; the evaluator
  walks it. The reference is a big-step meaning on trees; `ShellText` says what
  every text of a command stands for, and `FilterMeaning` what each filter prints,
  on the texts themselves. The grammar is a subset of sections
  2.2, 2.9.2 to 2.9.4 and 2.10.2 of the POSIX.1-2017 Shell Command Language.
- **Search index** (`Regex`, `SeedIndex`, `SeedSoundness`, `Bloom`, `RepoSearch`).
  One pass over the pattern extracts a literal every match must hold; lines whose
  Bloom word or text lacks every literal are skipped. The reference is the search
  of every line, with extended regular expressions read as XBD section 9.4 of
  POSIX.1-2017 says.
- **Snapshots and corpora** (`SnapshotCache`, `SnapshotSafety`, `SharedSnapshots`,
  `SnapshotTable`, `CorpusFormat`, `CorpusSearch`, `CorpusHistory`, and the writers
  `SnapshotWriter`, `SearchWriter`, `HistoryWriter` with `Slots`). The mapping
  cache is a state machine of tasks whose atomic actions interleave in any order,
  lock sections included; the table lookup, the corpus decoders and the searches
  over their records work on arbitrary bytes, and read back what the writers of the
  daemon wrote.
- **Process interposition and the rest** (`EnvTable`, `SyntheticChildren`,
  `FileActions`, `GitHistory`, `PathClean`).

A `char` stands for one byte. Where the code works by changing state, the model
is a class or a loop, and its contract ties it to a function or to an invariant
that the lemmas are about.

Places where the code does not do what it promises are stated as lemmas with a
concrete input or a concrete run:

- `RepoWorld.LateWatchMisread`: the directory to watch for a path is chosen and
  then registered, and a directory that appears in between leaves a clean guard
  over a stale epoch. `RepoWorld.Cache.RegisterTarget` marks a watch as late
  exactly when the directory chosen is no longer the one to watch, and
  `WatchDependency` shows that no watch is late while that stays the same.
- `RepoWorld.RenameMisread`: renaming a directory above the watched one takes the
  watch along without a report, and leaves a clean guard over a stale epoch too.
  `ChangeGuard.CoverageExact` and `MovedExact` give the exact condition: each
  directory above a watched one is watched, or lies in a watched one.
- The results on epochs hold where no watch was late or taken along so
  (`RepoWorld.Reliable`). Those on hot files need less, since the second look at
  the state guards the content: only a read during which a directory was renamed,
  under such a watch, can be torn (`HotFiles.Cache.Judge`).
- `PlanTheorems.FusedMisreadsGrep`: the fused `nl | sed` route reads the words of
  the second command as those of `sed` whatever its name. `FusedMeans` gives the
  exact condition; `PlanCandidate.CandidatesFuseRightly` shows that plans which
  pass the runtime's candidate check meet it.
- `SeedSoundness.NamedClassMisread`, `WordStartMisread` and
  `DoubleQuantifierMisread`: the seed scan misreads a bracket expression with an
  inner bracket expression, an anchor written with a backslash, and a quantifier
  that allows nothing after one that does not. `MatchedLineHoldsSeed` holds for all
  patterns without these outside groups (`SeedIndex.Indexable`).
- `FileActions.SharedOutputMisresolved`, `OpenMisresolved` and
  `CloseFromMisresolved`: descriptors are resolved to the source of the last `dup2`
  without following it further, and what the list opens, or closes as a range, is
  not seen. `ResolutionExact` gives the exact condition.
- `FileActions.LateRecordMisresolves`: a list of file actions begun while the
  record table is full is recorded later without its beginning, and resolves
  wrongly. `Init` says when a list is recorded whole.

## Model

| member | source | states |
|---|---|---|
| FileTree.UnreportedChangeInvisible | shims/squire_mmap_shim.c:420-453 | a change by another process, renames of files and directories included, that is not reported on the directory watched for a path and does not take it along neither changes what a reader of the path sees nor moves the directory to watch, for missing paths and files as for directories |
| FileTree.UnseenChangeKeepsView | shims/squire_mmap_shim.c:2949-3019 | a change not reported on any walked directory that takes none of them along leaves the whole walked workspace, and the set of directories walked, as they were |
| FileTree.ReachedExtends | shims/squire_mmap_shim.c:2949-3019 | which paths a walk reaches is decided directory by directory, so watching each directory before listing it covers the walk |
| ChangeGuard.RunIsLater | shims/squire_mmap_shim.c:455-523 | however many changes others make, renames included, queues stay open, waiting reports stay, and a queue without a report none of whose watches was taken along by a rename above has seen nothing it covers change |
| ChangeGuard.ProvenStays | shims/squire_mmap_shim.c:3021-3072 | the result of any computation whose reads depend on earlier reads, each covered by a watch, stays the result of a fresh computation while nothing the guard covers changes |
| ChangeGuard.PlanProvenStays | shims/squire_mmap_shim.c:4066-4194 | the same for an epoch built from remembered fingerprints and direct computations |
| ChangeGuard.WalkCovers | shims/squire_mmap_shim.c:3021-3072 | a walk of the workspace covers every dependency on a path inside it and outside the skipped directories |
| ChangeGuard.ChangeMissed | shims/squire_mmap_shim.c:420-453 | if no directory on the way to a path is watched, others can change what a reader of the path sees without a report |
| ChangeGuard.CoverageExact | shims/squire_mmap_shim.c:420-453 | under a queue without a report whose watches are on directories nobody can have changed what a reader of the path sees if and only if the directory to watch for the path is watched, and each directory above it is watched or lies in a watched one |
| ChangeGuard.RenameMissed | shims/squire_mmap_shim.c:420-453 | where a directory above the watched one is neither watched nor in a watched one, renaming it changes what a reader of the path sees, or makes way for something new, without a report |
| ChangeGuard.MovedExact | shims/squire_mmap_shim.c:385-397 | others cannot take a watched directory along without a report if and only if each directory above a watched one is watched or lies in a watched one |
| RepoWorld.GuardStaysCurrent | shims/squire_mmap_shim.c:455-523 | what a guard remembers is current or a report is waiting, if no watch of it was late or taken along by a rename above, whatever others do |
| RepoWorld.WorldsStayCurrent | shims/squire_mmap_shim.c:4066-4194 | the invariant of the whole cache (every fingerprint and stored epoch current unless a report waits, the guard is incomplete, or one of its watches was late or taken along by a rename above; one world per root, unique command keys) survives every change by others |
| RepoWorld.CommandStored | shims/squire_mmap_shim.c:4044-4064 | storing an epoch keeps keys unique and every stored epoch of the world current |
| RepoWorld.NewWorld | shims/squire_mmap_shim.c:4155-4182 | a world built under a clean guard joins the cache without a second world for its root and without sharing a queue |
| RepoWorld.Cache.ChooseTarget | shims/squire_mmap_shim.c:264-280 | looking upwards for the directory to watch, one look at a time while others act: a directory already watched under a silent queue is the right one, and without a move of the directory to watch so is any |
| RepoWorld.Cache.RegisterTarget | shims/squire_mmap_shim.c:385-397 | the directory chosen is registered after others acted; the watch counts as late exactly if another directory is the one to watch by then |
| RepoWorld.Cache.WatchDependency | shims/squire_mmap_shim.c:420-453 | watching before a read: if the guard is still clean and no watch was late or taken along, the directory the read depends on is watched; no watch is late if the directory to watch stays the same during the call; one that cannot be watched makes the guard incomplete |
| RepoWorld.LateWatchMisread | shims/squire_mmap_shim.c:430-449 | with only a there and a/b/c to be read, b appears after a was chosen: a is watched, c then appears without a report, and a world that stores the epoch of that read meets the invariant with a clean guard while a fresh computation gives another epoch |
| RepoWorld.RenameMisread | shims/squire_mmap_shim.c:430-449 | with a/b/c there and a/b watched in time, others rename a: no report comes, and a world that stores the epoch of that read meets the invariant with a clean guard while a fresh computation gives another epoch |
| RepoWorld.Cache.ReadPath | shims/squire_mmap_shim.c:420-453 | a read with others interfering before, during and after the watch: if the guard is clean afterwards and no watch was late or taken along the value is the present one and is covered |
| RepoWorld.Cache.WalkDir | shims/squire_mmap_shim.c:2949-3019 | the recursive walk, others interfering at every step: if the guard is clean afterwards and no watch was late or taken along the listing is the present view of the directory and every directory reached is watched |
| RepoWorld.Cache.WalkWorkspace | shims/squire_mmap_shim.c:3021-3072 | registering the workspace: if clean afterwards and no watch was late or taken along the walk saw the present workspace and the guard covers it; undisturbed the walk of a directory succeeds |
| RepoWorld.Cache.Remembered | shims/squire_mmap_shim.c:3236-3440 | a remembered fingerprint is used only for the same arguments and is proven if the guard is clean and no watch was late or taken along; a new one joins the guard under the same condition |
| RepoWorld.Cache.RunPlan | shims/squire_mmap_shim.c:4110-4166 | an epoch computation through remembered and direct fingerprints is proven if the guard ends clean and no watch was late or taken along; under a trusted guard it ends with an epoch wherever a fresh computation does, if nobody changes anything, nothing is refused and no list or tree is too large |
| RepoWorld.EpochStaysProven | shims/squire_mmap_shim.c:4120-4175 | what others do between the last read of a computation and the final drain shows in the queue, takes a watch along, or leaves the epoch proven |
| RepoWorld.Cache.DrainClean | shims/squire_mmap_shim.c:455-523 | draining says clean exactly if the guard is complete, no report waits and no read fails; a complete guard whose reads do not fail has its queue emptied |
| RepoWorld.Cache.CheckWorld | shims/squire_mmap_shim.c:4099-4106 | a world is kept if nothing is reported for it, and dropped otherwise |
| RepoWorld.Cache.FindWorld | shims/squire_mmap_shim.c:4090-4108 | the world of the root is kept only if its environment is the same and its queue is clean; otherwise none is left for the root |
| RepoWorld.Cache.AnswerFrom | shims/squire_mmap_shim.c:4110-4138 | an epoch stored for the command in a clean world is answered at once; a new one is computed, drained after others acted once more, and stored, or the world goes; the answer is fresh unless a watch of the world was late or taken along by a rename above |
| RepoWorld.Cache.StoreCommand | shims/squire_mmap_shim.c:4044-4064 | a free slot, else the least recently used one, takes the new epoch |
| RepoWorld.Cache.SelectWorld | shims/squire_mmap_shim.c:4140-4154 | a free slot, else the least recently used world |
| RepoWorld.Cache.RepoWorldEpoch | shims/squire_mmap_shim.c:4066-4194 | an epoch returned is stored in the world of that root, environment and command, and unless a watch of that world was late or was taken along by a rename of a directory above, it is the one a computation without any memory gives on the file system at one instant between the start and the end of the call, whatever others do between any two steps, through hits, retries and eviction; a call in which nobody changes anything, nothing is refused or too large, and whose root has no unreliable world, answers wherever a fresh computation gives an epoch; a failed call leaves no world for the root, and the cache invariant is kept |
| HotFiles.OneOnward | shims/squire_mmap_shim.c:1297-1302 | every write and every rename of a file gives it a state it never had, so a state that was lost comes back only by the rename of a directory |
| HotFiles.Cache.ChooseTarget | shims/squire_mmap_shim.c:264-280 | looking upwards for the directory to watch while others act: one that is watched already under a silent queue is the right one |
| HotFiles.Cache.WatchFile | shims/squire_mmap_shim.c:1203-1205 | the second watch, of the directory of the file itself: under a silent queue it covers the file or was late |
| HotFiles.Cache.Load | shims/squire_mmap_shim.c:1389-1400 | bytes read one after another while others write, between two looks that agree: under a silent queue with its watch in time they are the content of the file, and in any case they are what was written under its state if no directory was renamed meanwhile; a readable file is loaded if nobody changes anything and nothing is refused |
| HotFiles.Cache.Recall | shims/squire_mmap_shim.c:1352-1366 | the remembered content is returned only if nothing was reported and the state of the file is the recorded one, and is then what the file held at one instant of the call, under a late watch too, unless its read was torn; otherwise the entry goes |
| HotFiles.Cache.Judge | shims/squire_mmap_shim.c:1389-1400 | a read is torn only if a directory was renamed during it and its watch was late or taken along |
| HotFiles.Cache.ReadProven | shims/squire_mmap_shim.c:1342-1415 | the content returned is remembered in an entry and is what the file held at one instant during the call, unless the read that made the entry was torn, from memory or after at most two attempts, whatever others do between any two steps; a readable file is answered if nobody changes anything and nothing is refused; a failed call leaves no entry for the path; at most one entry for a path, each with its own queue |
| Sorting.LeTotal | shims/squire_mmap_shim.c:1030-1045 | byte comparison with length as the tie-break orders any two strings |
| Sorting.LeAntisymmetric | shims/squire_mmap_shim.c:1030-1045 | strings that compare equal are equal |
| Sorting.LeIsLexicographic | shims/squire_mmap_shim.c:1030-1045 | the order is that of the first byte where two strings differ, a prefix first |
| Sorting.SortedUnique | shims/squire_mmap_shim.c:1047-1049 | two sorted arrangements of the same parts are the same, whatever the sorting algorithm |
| Sorting.SortSorts | shims/squire_preload_helper.c:693-730 | the ordered lines are sorted and a permutation of the input lines |
| Sorting.JoinSorted | shims/squire_mmap_shim.c:1061-1077 | the preimage is the newline-joined sorted arrangement of the parts |
| Sorting.PreimageIgnoresOrder | shims/squire_mmap_shim.c:1061-1077 | the fingerprint preimage is the same bytes for every permutation of the parts |
| Lines.AppendLineSelection | shims/squire_preload_helper.c:517-546 | appends, line by line in order, one copy for each range holding the line number; fails exactly when there is no range or the output would pass its limit |
| Lines.LinesOfConcat | shims/squire_preload_helper.c:517-546 | text made of terminated lines splits back into those lines |
| Lines.MaxEnd | shims/squire_mmap_shim.c:4813-4824 | the largest end of a range, where the stream may stop early |
| Lines.CountMatches | shims/squire_mmap_shim.c:4826-4837 | how many ranges hold a line number |
| Lines.NothingPastEnd | shims/squire_preload_helper.c:517-546 | no line past the largest end is selected, so stopping there loses nothing |
| Lines.CountLines | shims/squire_mmap_shim.c:5591-5606 | counts the lines, a last unterminated one included |
| Lines.TailSelects | shims/squire_preload_helper.c:556-566 | selecting from total - count + 1 to total gives exactly the last count lines |
| Lines.AppendTailLines | shims/squire_preload_helper.c:556-566 | appends the last count lines, an unterminated last one included, within the limit; the empty input and a count of 0 give nothing |
| Lines.HeadSelects | shims/squire_preload_helper.c:548-554 | selecting from 1 to count gives exactly the first count lines |
| Filters.NumberingKeepsLines | shims/squire_preload_helper.c:580-628 | splitting the fully numbered text gives the numbered lines, so numbering only the selected lines prints what selecting from the numbered text prints |
| Filters.AppendNlSelection | shims/squire_preload_helper.c:580-628 | numbers and appends the selected lines only; fails exactly when there is no range, a line is a section mark, or the limit is passed |
| Filters.AppendFixedGrep | shims/squire_preload_helper.c:630-663 | prints the lines holding the pattern and says whether there is one; refuses the empty pattern and input with NUL |
| Filters.AppendWcLineCount | shims/squire_preload_helper.c:674-691 | the number of newline bytes in decimal |
| Filters.AppendSortedLines | shims/squire_preload_helper.c:693-730 | the lines sorted, each terminated; refuses NUL and output over the limit |
| FilterMeaning.HeadTakes | shims/squire_preload_helper.c:548-554 | head gives the longest prefix of the input with at most k lines |
| FilterMeaning.TailTakes | shims/squire_preload_helper.c:556-566 | tail gives the longest suffix of the input with at most k lines |
| FilterMeaning.SedIs | shims/squire_preload_helper.c:517-546 | sed prints, for the place of each line in order, the line once for each range that holds one plus the newlines before it |
| FilterMeaning.GrepIs | shims/squire_preload_helper.c:630-663 | grep -F prints the lines that hold the pattern in order, and there is one exactly if it prints anything |
| FilterMeaning.SortIs | shims/squire_preload_helper.c:693-730 | sort prints a rearrangement of the lines in byte order |
| FilterMeaning.NumberingIs | shims/squire_preload_helper.c:580-628 | nl -ba prints every line behind its number, right-aligned in six columns, and a tab |
| FilterMeaning.NlIs | shims/squire_preload_helper.c:580-628 | numbering and then selecting prints those of the numbered lines the ranges hold |
| FilterMeaning.MarksAre | shims/squire_preload_helper.c:568-578 | a text is declined for numbering exactly if some line is one, two or three times backslash and colon |
| FilterMeaning.FilterDoes | shims/squire_preload_helper.c:835-876 | for every command and input: cat, head, tail, sed -n, grep -F, wc -l and sort on these very words, and nothing else, give the output and exit status described on the text itself |
| Arguments.ParseSedPrintSelection | shims/squire_mmap_shim.c:4773-4811 | the loop over the script computes the selection grammar |
| Arguments.SelectionRoundTrip | shims/squire_mmap_shim.c:4752-4811 | every selection within the limits, written as a print script, parses back to itself |
| Arguments.SelectionExact | shims/squire_mmap_shim.c:4752-4811 | a print script is accepted exactly if it spells these ranges, with p after each and semicolons or newlines between them |
| Arguments.LineCountExact | shims/squire_preload_helper.c:773-805 | a line count is read exactly from -n N, -nN and -N, N spelled as strtol takes it and in range |
| Arguments.CountsWritten | shims/squire_preload_helper.c:773-805 | every number in range is read from each of the three forms |
| Arguments.GrepExact | shims/squire_preload_helper.c:812-831 | the words of a fixed-string grep are accepted exactly with -F among the options, quiet if asked for, and one pattern |
| Arguments.ParsesDecimal | shims/squire_mmap_shim.c:4752-4771 | a number from 1 to 10000 in decimal is read back, up to the first char that is no digit |
| ShellTokens.Tokenize | shims/squire_preload_helper.c:149-283 | the scanner over the text computes the token grammar, which ShellText fixes on every spelling |
| ShellTokens.ScanQuoted | shims/squire_preload_helper.c:163-283 | a quoted part up to its closing quote, chars within as they are |
| ShellTokens.ScanWord | shims/squire_preload_helper.c:163-283 | a word: quoted and plain parts joined, with the flag that an unquoted pattern char occurred |
| ShellTokens.ScanRedirNull | shims/squire_preload_helper.c:129-147 | a redirection to /dev/null is recognised only as a whole word |
| ShellQuote.TokenizeQuotedWords | shims/squire_preload_helper.c:163-283 | any list of 1 to 95 words of 1 to 511 printable ASCII chars, quoted as shlex.quote does and joined by blanks, tokenizes to exactly those words without a pattern flag |
| ShellQuote.TokenizeWritten | shims/squire_preload_helper.c:163-283 | any writable token list, operators and redirections included, written as text tokenizes back to itself |
| ShellText.PiecesRead | shims/squire_preload_helper.c:163-283 | a word put together from plain, single-quoted and double-quoted pieces, escapes included, is read as the text of the pieces, with the pattern flag exactly if a plain piece holds a pattern char |
| ShellText.BackslashKept | shims/squire_preload_helper.c:163-283 | in double quotes a backslash before any other char stays |
| ShellText.SpelledReads | shims/squire_preload_helper.c:163-283 | however a token is spelled, it is read back up to what follows |
| ShellText.TokenizeSpaced | shims/squire_preload_helper.c:149-283 | tokens in any spelling with any runs of blanks, tabs and newlines between them come back, with a semicolon added exactly where a run holds a newline and the token before is a word, a closing parenthesis or a redirection, and no last separator; more than 95 are refused |
| ShellText.RefusedAnywhere | shims/squire_preload_helper.c:149-283 | after any tokens a text that starts with two bars, a single ampersand, an input redirection, one elsewhere than to /dev/null, a char that is expanded, or quotes that hold such a char or do not end, makes the whole command refused |
| ShellPlan.PrintThenParse | shims/squire_preload_helper.c:327-454 | printing a plan tree with the parentheses it needs and parsing the tokens gives the tree back |
| ShellPlan.ParsePrintParse | shims/squire_preload_helper.c:327-454 | every tree the grammar yields survives being printed and parsed again |
| ShellParser.Parser.AddNode | shims/squire_preload_helper.c:285-296 | appends a node while fewer than 64 are in use |
| ShellParser.Parser.MarkStderrDiscarded | shims/squire_preload_helper.c:298-310 | turns the layout of a subtree, in place, into its layout under a redirection that drops stderr, and touches no other node |
| ShellParser.Parser.ParseWords | shims/squire_preload_helper.c:337-355 | lays out a simple command with its words and pattern flags; at most 15 words, no assignment |
| ShellParser.Parser.ParsePrimaryNode | shims/squire_preload_helper.c:327-372 | a group or command and its redirections: succeeds exactly when the grammar does and the nodes fit, appending the layout of the tree |
| ShellParser.Parser.ParsePipelineNode | shims/squire_preload_helper.c:374-391 | left-associated pipelines, likewise |
| ShellParser.Parser.ParseAndNode | shims/squire_preload_helper.c:393-410 | left-associated AND lists, likewise |
| ShellParser.Parser.ParseSequenceNode | shims/squire_preload_helper.c:412-432 | left-associated sequences with an optional last semicolon, likewise |
| ShellParser.ParseShellPlan | shims/squire_preload_helper.c:434-454 | compiles exactly the commands whose tokens are a whole sequence of at most 64 nodes, to the postorder layout of the tree with the root last |
| ShellParser.CompileWritten | shims/squire_preload_helper.c:434-454 | writing a tree as shell text and compiling the text gives that tree |
| PlanLayout.SubtreeIsBlock | shims/squire_preload_helper.c:285-454 | every subtree is laid out on its own in one block of neighbouring nodes that ends at its root |
| PlanLayout.LayoutIsPostorder | shims/squire_preload_helper.c:285-454 | children come before their parents, and the nodes reached from a node are exactly the block just before it |
| PlanLayout.StderrMarksAncestors | shims/squire_preload_helper.c:298-372 | a node is marked exactly if some node above it redirects fd 2 |
| ShellEval.NoteReplay | shims/squire_preload_helper.c:465-484 | the record of some sources takes one more exactly if that comes from their store, and then is the record of them all |
| ShellEval.MergeReplay | shims/squire_preload_helper.c:486-507 | the records of two lists of sources merge exactly if all the sources come from one store, and then give the record of both lists together: the sum of the sources and the one store |
| ShellEval.EvalFilter | shims/squire_preload_helper.c:835-876 | the output appended and the exit status are those described for the command words on the input itself: head the longest prefix with at most k lines, tail the suffix, sed the selected lines, grep the lines with the pattern, wc the newline count, sort the sorted lines, cat the input; it is declined exactly where no filter is named so, an argument or input is refused, or the limit of the filter is passed |
| ShellEval.EvalSourceNode | shims/squire_preload_helper.c:2397-2442 | a recorded answer, or for the words nl -ba and a file the proven file with every line numbered; declined only where there is neither, a line is a section mark, or the limit is passed |
| ShellEval.EvalNlSedPipe | shims/squire_preload_helper.c:2444-2510 | for nl -ba file piped into the operands of sed -n the numbered lines the script selects, by their places in the file, numbering only those |
| ShellEval.EvalNode | shims/squire_preload_helper.c:2560-2590 | the evaluator on the node array ends and computes the evaluation of the tree laid out there |
| ShellEval.EvalBinary | shims/squire_preload_helper.c:2512-2558 | pipes, AND lists and sequences on the node array compute those of the tree: the first failing command ends an AND list, a pipe passes stdout on and joins stderr |
| ShellEval.EvalShellPlan | shims/squire_preload_helper.c:2592-2611 | nothing over the output limit is answered |
| ShellEval.EvalShell | shims/squire_preload_helper.c:2613-2631 | compiling and evaluating a command line gives the answer of its plan tree, and no answer if it has none; what its filters print is fixed by EvalFilter and FilterDoes |
| PlanTheorems.WarmNlNumbersAll | shims/squire_preload_helper.c:927-933 | the unbounded selection of the numbering route prints the whole file numbered |
| PlanTheorems.ScriptIsForSed | shims/squire_preload_helper.c:835-876 | operands that are a print script suit no filter but sed, for which they select lines |
| PlanTheorems.FusedMeans | shims/squire_preload_helper.c:2444-2510 | when the fused route answers, its answer is the meaning of the pipe if and only if the second command is named sed; under another name the pipe has no meaning here |
| PlanTheorems.EvalMeans | shims/squire_preload_helper.c:2512-2590 | whatever the evaluator answers is the big-step meaning of the plan, if every command fed a print script by nl is a sed; the replay count is the number of sources that ran, at least one without input, all from one store |
| PlanTheorems.SlowPathKept | shims/squire_preload_helper.c:2512-2523 | what the slow path answers, the evaluator with the fused route answers too, byte for byte, for every plan |
| PlanTheorems.FusedMisreadsGrep | shims/squire_preload_helper.c:807-810 | the fused route does not check the name: the command text nl -ba f piped into grep -n 2p compiles to that pipe and is answered with line 2 |
| ShellEval.AnswersMean | shims/squire_preload_helper.c:2592-2611 | an answer to a whole plan is its meaning, with at least one source |
| PlanCandidate.PlanCandidateAt | shims/squire_hot_api.c:628-668 | the recursive check on the node array decides candidacy of the tree |
| PlanCandidate.CandidatesFuseRightly | shims/squire_hot_api.c:607-668 | in a plan that passes the candidate check nothing but sed is fed a print script |
| PlanCandidate.CandidateAnswersMean | shims/squire_hot_api.c:754-795 | so every answer to a candidate plan is its meaning, without a further condition |
| PlanCandidate.FilterCandidatesRun | shims/squire_hot_api.c:607-626 | the check lets through exactly the filters that run, but for head -n 0 and for input or patterns a filter declines |
| PlanCandidate.CandidateEverywhere | shims/squire_hot_api.c:607-668 | a plan is a candidate exactly if each of its commands, in order, may be answered where it stands: fed by a pipe, as a filter, and otherwise as the policy says, pwd always and patterns only for rg |
| RepoSearch.ScanConstruct | shims/squire_preload_helper.c:1516-1595 | one construct of the pattern text, up to where the next begins |
| RepoSearch.SeedMasks | shims/squire_preload_helper.c:1488-1602 | the one pass over the pattern computes the seeds of its required literals, none if some alternative has none |
| SeedIndex.ScanFindsRuns | shims/squire_preload_helper.c:1488-1602 | scanning the text of an indexable pattern finds the longest run of every alternative, and gives up exactly when an alternative has none or there are more than 32 |
| SeedSoundness.BranchReads | shims/squire_preload_helper.c:1516-1595 | along any match the literal being read ends where the match stands and the best one lies before |
| SeedSoundness.MatchedLineHoldsSeed | shims/squire_preload_helper.c:1484-1602 | every line an indexable pattern matches holds one of its literals, up to ASCII case where case is ignored |
| SeedSoundness.KeptCharOptional | shims/squire_preload_helper.c:1552-1584 | where the condition on quantifiers fails the scan counts on a char that a match can do without |
| SeedSoundness.WordStartMisread | shims/squire_preload_helper.c:1109-1152 | an anchor written with a backslash reaches the regex library, and the scan takes it for a char: for a word start and foo it requires <foo, which the matching line foo lacks |
| SeedSoundness.NamedClassMisread | shims/squire_preload_helper.c:1531-1539 | for [[:alpha:]]x the scan requires ]x, which the matching line ax lacks |
| SeedSoundness.DoubleQuantifierMisread | shims/squire_preload_helper.c:1552-1584 | for ab+* the scan requires ab, which the matching line a lacks |
| Bloom.LiteralMask | shims/squire_preload_helper.c:1409-1425 | the loops over widths and starts collect the bits of every one to three byte window, folded as asked |
| Bloom.HeldMaskCovered | shims/squire_preload_helper.c:1409-1425 | a text that holds a literal has every bit of the literal |
| Bloom.MaskNonzero | shims/squire_preload_helper.c:1427-1443 | a seed that is not empty always has a bit to look for |
| Bloom.HashOfAbc | shims/squire_preload_helper.c:1398-1407 | the hash of abc is 0x99282e895f861360, which fixes the constants that the writer and the reader share |
| RepoSearch.SeedMatches | shims/squire_preload_helper.c:1445-1474 | a literal is found exactly if it occurs in the line, case folded as asked |
| RepoSearch.HeldSeed | shims/squire_preload_helper.c:1427-1443 | a literal cut to 64 bytes stays required, in text and in bits |
| RepoSearch.MatchedIsCandidate | shims/squire_preload_helper.c:1840-1852 | a matching line passes the Bloom word and the text of some seed |
| RepoSearch.EvalPlainFile | shims/squire_preload_helper.c:1884-1943 | a file adds to the output one row for each matching line in order: the file name and a colon if shown, the decimal of one plus the newlines before it and a colon if asked for, and the line; with files-with-matches its name alone, once; when quiet nothing; nothing for a file with NUL; it fails only past a mebibyte, and says whether a line matches |
| RepoSearch.EvalIndexedFile | shims/squire_preload_helper.c:1819-1882 | on records that are the newline split with the masks of its lines, the indexed search adds the same rows, described on the content itself, as matching every line |
| RepoSearch.EvalFile | shims/squire_preload_helper.c:1884-1894 | with or without an index the rows added and the match flag are the same |
| RepoSearch.SearchPrints | shims/squire_preload_helper.c:1798-1943 | the search of every line adds exactly those rows, or the name, or nothing |
| CorpusSearch.LineIsSlice | shims/squire_preload_helper.c:1604-1627 | reading a line through its record gives that part of the text of the file, or fails exactly where the record points outside |
| CorpusSearch.EvaluateRoot | shims/squire_preload_helper.c:2005-2030 | the files of one root in corpus order, chosen by path and by the verdict of the globs, read by the decoder from a well-written corpus, under a regex library that agrees with the matching semantics: what is added is the rows of each chosen file in order, a quiet search stops at the first match, and a record that cannot be read fails the search if it is reached |
| CorpusSearch.Evaluate | shims/squire_preload_helper.c:1945-2037 | nothing is answered from bytes the decoder refuses; from accepted bytes whose line records are the newline split with the masks of the lines, with a regex library that agrees with the matching semantics and the verdict of the globs as a parameter, index or not: the output is the rows of every file at or below each search path, in the order of the paths and of the corpus, each file with the verdict of the globs and under its printed name, and the exit status is 2 if a search path names nothing, else 0 or 1 as some line matches or none; it declines only for an unreadable record, a missing path not allowed, a chosen file whose case takes more than ASCII folding, an unusable pattern, or too much output |
| CorpusSearch.PlainAnswerIs | shims/squire_preload_helper.c:1945-2037 | the search of every line of every chosen file is the one described on the files of the corpus, and declines only for the reasons listed |
| CorpusSearch.KindExact | shims/squire_preload_helper.c:1722-1745 | a search path is missing exactly if every record is readable and no file is at or below it, a directory exactly if it is the root or the first file at or below it lies below, and unclear exactly if a record before that cannot be read |
| SearchWriter.IndexLines | internal/proofcache/repo_search_corpus.go:188-210 | the loop over a file records the newline split with the masks of each line as it is and in lower case |
| SearchWriter.CorpusAccepted | internal/proofcache/repo_search_corpus.go:293-363 | the reader accepts what the daemon writes, with its counts and offsets |
| SearchWriter.CorpusRead | internal/proofcache/repo_search_corpus.go:293-363 | from the bytes the daemon writes for any files and orders within the limits the reader gets each file back with its path, content, line records, both masks and fold mark, and both orders, so they are well written and a search of them answers |
| Regex.FoldIs | shims/squire_preload_helper.c:1409-1425 | folding is that of the 26 ASCII letters |
| RepoSearch.SearchOnlyAdds | shims/squire_preload_helper.c:1798-1817 | a search only adds to its output, a quiet one adds nothing, and it reports a match exactly if a line matches |
| SnapshotSafety.HitStep | shims/squire_mmap_shim.c:5314-5329 | a cache hit keeps the invariant |
| SnapshotSafety.RacedStep | shims/squire_mmap_shim.c:5347-5363 | finding the file cached by then drops the own mapping, which was mapped, and keeps the invariant |
| SnapshotSafety.StoreStep | shims/squire_mmap_shim.c:5384-5403 | replacing a slot unmaps only a region nobody borrows and keeps the invariant, unique path and identity included |
| SnapshotSafety.DropStep | shims/squire_mmap_shim.c:5420-5434 | a release takes one reference or unmaps the own region, and keeps the invariant |
| SnapshotSafety.NextKeeps | shims/squire_mmap_shim.c:5306-5434 | every atomic action of every task keeps the invariant |
| SnapshotSafety.CacheIsSafe | shims/squire_mmap_shim.c:5301-5434 | in every interleaving: an entry counts exactly the live handles on it, a live handle is of a mapped region of the file its call found, and no two entries share path and identity |
| SnapshotSafety.MappingsConserved | shims/squire_mmap_shim.c:5301-5434 | in every interleaving each region ever mapped is in one slot, with one task, or unmapped; none is lost and none has two places |
| SnapshotSafety.UnmapsOnlyMapped | shims/squire_mmap_shim.c:5301-5434 | munmap is only called on regions mapped at that moment, so none is unmapped twice |
| SnapshotSafety.PickReuses | shims/squire_mmap_shim.c:5365-5403 | left alone, a call that found no entry comes to reuse the first empty slot no handle refers to, or else the least recently used of those, the first of equals; it keeps its mapping to itself exactly if every slot is referred to |
| SharedSnapshots.Cache.Do | shims/squire_mmap_shim.c:5306-5434 | one action on the entries in place does what the state machine says |
| SharedSnapshots.Cache.Drive | shims/squire_mmap_shim.c:5306-5434 | any schedule keeps the cache valid |
| SnapshotTable.ReadHeader | shims/squire_mmap_shim.c:5436-5450 | an accepted header, 32-bit arithmetic included, means that entries and payload lie one after the other in the data |
| SnapshotTable.HeaderExact | shims/squire_mmap_shim.c:5436-5450 | a header is accepted exactly if the data starts with the mark, the version and these sizes, byte by byte, and they are those of the data |
| SnapshotTable.EntryInside | shims/squire_mmap_shim.c:5461-5471 | no entry offset wraps, every entry ends before the payload |
| SnapshotTable.CommandStart | shims/squire_mmap_shim.c:5456-5476 | the lower-bound search returns an entry of the command on any bytes, and its first on a table sorted by key |
| SnapshotTable.LessIsFirstDifference | shims/squire_mmap_shim.c:5456-5476 | the order searched by is that of the first byte where two keys differ |
| SnapshotTable.ClaimRead | shims/squire_mmap_shim.c:5490-5541 | an entry whose 320 bytes are four hashes, six numbers of four bytes with the low byte first, and 40 more, is read back field by field |
| SnapshotTable.AnswerIs | shims/squire_mmap_shim.c:5490-5541 | a matching entry is answered exactly if its kind is the wanted one, its hashes are hexadecimal, its slices lie in the payload and have those hashes, and then with those slices and its signed 32-bit exit code |
| SnapshotTable.ScanIs | shims/squire_mmap_shim.c:5478-5550 | the linear scan answers what the first entry for the key and epoch says, or nothing if there is none |
| SnapshotTable.ReadAnswer | shims/squire_mmap_shim.c:5510-5541 | every slice returned lies in the payload and has the recorded hash; AnswerIs says exactly what is answered |
| SnapshotTable.Find | shims/squire_mmap_shim.c:5478-5550 | on any bytes an answer is the slices and the signed exit code that stand in an entry for the key and epoch, of the wanted kind, with its slices in the payload and of the hashes it claims; on a table sorted by key it is what the first such entry says, and none only if that entry fails one of these checks or there is none |
| SnapshotTable.ScanSkips | experiments/squire_head_shim.c:231-234 | the linear scan passes over entries that do not match |
| SnapshotWriter.EncodeSnapshot | internal/proofcache/hot_snapshot.go:335-390 | the loop that fills the rows of the frame in place and appends the outputs writes this snapshot, or nothing if there are too many candidates or bytes |
| SnapshotWriter.HeaderAccepted | internal/proofcache/hot_snapshot.go:335-390 | the reader accepts the header the daemon writes |
| SnapshotWriter.FindsWritten | internal/proofcache/hot_snapshot.go:335-390 | from a snapshot of candidates in the order of their keys the lookup gives the output, error output and exit code of the first candidate for the key and epoch, exactly if it is of the wanted kind |
| SnapshotWriter.FindsNothingElse | internal/proofcache/hot_snapshot.go:335-390 | and nothing for a key and epoch that no candidate has |
| EnvTable.SequencesEqual | shims/squire_hot_api.c:331-392 | accepts exactly well-formed inputs whose selected variables, name and value, are the same in order, and reports malformed only what is malformed |
| EnvTable.FindSlot | shims/squire_hot_api.c:294-310 | the probe ends at the slot of the key or at a free slot before which all hold other keys; nothing is returned only from a full table |
| EnvTable.NeverFull | shims/squire_hot_api.c:396-431 | with at most 512 entries in 1024 slots some slot is free, so the probe never finds the table full |
| EnvTable.FreeMeansAbsent | shims/squire_hot_api.c:294-310 | reaching a free slot means the key is nowhere in the table: no lookup misses an inserted key |
| EnvTable.InsertStores | shims/squire_hot_api.c:422-430 | an insertion keeps every earlier key where it is found |
| EnvTable.FillTable | shims/squire_hot_api.c:402-431 | the table is filled exactly if the expected entries are well formed and their keys distinct |
| EnvTable.TickAll | shims/squire_hot_api.c:433-462 | ticks off the present entries exactly while each is in the table and new |
| EnvTable.Compatible | shims/squire_hot_api.c:394-464 | for all environments written as name, equals sign and value: accepts exactly if both are well formed within the limits and the selected variables are the same in order, or have distinct names and are the same up to order |
| EnvTable.KeyOfText | shims/squire_hot_api.c:350-378 | the key of name, equals sign and value is the name, whatever the value; an entry without the sign is its own key |
| EnvTable.EnvironmentRead | shims/squire_hot_api.c:350-378 | every environment is written by one sequence of variables |
| EnvTable.AgreementIs | shims/squire_hot_api.c:331-464 | agreement of entries is agreement of the variables they write |
| EnvTable.AcceptedMeans | shims/squire_hot_api.c:394-464 | an accepted environment has each variable that matters with its recorded value, and no other that matters |
| SyntheticChildren.Table.RegisterChild | shims/squire_preload.c:1657-1678 | registers one more child under the next pid, unless every slot is used |
| SyntheticChildren.WaitStatusReads | shims/squire_preload.c:1706-1711 | the status reads, by the macros of wait, as an exit with the low byte of the code |
| SyntheticChildren.Table.ConsumeChild | shims/squire_preload.c:1680-1712 | delivers the pid and status of the first waiting child that is wanted, any if the pid is -1, which was never delivered before, and nothing exactly if none is |
| SyntheticChildren.Table.DiscardChild | shims/squire_preload.c:1714-1728 | discards the child of a positive pid and no other |
| SyntheticChildren.Table.Drive | shims/squire_preload.c:1613-1728 | after every sequence of operations each registration waits, was delivered or was discarded, and only one of these; used slots are registrations minus deliveries and discards; waiting children with one pid were registered at least 3000001 registrations apart |
| SyntheticChildren.Balance | shims/squire_preload.c:1657-1728 | used slots are registrations minus deliveries and discards, never more than the table holds |
| SyntheticChildren.SharedPidFarApart | shims/squire_preload.c:1613-1668 | two waiting children share a pid only if at least 3000001 registrations separate them |
| FileActions.ApplyTracked | shims/squire_preload.c:1816-1838 | the recorded actions give the child its descriptor table, or fail at a dup2 from a closed descriptor |
| FileActions.ResolveOutputs | shims/squire_preload.c:1849-1899 | the loop computes the symbolic resolution |
| FileActions.ApplyOrigin | shims/squire_preload.c:1816-1838 | after the actions of a list, unrecorded ones included, each open descriptor is the opened file or the file of the parent descriptor it traces back to |
| FileActions.ResolutionRight | shims/squire_preload.c:1849-1899 | where nothing was opened as 1 or 2, no range with them was closed, and the last dup2 onto each copies a descriptor that is still the parent's own, resolving the recorded actions gives the child's output and error |
| FileActions.ResolutionExact | shims/squire_preload.c:1849-1899 | and only there: resolving what is recorded of a list is right for every parent with open standard streams if and only if those sources are kept in the list, or no parent can run it |
| FileActions.NoReuseKeepsSources | shims/squire_preload.c:1849-1899 | everything recorded and no source that was a target before is enough |
| FileActions.SharedOutputMisresolved | shims/squire_preload.c:1882-1889 | dup2(3,1) then dup2(1,2): resolution says the error goes to the parent's own output, the child writes it to 3 |
| FileActions.OpenMisresolved | shims/squire_preload.c:2417-2442 | only addclose and adddup2 are recorded: a list that opens a file as 1 resolves to the parent's own output |
| FileActions.CloseFromMisresolved | shims/squire_preload.c:2417-2442 | so does a list that closes the descriptors from 1 on, whose child has no output |
| FileActions.Registry.Ensure | shims/squire_preload.c:1778-1792 | the record of a key, or a new one if a slot is free |
| FileActions.Registry.Init | shims/squire_preload.c:2387-2402 | a list is recorded whole exactly if there is room for it when it is begun |
| FileActions.Registry.Append | shims/squire_preload.c:1801-1814 | a list recorded whole stays so, or is flagged past 32 actions |
| FileActions.Registry.AppendUnseen | shims/squire_preload.c:2417-2442 | an open or the close of a range extends the list of the C library and leaves its record as it is |
| FileActions.Registry.ResolveList | shims/squire_preload.c:1849-1899 | for a list recorded whole the answer is the resolution of what can be recorded of it, and right for every parent with open standard streams exactly if the sources are kept in the list the C library holds, or no parent can run that |
| FileActions.Registry.LateRecord | shims/squire_preload.c:1778-1814 | a list begun while all 128 slots are used is resolved, once another list is destroyed, from its later actions as if they were all |
| FileActions.LateRecordMisresolves | shims/squire_preload.c:1778-1899 | from the empty table, 128 lists and one more: the output sent to 3 by the late list resolves to the parent's own |
| GitHistory.Evaluate | shims/squire_preload_helper.c:2231-2269 | an answer lists the first touching commits of a scanned part without a merge, enough of them or all there are; on a linear well-formed corpus it declines only for too few commits or too much output |
| GitHistory.AnswerIsLog | shims/squire_preload_helper.c:2231-2269 | an answer from the newest commits is the log of any longer history that extends them, and no merge lies in the scanned part |
| GitHistory.SelectsIs | shims/squire_preload_helper.c:2215-2229 | a selected path is the root, the path itself, or a directory above it |
| GitHistory.LogIs | shims/squire_preload_helper.c:2231-2269 | the log is the line of each commit that touches a selected path, in order, as long as fewer than the limit came before |
| CorpusHistory.EvaluateBytes | shims/squire_preload_helper.c:2139-2269 | an answer from accepted bytes is the log of every history whose newest commits they hold; on a linear well-formed corpus only too few commits or too much output are declined |
| HistoryWriter.HistoryAccepted | internal/proofcache/git_history_corpus.go:356-407 | the reader accepts what the daemon writes, with its counts and offsets |
| HistoryWriter.HistoryRead | internal/proofcache/git_history_corpus.go:356-407 | from the bytes the daemon writes for any commits within the limits the evaluation reads each commit back with its line, its paths in order and its parents, a malformed commit or path as such, and whether the corpus is complete |
| PathClean.CleanRelativePath | shims/squire_mmap_shim.c:1142-1182 | the loop over components computes the cleaning |
| PathClean.CleanIsContained | shims/squire_mmap_shim.c:1142-1182 | an accepted path names the same lexical place as its input, no prefix of the input climbs above the base, and every component is there and does not start with a dot |
| PathClean.CleanTwice | shims/squire_mmap_shim.c:1142-1182 | cleaning again changes nothing, but refuses a result that starts with a dash |
| PathClean.CleanExact | shims/squire_mmap_shim.c:1142-1182 | a path is cleaned to this one exactly if it is no option and not absolute, no component hides, no prefix climbs above the base or has more than 256 components pending, it leads below the base, and the result, its components between slashes, fits |
| PathClean.JoinTidy | shims/squire_mmap_shim.c:1166-1180 | in the result every slash stands between two chars that are none |
| CorpusFormat.DecodeSearch | shims/squire_preload_helper.c:1335-1368 | accepted bytes have their tables one after the other and before the payload, within the data |
| CorpusFormat.FileAt | shims/squire_preload_helper.c:1370-1396 | the path and content of a file record lie in the payload, its lines in the line table; no 32-bit offset wraps |
| CorpusFormat.LineAt | shims/squire_preload_helper.c:1604-1627 | a line lies in the content of its file; the global line index does not wrap |
| CorpusFormat.RecordInside | shims/squire_preload_helper.c:1374-1374 | no record offset of an accepted table wraps or passes the end of the table |
| CorpusFormat.DecodeHistory | shims/squire_preload_helper.c:2139-2165 | likewise for the history corpus |
| CorpusFormat.CommitAt | shims/squire_preload_helper.c:2167-2196 | hash, line and path records of a commit lie inside, the texts without NUL |
| CorpusFormat.PathAt | shims/squire_preload_helper.c:2198-2211 | a path lies in the payload, not empty, without NUL |
| CorpusFormat.CommitPathsInside | shims/squire_preload_helper.c:2231-2250 | the path records of a commit are among those of the corpus |

## Left out

- RepoWorld.Cache.RepoWorldEpoch: holds where no watch of the world was late or taken along by a rename above; `LateWatchMisread` and `RenameMisread` are runs in which one was.
- HotFiles.Cache.ReadProven: holds where the read that made the entry was not torn. Two writes of one file are taken never to leave it in the same state (size, inode and times); where they do, only the watch guards the content.
- Symbolic links: the freshness results do not hold for a path that is, or passes through, a symbolic link. The guard watches the directory that holds the link and the read opens its target, so a change of the target is not reported. Paths of the model contain no links. Exchanging two paths in one step, mounts and the kqueue back end are not modelled; any report makes the guard dirty.
- Draining a queue is one step, and a full queue or a failed read counts as a report.
- Reads that the code makes without a watch of their own (packed refs, named configuration files below an ignored directory) and relative PATH entries: every read of a computation is taken to be preceded by its watch. Nested `.git` and `.squire` directories, which the walk skips, are taken not to be read through the workspace registration.
- Which files a fingerprint reads and how its fields are concatenated: a computation is any bounded sequence of reads, each depending on what was seen before; SHA-256 of the result is not modelled, so an epoch stands for its preimage. The environment hash of a world and the discovered repository root are parameters.
- Paths longer than 4096 components are outside the walk of `RepoWorld`.
- HotFiles.Cache.Load: a kernel that refuses the watch ends the attempt before the file is read; the code reads it and then discards it.
- The content hash kept beside a hot file, memory running out, wall-clock and start-time accounting of replays, trace messages.
- ShellEval.EvalSourceNode: exact replay, git history, repository search and warm files other than `nl` are one table of recorded answers that the caches may or may not hold; what makes those answers right is the subject of the other modules.
- PlanTheorems.EvalMeans: a recorded answer for `nl -ba file` is taken to number the proven content of that file (`PlanMeaning.Consistent`).
- Whether the shell of the host gives every command of a group in a pipe the same input, as the evaluator does, is not modelled: the reference is the tree meaning.
- Inputs of 4 GiB and more, whose lengths the code cuts to 32 bits, and the BSD forms of `nl` and `wc` output: the GNU forms are modelled.
- SeedSoundness.MatchedLineHoldsSeed: goes one way, from patterns that outside groups have no inner bracket expression, no backslash anchor and no quantifier that allows nothing over one char that the scan counts on; in a pattern outside these another literal may still be a sound seed. Classes with a closing bracket or a backslash among their chars are not covered.
- The regex library is a parameter that decides as the matching semantics does and does not fail; the four anchors that GNU and BSD libraries write with a backslash and a punctuation char are part of that semantics, back references and the other extensions, all written with letters or digits, are refused by the translation.
- CorpusSearch.Evaluate: the verdict of the globs on a path is a parameter, as is Unicode case folding, for which files are only marked.
- CorpusSearch.EvaluateRoot: that line records are the newline split with the masks of the lines (`CorpusSearch.WellWritten`) is a precondition on the bytes, which `SearchWriter.CorpusRead` proves of what the daemon writes. That a table is sorted by key is one of the snapshot lookup.
- SearchWriter.CorpusRead, HistoryWriter.HistoryRead: the two corpora are stated as the bytes written, not as the loops that fill the frame in place; which files and commits are collected, and which files are marked for folding, are parameters.
- SnapshotCache: memory ordering, the inherited snapshot descriptor, and reference counts of 2^32 handles and more. Taking a lock is one action; the reads and writes inside a write section that no other task can observe are joined.
- EnvTable: NULL entries and a negative count in the recorded environment, which are refused at once.
- The descriptor table of the parent has its standard streams open in the statements on resolution; negative descriptors, which the library refuses to record, do not occur. Actions that are not recorded and change the working directory or the terminal are not modelled; they do not change descriptors.
- Policy tables (which tools, which environment keys), git configuration parsing, the agent, the Swift helper, file tokens and benchmarks: long, but each fact is one branch.
