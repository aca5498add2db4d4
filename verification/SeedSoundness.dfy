/** Why a line without any seed can be skipped: every match holds the longest
    run of the alternative it matches. */
module SeedSoundness {
  import opened Wrappers
  import opened Filters
  import opened Regex
  import opened SeedIndex

  /** The literal occurs in the first `upto` chars of the line, case apart. */
  ghost predicate Held(literal: string, ignoreCase: bool, s: string, upto: nat) {
    exists k: nat :: k + |literal| <= upto && OccursAt(FoldAll(ignoreCase, s), FoldAll(ignoreCase, literal), k)
  }

  /** Having matched up to `i`: the literal being read ends there, and the best
      one occurs before. */
  ghost predicate Reads(st: Scan, ignoreCase: bool, s: string, i: nat) {
    && |st.current| <= i <= |s|
    && OccursAt(FoldAll(ignoreCase, s), FoldAll(ignoreCase, st.current), i - |st.current|)
    && Held(st.best, ignoreCase, s, i)
  }

  lemma FlushReads(st: Scan, ignoreCase: bool, s: string, i: nat, j: nat)
    requires Reads(st, ignoreCase, s, i) && i <= j <= |s|
    ensures Reads(Flush(st), ignoreCase, s, j)
  {
    assert Held(st.current, ignoreCase, s, j) by {
      assert (i - |st.current|) + |st.current| <= j;
    }
    assert Held(st.best, ignoreCase, s, j);
  }

  lemma {:induction false} RepeatsForward(a: Atom, times: nat, ignoreCase: bool, s: string, i: nat, j: nat)
    requires Repeats(a, times, ignoreCase, s, i, j)
    ensures i <= j <= |s|
    decreases times
  {
    if times > 0 {
      var k: nat :| AtomMatches(a, ignoreCase, s, i, k) && Repeats(a, times - 1, ignoreCase, s, k, j);
      RepeatsForward(a, times - 1, ignoreCase, s, k, j);
    }
  }

  lemma FirstRepeat(a: Atom, times: nat, ignoreCase: bool, s: string, i: nat, j: nat) returns (k: nat)
    requires times >= 1 && Repeats(a, times, ignoreCase, s, i, j)
    ensures AtomMatches(a, ignoreCase, s, i, k) && Repeats(a, times - 1, ignoreCase, s, k, j)
  {
    k :| AtomMatches(a, ignoreCase, s, i, k) && Repeats(a, times - 1, ignoreCase, s, k, j);
  }

  lemma PushReads(st: Scan, c: char, ignoreCase: bool, s: string, i: nat)
    requires Reads(st, ignoreCase, s, i) && i < |s| && Fold(ignoreCase, s[i]) == Fold(ignoreCase, c)
    ensures Reads(st.(current := st.current + [c]), ignoreCase, s, i + 1)
  {
    var line, literal := FoldAll(ignoreCase, s), FoldAll(ignoreCase, st.current);
    var k := i - |st.current|;
    assert FoldAll(ignoreCase, st.current + [c]) == literal + [Fold(ignoreCase, c)];
    assert line[k..i + 1] == line[k..i] + [line[i]];
    assert Held(st.best, ignoreCase, s, i + 1);
  }

  lemma PlainReads(a: Atom, st: Scan, ignoreCase: bool, s: string, i: nat, j: nat)
    requires Reads(st, ignoreCase, s, i) && AtomMatches(a, ignoreCase, s, i, j)
    ensures Reads(AfterPlain(a, st), ignoreCase, s, j)
  {
    match a
    case Lit(c) => PushReads(st, c, ignoreCase, s, i);
    case Escaped(c) => PushReads(st, c, ignoreCase, s, i);
    case _ => FlushReads(st, ignoreCase, s, i, j);
  }

  /** A char that need not occur leaves only what was read before it. */
  lemma {:induction false} CharDropped(a: Atom, st: Scan)
    requires a.Rep? && IndexableAtom(a)
    ensures AfterAtom(a, st).current == "" && (!KeepsChar(a) ==> AfterAtom(a, st) == Flush(st))
    decreases a
  {
    if a.atom.Rep? {
      CharDropped(a.atom, st);
    } else if a.atom.Lit? || a.atom.Escaped? {
      assert (st.current + [a.atom.c])[..|st.current|] == st.current;
    }
  }

  /** And only such: under a quantifier that allows nothing, a char the scan
      counts on need not occur. */
  lemma KeptCharOptional(b: Atom, q: Quant, st: Scan, ignoreCase: bool, s: string, i: nat)
    returns (c: char)
    requires KeepsChar(b) && !AtLeastOnce(q) && i <= |s|
    ensures AtomMatches(Rep(b, q), ignoreCase, s, i, i)
    ensures AfterAtom(Rep(b, q), st) == Flush(st.(current := st.current + [c]))
  {
    assert Allows(q, 0) && Repeats(b, 0, ignoreCase, s, i, i);
    c := KeptCharStays(b, st);
  }

  lemma {:induction false} KeptCharStays(b: Atom, st: Scan) returns (c: char)
    requires KeepsChar(b)
    ensures AfterAtom(b, st) == Flush(st.(current := st.current + [c]))
    decreases b
  {
    if b.atom.Rep? {
      c := KeptCharStays(b.atom, st);
    } else {
      c := b.atom.c;
    }
  }

  lemma {:induction false} AtomReads(a: Atom, st: Scan, ignoreCase: bool, s: string, i: nat, j: nat)
    requires IndexableAtom(a) && Reads(st, ignoreCase, s, i) && AtomMatches(a, ignoreCase, s, i, j)
    ensures Reads(AfterAtom(a, st), ignoreCase, s, j)
    decreases a
  {
    hide Reads, AfterPlain;
    if a.Rep? {
      CharDropped(a, st);
      var times: nat :| Allows(a.quant, times) && Repeats(a.atom, times, ignoreCase, s, i, j);
      RepeatsForward(a.atom, times, ignoreCase, s, i, j);
      if KeepsChar(a) {
        var k := FirstRepeat(a.atom, times, ignoreCase, s, i, j);
        RepeatsForward(a.atom, times - 1, ignoreCase, s, k, j);
        AtomReads(a.atom, st, ignoreCase, s, i, k);
        FlushReads(AfterAtom(a.atom, st), ignoreCase, s, k, j);
        if a.atom.Rep? {
          CharDropped(a.atom, st);
        }
      } else {
        FlushReads(st, ignoreCase, s, i, j);
      }
    } else {
      PlainReads(a, st, ignoreCase, s, i, j);
    }
  }

  lemma {:induction false} BranchReads(b: Branch, st: Scan, ignoreCase: bool, s: string, i: nat, j: nat)
    requires IndexableBranch(b) && Reads(st, ignoreCase, s, i) && BranchMatches(b, ignoreCase, s, i, j)
    ensures Reads(AfterBranch(b, st), ignoreCase, s, j)
    decreases b
  {
    hide Reads, AfterAtom;
    if b.Cat? {
      var k: nat :| AtomMatches(b.atom, ignoreCase, s, i, k) && BranchMatches(b.rest, ignoreCase, s, k, j);
      AtomReads(b.atom, st, ignoreCase, s, i, k);
      BranchReads(b.rest, AfterAtom(b.atom, st), ignoreCase, s, k, j);
    }
  }

  lemma {:induction false} BranchStarts(b: Branch, ignoreCase: bool, s: string, i: nat, j: nat)
    requires BranchMatches(b, ignoreCase, s, i, j)
    ensures i <= |s|
    decreases b
  {
  }

  lemma {:induction false} MatchHoldsRun(re: Regex, ignoreCase: bool, s: string, i: nat, j: nat) returns (n: nat)
    requires Indexable(re) && Matches(re, ignoreCase, s, i, j)
    ensures n < |LongestRuns(re)| && Held(LongestRuns(re)[n], ignoreCase, s, |s|)
    decreases re
  {
    if BranchMatches(re.branch, ignoreCase, s, i, j) {
      n := 0;
      BranchStarts(re.branch, ignoreCase, s, i, j);
      assert Held("", ignoreCase, s, i) by {
        assert OccursAt(FoldAll(ignoreCase, s), FoldAll(ignoreCase, ""), 0);
      }
      BranchReads(re.branch, START, ignoreCase, s, i, j);
      FlushReads(AfterBranch(re.branch, START), ignoreCase, s, j, |s|);
    } else {
      var m := MatchHoldsRun(re.others, ignoreCase, s, i, j);
      n := m + 1;
    }
  }

  /** Every line a pattern matches holds one of the literals the scan found. */
  lemma MatchedLineHoldsSeed(re: Regex, ignoreCase: bool, line: string)
    requires Indexable(re) && |Print(re)| <= MAX_PATTERN_BYTES && LineMatches(re, ignoreCase, line)
    requires RequiredLiterals(Print(re)).Some?
    ensures exists n ::
              0 <= n < |RequiredLiterals(Print(re)).value| &&
              Held(RequiredLiterals(Print(re)).value[n], ignoreCase, line, |line|)
  {
    hide Held, RequiredLiterals, LongestRuns;
    ScanFindsRuns(re);
    var i: nat, j: nat :| Matches(re, ignoreCase, line, i, j);
    var n := MatchHoldsRun(re, ignoreCase, line, i, j);
  }

  // ---- What the scan misreads

  const ALPHA_X := Last(Cat(Alpha, Cat(Lit('x'), Empty)))

  lemma AlphaXMatches()
    ensures Print(ALPHA_X) == "[[:alpha:]]x" && LineMatches(ALPHA_X, false, "ax")
  {
    var x := Cat(Lit('x'), Empty);
    assert BranchMatches(Empty, false, "ax", 2, 2) && AtomMatches(Lit('x'), false, "ax", 1, 2);
    assert BranchMatches(x, false, "ax", 1, 2) && AtomMatches(Alpha, false, "ax", 0, 1);
    assert Matches(ALPHA_X, false, "ax", 0, 2);
  }

  lemma BracketX()
    ensures ScanText("]x", START) == Some(["]x"])
  {
    hide ScanText;
    var pushed, both := START.(current := "]"), START.(current := "]x");
    assert "" + [']'] == "]" && "]" + ['x'] == "]x";
    assert ScanOne("]x", START) == Some((pushed, "x"));
    assert ScanOne("x", pushed) == Some((both, ""));
    Step("]x", START);
    Step("x", pushed);
    EndsAlternative("", both);
    assert [] + ["]x"] == ["]x"];
  }

  /** The scan takes a nested bracket for part of the class: `[[:alpha:]]x`
      matches `ax`, which does not hold the literal `]x` it extracts. */
  lemma NamedClassMisread()
    ensures Print(ALPHA_X) == "[[:alpha:]]x" && LineMatches(ALPHA_X, false, "ax")
    ensures RequiredLiterals("[[:alpha:]]x") == Some(["]x"]) && !Held("]x", false, "ax", 2)
  {
    hide ScanText, Print, LineMatches;
    AlphaXMatches();
    assert "[[:alpha:]]x" == "[" + "[:alpha:" + "]" + "]x";
    OpenClass("[:alpha:", "]x", START);
    assert Flush(START) == START;
    BracketX();
    assert FoldAll(false, "ax")[0..2][0] == 'a' && FoldAll(false, "]x")[0] == ']';
  }

  const WORD_FOO :=
    Last(Cat(Anchor('<'), Cat(Lit('f'), Cat(Lit('o'), Cat(Lit('o'), Empty)))))

  lemma WordFooMatches()
    ensures Print(WORD_FOO) == "\\<foo" && LineMatches(WORD_FOO, false, "foo")
  {
    var line, o := "foo", Cat(Lit('o'), Empty);
    var oo := Cat(Lit('o'), o);
    var foo := Cat(Lit('f'), oo);
    assert BranchMatches(Empty, false, line, 3, 3) && AtomMatches(Lit('o'), false, line, 2, 3);
    assert BranchMatches(o, false, line, 2, 3) && AtomMatches(Lit('o'), false, line, 1, 2);
    assert BranchMatches(oo, false, line, 1, 3) && AtomMatches(Lit('f'), false, line, 0, 1);
    assert BranchMatches(foo, false, line, 0, 3) && AtomMatches(Anchor('<'), false, line, 0, 0);
    assert Matches(WORD_FOO, false, line, 0, 3);
    assert PrintBranch(o) == "o" && PrintBranch(oo) == "oo" && PrintBranch(foo) == "foo";
  }

  /** The scan takes an anchor written with a backslash for a char: a word start
      and foo match `foo`, which does not hold the literal `<foo`. */
  lemma WordStartMisread()
    ensures Print(WORD_FOO) == "\\<foo" && LineMatches(WORD_FOO, false, "foo")
    ensures RequiredLiterals("\\<foo") == Some(["<foo"]) && !Held("<foo", false, "foo", 3)
  {
    hide ScanText, Print, LineMatches;
    WordFooMatches();
    var one, two, three, four := START.(current := "<"), START.(current := "<f"), START.(current := "<fo"),
                                 START.(current := "<foo");
    assert "" + ['<'] == "<" && "<" + ['f'] == "<f" && "<f" + ['o'] == "<fo" && "<fo" + ['o'] == "<foo";
    assert ScanOne("\\<foo", START) == Some((one, "foo"));
    assert ScanOne("foo", one) == Some((two, "oo"));
    assert ScanOne("oo", two) == Some((three, "o"));
    assert ScanOne("o", three) == Some((four, ""));
    Step("\\<foo", START);
    Step("foo", one);
    Step("oo", two);
    Step("o", three);
    EndsAlternative("", four);
    assert [] + ["<foo"] == ["<foo"];
  }

  const DOUBLE := Rep(Rep(Lit('b'), Plus), Star)

  const A_DOUBLE := Last(Cat(Lit('a'), Cat(DOUBLE, Empty)))

  lemma ADoubleMatches()
    ensures Print(A_DOUBLE) == "ab+*" && LineMatches(A_DOUBLE, false, "a")
  {
    assert Repeats(Rep(Lit('b'), Plus), 0, false, "a", 1, 1) && Allows(Star, 0);
    assert AtomMatches(DOUBLE, false, "a", 1, 1) && BranchMatches(Empty, false, "a", 1, 1);
    assert BranchMatches(Cat(DOUBLE, Empty), false, "a", 1, 1) && AtomMatches(Lit('a'), false, "a", 0, 1);
    assert Matches(A_DOUBLE, false, "a", 0, 1);
  }

  /** After a second quantifier the scan still counts on the first: `ab+*`
      matches `a`, which does not hold `ab`. */
  lemma DoubleQuantifierMisread()
    ensures Print(A_DOUBLE) == "ab+*" && LineMatches(A_DOUBLE, false, "a")
    ensures RequiredLiterals("ab+*") == Some(["ab"]) && !Held("ab", false, "a", 1)
  {
    hide ScanText, Print, LineMatches;
    ADoubleMatches();
    var one, two, done := START.(current := "a"), START.(current := "ab"), START.(best := "ab");
    assert "" + ['a'] == "a" && "a" + ['b'] == "ab";
    assert ScanOne("ab+*", START) == Some((one, "b+*"));
    assert ScanOne("b+*", one) == Some((two, "+*"));
    assert ScanOne("+*", two) == Some((done, "*"));
    assert ScanOne("*", done) == Some((done, ""));
    Step("ab+*", START);
    Step("b+*", one);
    Step("+*", two);
    Step("*", done);
    EndsAlternative("", done);
    assert [] + ["ab"] == ["ab"];
  }
}
