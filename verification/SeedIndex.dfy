/** The literal seeds of a search pattern: one text per alternative that every
    matching line must hold. */
module SeedIndex {
  import opened Wrappers
  import opened Filters
  import opened Regex

  const MAX_SEED_MASKS := 32
  const MAX_SEED_BYTES := 64
  const MAX_PATTERN_BYTES := 2048

  predicate IsAlnum(c: char) {
    '0' <= c <= '9' || IsAlpha(c)
  }

  // ---- Scanning the pattern text

  /** Where the scan stands: the literal being read, the longest complete one,
      the depth of groups, whether inside a class, and the literals of the
      alternatives done. */
  datatype Scan = Scan(current: string, best: string, depth: nat, inClass: bool, literals: seq<string>)

  /** End the literal being read. */
  function Flush(st: Scan): Scan {
    st.(best := if |st.current| > |st.best| then st.current else st.best, current := "")
  }

  /** As Flush, without the last char, which need not occur. */
  function DropLast(st: Scan): Scan {
    Flush(if st.current == "" then st else st.(current := st.current[..|st.current| - 1]))
  }

  function Push(st: Scan, c: char): Option<Scan> {
    if |st.current| >= MAX_PATTERN_BYTES then None else Some(st.(current := st.current + [c]))
  }

  /** The text after the next closing brace. */
  function SkipBrace(p: string): (r: Option<string>)
    ensures r.Some? ==> |r.value| < |p|
  {
    if p == "" then None else if p[0] == '}' then Some(p[1..]) else SkipBrace(p[1..])
  }

  /** What one construct of the pattern does to the scan, and the text after
      it. Ends of alternatives are not constructs. */
  function ScanOne(p: string, st: Scan): (r: Option<(Scan, string)>)
    requires p != ""
    ensures r.Some? ==> |r.value.1| < |p|
  {
    var c := p[0];
    if c == '\\' then
      if |p| == 1 then None
      else if st.depth == 0 && !st.inClass && !IsAlnum(p[1]) then
        var pushed := Push(st, p[1]);
        if pushed.None? then None else Some((pushed.value, p[2..]))
      else Some((Flush(st), p[2..]))
    else if st.inClass then Some((if c == ']' then st.(inClass := false) else st, p[1..]))
    else if c == '[' then Some((Flush(st).(inClass := true), p[1..]))
    else if c == '(' then Some((Flush(st).(depth := st.depth + 1), p[1..]))
    else if c == ')' then if st.depth == 0 then None else Some((st.(depth := st.depth - 1), p[1..]))
    else if st.depth > 0 then Some((st, p[1..]))
    else if c == '*' || c == '?' then Some((DropLast(st), p[1..]))
    else if c == '{' then
      var rest := SkipBrace(p[1..]);
      if rest.None? then None else Some((DropLast(st), rest.value))
    else if c == '}' then None
    else if c == '.' || c == '^' || c == '$' || c == '+' then Some((Flush(st), p[1..]))
    else
      var pushed := Push(st, c);
      if pushed.None? then None else Some((pushed.value, p[1..]))
  }

  /** Does the text start with the end of an alternative? */
  predicate AtEnd(p: string, st: Scan) {
    p == "" || (p[0] == '|' && st.depth == 0 && !st.inClass)
  }

  /** Record the longest literal of an alternative. */
  function EndAlternative(st: Scan): Option<Scan> {
    var best := Flush(st).best;
    if best == "" || |st.literals| >= MAX_SEED_MASKS then None
    else Some(st.(current := "", best := "", literals := st.literals + [best]))
  }

  /** One required literal for every alternative, if there is one for each. */
  function ScanText(p: string, st: Scan): Option<seq<string>>
    decreases |p|
  {
    if AtEnd(p, st) then
      var ended := EndAlternative(st);
      if ended.None? then None
      else if p != "" then ScanText(p[1..], ended.value)
      else if st.depth != 0 || st.inClass then None
      else Some(ended.value.literals)
    else
      var one := ScanOne(p, st);
      if one.None? then None else ScanText(one.value.1, one.value.0)
  }

  const START := Scan("", "", 0, false, [])

  function RequiredLiterals(pattern: string): Option<seq<string>> {
    ScanText(pattern, START)
  }

  // ---- The patterns the index understands

  predicate IsSpecial(c: char) {
    c in {'\\', '[', '(', ')', '|', '*', '?', '{', '}', '.', '^', '$', '+'}
  }

  /** An escaped char that stands for itself. */
  predicate PlainEscape(c: char) {
    !IsAlnum(c) && c !in ANCHORS
  }

  /** A list of chars without a closing bracket, a backslash or a named class. */
  predicate PlainClass(text: string) {
    && text != "" && text != "^" && ']' !in text && '\\' !in text
    && forall i :: 0 <= i < |text| - 1 && text[i] == '[' ==> text[i + 1] !in {':', '.', '='}
  }

  /** What a group may hold: there the scan only follows the brackets. */
  predicate SkippableAtom(a: Atom)
    decreases a, 0
  {
    match a
    case Lit(c) => !IsSpecial(c)
    case Escaped(c) => PlainEscape(c)
    case Class(text) => PlainClass(text)
    case Group(re) => Skippable(re)
    case Rep(b, _) => SkippableAtom(b)
    case _ => true
  }

  predicate SkippableBranch(b: Branch)
    decreases b, 1
  {
    b.Cat? ==> SkippableAtom(b.atom) && SkippableBranch(b.rest)
  }

  predicate Skippable(re: Regex)
    decreases re, 2
  {
    SkippableBranch(re.branch) && (re.Or? ==> Skippable(re.others))
  }

  /** Outside groups named classes and anchors with a backslash are misread. */
  predicate PlainAtom(a: Atom) {
    SkippableAtom(a) && !a.Alpha? && !a.Anchor? && !a.Rep?
  }

  predicate AtLeastOnce(q: Quant) {
    match q
    case Plus => true
    case Interval(Exactly(n)) => n >= 1
    case Interval(AtLeast(n)) => n >= 1
    case Interval(Between(n, _)) => n >= 1
    case _ => false
  }

  /** The scan counts on the char of a quantified atom. */
  predicate KeepsChar(a: Atom) {
    a.Rep? && if a.atom.Rep? then KeepsChar(a.atom) else (a.atom.Lit? || a.atom.Escaped?) && a.quant.Plus?
  }

  /** No quantifier on an anchor, and none that allows nothing on a char that
      the scan counts on. */
  predicate IndexableAtom(a: Atom) {
    match a
    case Rep(b, q) =>
      && IndexableAtom(b) && b != LineStart && b != LineEnd
      && (KeepsChar(b) ==> AtLeastOnce(q))
    case _ => PlainAtom(a)
  }

  predicate IndexableBranch(b: Branch) {
    b.Cat? ==> IndexableAtom(b.atom) && IndexableBranch(b.rest)
  }

  predicate Indexable(re: Regex) {
    IndexableBranch(re.branch) && (re.Or? ==> Indexable(re.others))
  }

  // ---- The literals of a pattern, from its structure

  function AfterPlain(a: Atom, st: Scan): Scan {
    match a
    case Lit(c) => st.(current := st.current + [c])
    case Escaped(c) => st.(current := st.current + [c])
    case _ => Flush(st)
  }

  function AfterAtom(a: Atom, st: Scan): Scan {
    match a
    case Rep(b, Plus) => Flush(AfterAtom(b, st))
    case Rep(b, _) => DropLast(AfterAtom(b, st))
    case _ => AfterPlain(a, st)
  }

  function AfterBranch(b: Branch, st: Scan): Scan {
    match b
    case Empty => st
    case Cat(a, rest) => AfterBranch(rest, AfterAtom(a, st))
  }

  /** The longest run of chars that must occur in this order in a match of the
      branch, the first of that length. */
  function LongestRun(b: Branch): string {
    Flush(AfterBranch(b, START)).best
  }

  function LongestRuns(re: Regex): seq<string> {
    [LongestRun(re.branch)] + if re.Or? then LongestRuns(re.others) else []
  }

  // ---- Groups are skipped

  lemma Step(p: string, st: Scan)
    requires !AtEnd(p, st)
    ensures ScanOne(p, st).None? ==> ScanText(p, st) == None
    ensures ScanOne(p, st).Some? ==> ScanText(p, st) == ScanText(ScanOne(p, st).value.1, ScanOne(p, st).value.0)
  {
  }

  /** Within a group, all but brackets, parentheses and backslashes count for
      nothing. */
  lemma SkipChar(c: char, rest: string, st: Scan)
    requires st.depth >= 1 && !st.inClass && c !in {'\\', '[', '(', ')'}
    ensures ScanText([c] + rest, st) == ScanText(rest, st)
  {
    assert ([c] + rest)[1..] == rest;
    Step([c] + rest, st);
  }

  lemma SkipEscape(c: char, rest: string, st: Scan)
    requires st.depth >= 1 && !st.inClass && st.current == ""
    ensures ScanText(['\\', c] + rest, st) == ScanText(rest, st)
  {
    assert (['\\', c] + rest)[2..] == rest;
    Step(['\\', c] + rest, st);
  }

  predicate Inert(text: string) {
    forall i :: 0 <= i < |text| ==> text[i] !in {'\\', '[', '(', ')'}
  }

  lemma {:induction false} SkipChars(text: string, rest: string, st: Scan)
    requires st.depth >= 1 && !st.inClass && Inert(text)
    ensures ScanText(text + rest, st) == ScanText(rest, st)
    decreases |text|
  {
    if text == "" {
      assert text + rest == rest;
    } else {
      assert text + rest == [text[0]] + (text[1..] + rest);
      SkipChar(text[0], text[1..] + rest, st);
      SkipChars(text[1..], rest, st);
    }
  }

  lemma QuantChars(q: Quant)
    ensures Inert(PrintQuant(q))
  {
    var text := PrintQuant(q);
    forall i | 0 <= i < |text|
      ensures text[i] !in {'\\', '[', '(', ')'}
    {
      match q
      case Interval(Exactly(n)) => assert text[i] in Decimal(n) || text[i] == '{' || text[i] == '}';
      case Interval(AtLeast(n)) => assert text[i] in Decimal(n) || text[i] in {',', '{', '}'};
      case Interval(Between(n, m)) =>
        assert text[i] in Decimal(n) || text[i] in Decimal(m) || text[i] in {',', '{', '}'};
      case _ =>
    }
  }

  /** In a class every char up to the bracket is passed over. */
  lemma {:induction false} SkipClass(text: string, rest: string, st: Scan)
    requires st.inClass && ']' !in text && '\\' !in text
    ensures ScanText(text + ("]" + rest), st) == ScanText(rest, st.(inClass := false))
    decreases |text|
  {
    var p := text + ("]" + rest);
    Step(p, st);
    if text == "" {
      assert p[1..] == rest;
    } else {
      assert p[1..] == text[1..] + ("]" + rest);
      SkipClass(text[1..], rest, st);
    }
  }

  lemma OpenClass(text: string, rest: string, st: Scan)
    requires !st.inClass && ']' !in text && '\\' !in text && (st.depth >= 1 ==> st.current == "")
    ensures ScanText("[" + text + "]" + rest, st) == ScanText(rest, Flush(st))
  {
    var p := "[" + (text + ("]" + rest));
    assert "[" + text + "]" + rest == p && p[1..] == text + ("]" + rest);
    Step(p, st);
    SkipClass(text, rest, Flush(st).(inClass := true));
    assert Flush(st).(inClass := true).(inClass := false) == Flush(st);
  }

  lemma CloseGroup(rest: string, st: Scan)
    requires !st.inClass && st.depth >= 1
    ensures ScanText(")" + rest, st) == ScanText(rest, st.(depth := st.depth - 1))
  {
    assert (")" + rest)[1..] == rest;
    Step(")" + rest, st);
  }

  lemma {:induction false} SkipGroup(re: Regex, rest: string, st: Scan)
    requires Skippable(re) && !st.inClass
    ensures ScanText("(" + Print(re) + ")" + rest, st) == ScanText(rest, Flush(st))
    decreases re, 3
  {
    hide ScanText, ScanOne;
    var inner := Flush(st).(depth := st.depth + 1);
    assert "(" + Print(re) + ")" + rest == "(" + (Print(re) + (")" + rest));
    OpenGroup(Print(re) + (")" + rest), st);
    SkipRegex(re, ")" + rest, inner);
    CloseGroup(rest, inner);
    assert inner.(depth := inner.depth - 1) == Flush(st);
  }

  lemma OpenGroup(rest: string, st: Scan)
    requires !st.inClass
    ensures ScanText("(" + rest, st) == ScanText(rest, Flush(st).(depth := st.depth + 1))
  {
    hide ScanText, SkipBrace;
    var p := "(" + rest;
    assert p[0] == '(' && p[1..] == rest;
    Step(p, st);
  }

  lemma {:induction false} SkipAtom(a: Atom, rest: string, st: Scan)
    requires SkippableAtom(a) && st.depth >= 1 && !st.inClass && st.current == ""
    ensures ScanText(PrintAtom(a) + rest, st) == ScanText(rest, st)
    decreases a, 0
  {
    hide ScanText, ScanOne;
    assert Flush(st) == st;
    match a
    case Class(text) => OpenClass(text, rest, st);
    case Group(re) => SkipGroup(re, rest, st);
    case Rep(b, q) =>
      Assoc(PrintAtom(b), PrintQuant(q), rest);
      SkipAtom(b, PrintQuant(q) + rest, st);
      QuantChars(q);
      SkipChars(PrintQuant(q), rest, st);
    case Escaped(c) => SkipEscape(c, rest, st);
    case Anchor(c) => SkipEscape(c, rest, st);
    case Alpha =>
      assert "[[:alpha:]]" + rest == "[" + "[:alpha:" + "]" + ("]" + rest);
      OpenClass("[:alpha:", "]" + rest, st);
      SkipChar(']', rest, st);
    case Space => SkipEscape('s', rest, st);
    case Lit(c) => SkipChar(c, rest, st);
    case Any => SkipChar('.', rest, st);
    case LineStart => SkipChar('^', rest, st);
    case LineEnd => SkipChar('$', rest, st);
  }

  lemma {:induction false} SkipBranch(b: Branch, rest: string, st: Scan)
    requires SkippableBranch(b) && st.depth >= 1 && !st.inClass && st.current == ""
    ensures ScanText(PrintBranch(b) + rest, st) == ScanText(rest, st)
    decreases b, 1
  {
    hide ScanText;
    if b.Cat? {
      Assoc(PrintAtom(b.atom), PrintBranch(b.rest), rest);
      SkipAtom(b.atom, PrintBranch(b.rest) + rest, st);
      SkipBranch(b.rest, rest, st);
    } else {
      assert "" + rest == rest;
    }
  }

  lemma {:induction false} SkipRegex(re: Regex, rest: string, st: Scan)
    requires Skippable(re) && st.depth >= 1 && !st.inClass && st.current == ""
    ensures ScanText(Print(re) + rest, st) == ScanText(rest, st)
    decreases re, 2
  {
    hide ScanText;
    if re.Or? {
      assert Print(re) + rest == PrintBranch(re.branch) + (['|'] + (Print(re.others) + rest));
      SkipBranch(re.branch, ['|'] + (Print(re.others) + rest), st);
      SkipChar('|', Print(re.others) + rest, st);
      SkipRegex(re.others, rest, st);
    } else {
      SkipBranch(re.branch, rest, st);
    }
  }

  // ---- The scan follows the structure

  /** Room for the literal being read and all of the text. */
  predicate Room(text: string, st: Scan) {
    |st.current| + |text| <= MAX_PATTERN_BYTES
  }

  lemma OneChar(c: char, rest: string, st: Scan)
    requires st.depth == 0 && !st.inClass && c !in {'\\', '[', '(', ')', '{', '}', '|'}
    ensures ScanOne([c] + rest, st).Some? ==>
              ScanText([c] + rest, st) == ScanText(rest, ScanOne([c] + rest, st).value.0)
  {
    assert ([c] + rest)[1..] == rest;
    Step([c] + rest, st);
  }

  lemma PlainScans(a: Atom, rest: string, st: Scan)
    requires PlainAtom(a) && st.depth == 0 && !st.inClass && Room(PrintAtom(a) + rest, st)
    ensures ScanText(PrintAtom(a) + rest, st) == ScanText(rest, AfterPlain(a, st))
    ensures Room(rest, AfterPlain(a, st))
  {
    hide ScanText;
    match a
    case Class(text) => OpenClass(text, rest, st);
    case Group(re) => SkipGroup(re, rest, st);
    case Escaped(c) =>
      assert (['\\', c] + rest)[2..] == rest;
      Step(['\\', c] + rest, st);
    case Space =>
      assert ("\\s" + rest)[2..] == rest;
      Step("\\s" + rest, st);
    case Lit(c) => OneChar(c, rest, st);
    case Any => OneChar('.', rest, st);
    case LineStart => OneChar('^', rest, st);
    case LineEnd => OneChar('$', rest, st);
  }

  lemma {:induction false} BraceSkips(text: string, rest: string)
    requires '}' !in text
    ensures SkipBrace(text + ("}" + rest)) == Some(rest)
  {
    if text == "" {
      assert text + ("}" + rest) == "}" + rest && ("}" + rest)[1..] == rest;
    } else {
      assert (text + ("}" + rest))[1..] == text[1..] + ("}" + rest);
      BraceSkips(text[1..], rest);
    }
  }

  lemma IntervalScans(text: string, rest: string, st: Scan)
    requires '}' !in text && st.depth == 0 && !st.inClass
    ensures ScanText("{" + text + "}" + rest, st) == ScanText(rest, DropLast(st))
  {
    var p := "{" + (text + ("}" + rest));
    assert "{" + text + "}" + rest == p && p[1..] == text + ("}" + rest);
    BraceSkips(text, rest);
    Step(p, st);
  }

  lemma QuantScans(q: Quant, rest: string, st: Scan)
    requires st.depth == 0 && !st.inClass
    ensures ScanText(PrintQuant(q) + rest, st) == ScanText(rest, if q.Plus? then Flush(st) else DropLast(st))
  {
    match q
    case Interval(Exactly(n)) => IntervalScans(Decimal(n), rest, st);
    case Interval(AtLeast(n)) => IntervalScans(Decimal(n) + ",", rest, st);
    case Interval(Between(n, m)) => IntervalScans(Decimal(n) + "," + Decimal(m), rest, st);
    case _ =>
      assert (PrintQuant(q) + rest)[1..] == rest;
      Step(PrintQuant(q) + rest, st);
  }

  lemma {:induction false} AtomScans(a: Atom, rest: string, st: Scan)
    requires IndexableAtom(a) && st.depth == 0 && !st.inClass && Room(PrintAtom(a) + rest, st)
    ensures ScanText(PrintAtom(a) + rest, st) == ScanText(rest, AfterAtom(a, st))
    ensures Room(rest, AfterAtom(a, st))
    ensures AfterAtom(a, st).depth == 0 && !AfterAtom(a, st).inClass && AfterAtom(a, st).literals == st.literals
    decreases a
  {
    hide ScanText;
    if a.Rep? {
      Assoc(PrintAtom(a.atom), PrintQuant(a.quant), rest);
      AtomScans(a.atom, PrintQuant(a.quant) + rest, st);
      QuantScans(a.quant, rest, AfterAtom(a.atom, st));
    } else {
      PlainScans(a, rest, st);
    }
  }

  lemma {:induction false} BranchScans(b: Branch, rest: string, st: Scan)
    requires IndexableBranch(b) && st.depth == 0 && !st.inClass && Room(PrintBranch(b) + rest, st)
    ensures ScanText(PrintBranch(b) + rest, st) == ScanText(rest, AfterBranch(b, st))
    ensures Room(rest, AfterBranch(b, st))
    ensures AfterBranch(b, st).depth == 0 && !AfterBranch(b, st).inClass && AfterBranch(b, st).literals == st.literals
    decreases b
  {
    hide ScanText, AfterAtom;
    if b.Cat? {
      Assoc(PrintAtom(b.atom), PrintBranch(b.rest), rest);
      AtomScans(b.atom, PrintBranch(b.rest) + rest, st);
      BranchScans(b.rest, rest, AfterAtom(b.atom, st));
    } else {
      assert "" + rest == rest;
    }
  }

  lemma EndsAlternative(rest: string, st: Scan)
    requires st.depth == 0 && !st.inClass
    ensures var ended := EndAlternative(st);
            && (ended.None? ==> ScanText("|" + rest, st) == ScanText("", st) == None)
            && (ended.Some? ==> ScanText("|" + rest, st) == ScanText(rest, ended.value) &&
                                ScanText("", st) == Some(ended.value.literals))
  {
    assert ("|" + rest)[1..] == rest;
  }

  predicate AllNonempty(literals: seq<string>) {
    forall i :: 0 <= i < |literals| ==> literals[i] != ""
  }

  lemma {:induction false} RegexScans(re: Regex, literals: seq<string>)
    requires Indexable(re) && |Print(re)| <= MAX_PATTERN_BYTES && |literals| <= MAX_SEED_MASKS
    ensures ScanText(Print(re), START.(literals := literals))
         == if AllNonempty(LongestRuns(re)) && |literals| + |LongestRuns(re)| <= MAX_SEED_MASKS
            then Some(literals + LongestRuns(re)) else None
    decreases re
  {
    hide ScanText, AfterBranch;
    var st := START.(literals := literals);
    var b := re.branch;
    var after := AfterBranch(b, st);
    LiteralsApart(b, START, literals);
    var run := LongestRun(b);
    if re.Or? {
      BranchScans(b, "|" + Print(re.others), st);
      EndsAlternative(Print(re.others), after);
      if run != "" && |literals| < MAX_SEED_MASKS {
        RegexScans(re.others, literals + [run]);
        Assoc(literals, [run], LongestRuns(re.others));
      }
      RunsSplit(run, LongestRuns(re.others));
    } else {
      assert PrintBranch(b) + "" == PrintBranch(b);
      BranchScans(b, "", st);
      EndsAlternative("", after);
      assert LongestRuns(re) == [run];
      assert LongestRuns(re)[0] == run;
    }
  }

  lemma RunsSplit(run: string, others: seq<string>)
    ensures AllNonempty([run] + others) <==> run != "" && AllNonempty(others)
  {
    assert ([run] + others)[0] == run;
    forall i | 0 <= i < |others|
      ensures others[i] == ([run] + others)[i + 1]
    {
    }
  }

  lemma {:induction false} AtomApart(a: Atom, st: Scan, literals: seq<string>)
    ensures AfterAtom(a, st.(literals := literals)) == AfterAtom(a, st).(literals := literals)
    decreases a
  {
    if a.Rep? {
      AtomApart(a.atom, st, literals);
    }
  }

  /** The alternatives done do not matter to the one being read. */
  lemma {:induction false} LiteralsApart(b: Branch, st: Scan, literals: seq<string>)
    ensures AfterBranch(b, st.(literals := literals)) == AfterBranch(b, st).(literals := literals)
    decreases b
  {
    if b.Cat? {
      AtomApart(b.atom, st, literals);
      LiteralsApart(b.rest, AfterAtom(b.atom, st), literals);
    }
  }

  /** Scanning the text of a pattern finds the longest run of each alternative;
      it gives up exactly when some alternative has none, or there are more
      alternatives than seeds. */
  lemma ScanFindsRuns(re: Regex)
    requires Indexable(re) && |Print(re)| <= MAX_PATTERN_BYTES
    ensures RequiredLiterals(Print(re))
         == if AllNonempty(LongestRuns(re)) && |LongestRuns(re)| <= MAX_SEED_MASKS
            then Some(LongestRuns(re)) else None
  {
    RegexScans(re, []);
    assert START.(literals := []) == START;
    assert [] + LongestRuns(re) == LongestRuns(re);
  }
}
