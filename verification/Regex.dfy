/** Extended regular expressions (XBD section 9.4 of POSIX.1-2017), as far as
    repository searches use them, with the anchors that GNU and BSD libraries
    write with a backslash: their text and what lines they match. */
module Regex {
  import opened Wrappers
  import opened Filters

  datatype Bound = Exactly(n: nat) | AtLeast(n: nat) | Between(n: nat, m: nat)

  datatype Quant = Star | Plus | Opt | Interval(bound: Bound)

  datatype Atom =
    | Lit(c: char)
    | Escaped(c: char)
    | Space
    | Any
    | Class(text: string)
    | Alpha
    | Group(re: Regex)
    | LineStart
    | LineEnd
    | Anchor(c: char)
    | Rep(atom: Atom, quant: Quant)

  datatype Branch = Empty | Cat(atom: Atom, rest: Branch)

  datatype Regex = Last(branch: Branch) | Or(branch: Branch, others: Regex)

  // ---- Text

  function PrintQuant(q: Quant): string {
    match q
    case Star => "*"
    case Plus => "+"
    case Opt => "?"
    case Interval(Exactly(n)) => "{" + Decimal(n) + "}"
    case Interval(AtLeast(n)) => "{" + (Decimal(n) + ",") + "}"
    case Interval(Between(n, m)) => "{" + (Decimal(n) + "," + Decimal(m)) + "}"
  }

  function PrintAtom(a: Atom): string {
    match a
    case Lit(c) => [c]
    case Escaped(c) => ['\\', c]
    case Space => "\\s"
    case Any => "."
    case Class(text) => "[" + text + "]"
    case Alpha => "[[:alpha:]]"
    case Group(re) => "(" + Print(re) + ")"
    case LineStart => "^"
    case LineEnd => "$"
    case Anchor(c) => ['\\', c]
    case Rep(b, q) => PrintAtom(b) + PrintQuant(q)
  }

  function PrintBranch(b: Branch): string {
    match b
    case Empty => ""
    case Cat(a, rest) => PrintAtom(a) + PrintBranch(rest)
  }

  function Print(re: Regex): string {
    match re
    case Last(b) => PrintBranch(b)
    case Or(b, others) => PrintBranch(b) + ("|" + Print(others))
  }

  // ---- Matching

  predicate IsUpper(c: char) {
    'A' <= c <= 'Z'
  }

  /** ASCII lower case, where case is ignored. */
  function Fold(ignoreCase: bool, c: char): char {
    if ignoreCase && IsUpper(c) then c - 'A' + 'a' else c
  }

  function FoldAll(ignoreCase: bool, s: string): (r: string)
    ensures |r| == |s| && forall i :: 0 <= i < |s| ==> r[i] == Fold(ignoreCase, s[i])
  {
    seq(|s|, i requires 0 <= i < |s| => Fold(ignoreCase, s[i]))
  }

  const UPPER := "ABCDEFGHIJKLMNOPQRSTUVWXYZ"
  const LOWER := "abcdefghijklmnopqrstuvwxyz"

  /** Folding takes each upper-case letter to its lower-case one and leaves every
      other char, and every char where case counts. */
  lemma FoldIs(c: char)
    ensures Fold(false, c) == c
    ensures c !in UPPER ==> Fold(true, c) == c
    ensures forall i :: 0 <= i < 26 && UPPER[i] == c ==> Fold(true, c) == LOWER[i]
  {
    assert forall i :: 0 <= i < 26 ==> UPPER[i] as int == 65 + i && LOWER[i] as int == 97 + i;
    if 'A' <= c <= 'Z' {
      assert c == UPPER[c as int - 65];
    }
  }

  predicate IsAlpha(c: char) {
    'A' <= c <= 'Z' || 'a' <= c <= 'z'
  }

  /** A backslash before one of these anchors the match: the start or the end of
      a word, the start or the end of the text. */
  const ANCHORS: set<char> := {'<', '>', '`', '\''}

  predicate IsWord(c: char) {
    IsAlpha(c) || '0' <= c <= '9' || c == '_'
  }

  predicate AnchorHolds(c: char, s: string, i: nat)
    requires i <= |s|
  {
    var before, after := i > 0 && IsWord(s[i - 1]), i < |s| && IsWord(s[i]);
    match c
    case '<' => !before && after
    case '>' => before && !after
    case '`' => i == 0
    case '\'' => i == |s|
    case _ => false
  }

  /** Is the char named by the text between brackets, `^` apart? */
  predicate Listed(text: string, c: char) {
    text != "" &&
    if |text| >= 3 && text[1] == '-' then text[0] <= c <= text[2] || Listed(text[3..], c)
    else c == text[0] || Listed(text[1..], c)
  }

  ghost predicate ClassHas(text: string, ignoreCase: bool, c: char) {
    var negated := text != "" && text[0] == '^';
    var chars := if negated then text[1..] else text;
    (exists d :: Fold(ignoreCase, d) == Fold(ignoreCase, c) && Listed(chars, d)) != negated
  }

  /** The white space of `\s`, one byte a char. */
  const SPACES: set<string> := {
    "\t", "\U{0B}", "\U{0C}", "\r", " ", "\U{C2}\U{85}", "\U{C2}\U{A0}", "\U{E1}\U{9A}\U{80}",
    "\U{E2}\U{80}\U{80}", "\U{E2}\U{80}\U{81}", "\U{E2}\U{80}\U{82}", "\U{E2}\U{80}\U{83}", "\U{E2}\U{80}\U{84}",
    "\U{E2}\U{80}\U{85}", "\U{E2}\U{80}\U{86}", "\U{E2}\U{80}\U{87}", "\U{E2}\U{80}\U{88}", "\U{E2}\U{80}\U{89}",
    "\U{E2}\U{80}\U{8A}", "\U{E2}\U{80}\U{A8}", "\U{E2}\U{80}\U{A9}", "\U{E2}\U{80}\U{AF}", "\U{E2}\U{81}\U{9F}",
    "\U{E3}\U{80}\U{80}"
  }

  predicate Allows(q: Quant, times: nat) {
    match q
    case Star => true
    case Plus => times >= 1
    case Opt => times <= 1
    case Interval(Exactly(n)) => times == n
    case Interval(AtLeast(n)) => times >= n
    case Interval(Between(n, m)) => n <= times <= m
  }

  /** The atom matches the chars of `s` from `i` up to `j`. */
  ghost predicate AtomMatches(a: Atom, ignoreCase: bool, s: string, i: nat, j: nat)
    decreases a, 0
  {
    i <= j <= |s| &&
    match a
    case Lit(c) => j == i + 1 && Fold(ignoreCase, s[i]) == Fold(ignoreCase, c)
    case Escaped(c) => j == i + 1 && Fold(ignoreCase, s[i]) == Fold(ignoreCase, c)
    case Space => s[i..j] in SPACES
    case Any => j == i + 1
    case Class(text) => j == i + 1 && ClassHas(text, ignoreCase, s[i])
    case Alpha => j == i + 1 && IsAlpha(s[i])
    case Group(re) => Matches(re, ignoreCase, s, i, j)
    case LineStart => i == j == 0
    case LineEnd => i == j == |s|
    case Anchor(c) => i == j && AnchorHolds(c, s, i)
    case Rep(b, q) => exists times: nat :: Allows(q, times) && Repeats(b, times, ignoreCase, s, i, j)
  }

  /** The atom matches `times` times in a row. */
  ghost predicate Repeats(a: Atom, times: nat, ignoreCase: bool, s: string, i: nat, j: nat)
    decreases a, 1, times
  {
    if times == 0 then i == j <= |s|
    else exists k: nat :: AtomMatches(a, ignoreCase, s, i, k) && Repeats(a, times - 1, ignoreCase, s, k, j)
  }

  ghost predicate BranchMatches(b: Branch, ignoreCase: bool, s: string, i: nat, j: nat) {
    match b
    case Empty => i == j <= |s|
    case Cat(a, rest) =>
      exists k: nat :: AtomMatches(a, ignoreCase, s, i, k) && BranchMatches(rest, ignoreCase, s, k, j)
  }

  ghost predicate Matches(re: Regex, ignoreCase: bool, s: string, i: nat, j: nat) {
    match re
    case Last(b) => BranchMatches(b, ignoreCase, s, i, j)
    case Or(b, others) => BranchMatches(b, ignoreCase, s, i, j) || Matches(others, ignoreCase, s, i, j)
  }

  /** The line holds a match. */
  ghost predicate LineMatches(re: Regex, ignoreCase: bool, line: string) {
    exists i: nat, j: nat :: Matches(re, ignoreCase, line, i, j)
  }
}
