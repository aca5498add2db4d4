/** Command text in general: the spellings of a token, the blanks and newlines
    between tokens, and the texts that are refused. */
module ShellText {
  import opened Wrappers
  import opened ShellTokens
  import opened ShellQuote

  // ---- The spellings of a word

  /** A char that stands for itself outside quotes. */
  predicate PlainChar(c: char) {
    '!' < c <= '~' && c !in {'"', '#', '$', '&', '\'', '(', ')', ';', '<', '>', '\\', '`', '{', '|', '}', '~'}
  }

  predicate PatternChar(c: char) {
    c in {'*', '?', '[', ']'}
  }

  /** Part of a word: bare, in single quotes, or in double quotes. */
  datatype Piece = Plain(text: string) | Single(text: string) | Double(text: string)

  predicate Proper(p: Piece) {
    match p
    case Plain(text) => text != "" && forall c :: c in text ==> PlainChar(c)
    case Single(text) => forall c :: c in text ==> ' ' <= c <= '~' && c != '\''
    case Double(text) => forall c :: c in text ==> ' ' <= c <= '~' && c !in {'$', '`', '!'}
  }

  /** A backslash before each `"` and each backslash. */
  function Escaped(text: string): string {
    if text == "" then ""
    else (if text[0] in {'"', '\\'} then ['\\', text[0]] else [text[0]]) + Escaped(text[1..])
  }

  function Spelling(p: Piece): string {
    match p
    case Plain(text) => text
    case Single(text) => "'" + text + "'"
    case Double(text) => "\"" + Escaped(text) + "\""
  }

  function Spelled(pieces: seq<Piece>): string {
    if pieces == [] then "" else Spelling(pieces[0]) + Spelled(pieces[1..])
  }

  function WordText(pieces: seq<Piece>): string {
    if pieces == [] then "" else pieces[0].text + WordText(pieces[1..])
  }

  /** A pattern char outside quotes makes the word a pattern. */
  predicate IsPattern(pieces: seq<Piece>) {
    exists i :: 0 <= i < |pieces| && pieces[i].Plain? && HasPatternChar(pieces[i].text)
  }

  predicate HasPatternChar(text: string) {
    exists c :: c in text && PatternChar(c)
  }

  /** The pieces make up the word. */
  predicate Makes(pieces: seq<Piece>, text: string, glob: bool) {
    && pieces != [] && (forall p :: p in pieces ==> Proper(p))
    && WordText(pieces) == text && 1 <= |text| < 512 && (glob <==> IsPattern(pieces))
  }

  lemma {:induction false} BareReads(text: string, rest: string, word: string, glob: bool)
    requires (forall c :: c in text ==> PlainChar(c)) && |word| + |text| < WORD_BUF
    ensures ReadWord(text + rest, word, glob) == ReadWord(rest, word + text, glob || HasPatternChar(text))
    decreases |text|
  {
    if text == "" {
      assert text + rest == rest && word + text == word;
    } else {
      assert PlainChar(text[0]) && (text + rest)[1..] == text[1..] + rest;
      BareReads(text[1..], rest, word + [text[0]], glob || PatternChar(text[0]));
      assert word + [text[0]] + text[1..] == word + text;
      assert text == [text[0]] + text[1..];
    }
  }

  lemma {:induction false} SingleReads(text: string, rest: string, word: string)
    requires (forall c :: c in text ==> ' ' <= c <= '~' && c != '\'') && |word| + |text| < WORD_BUF
    ensures ReadQuoted(text + ("'" + rest), '\'', word) == Some((rest, word + text))
    decreases |text|
  {
    if text == "" {
      assert text + ("'" + rest) == "'" + rest && ("'" + rest)[1..] == rest && word + text == word;
    } else {
      assert text[0] in text && text == [text[0]] + text[1..] && (text + ("'" + rest))[1..] == text[1..] + ("'" + rest);
      assert forall c :: c in text[1..] ==> c in text;
      SingleReads(text[1..], rest, word + [text[0]]);
      assert word + [text[0]] + text[1..] == word + text;
    }
  }

  lemma EscapedStep(c: char, s: string, word: string)
    requires ' ' <= c <= '~' && c !in {'$', '`', '!'} && |word| + 1 < WORD_BUF
    ensures ReadQuoted((if c in {'"', '\\'} then ['\\', c] else [c]) + s, '"', word) == ReadQuoted(s, '"', word + [c])
  {
    if c in {'"', '\\'} {
      var t := ['\\', c] + s;
      assert t[1..] == [c] + s && t[2..] == s;
    } else {
      assert ([c] + s)[1..] == s;
    }
  }

  lemma EscapedFirst(text: string, tail: string)
    requires text != ""
    ensures Escaped(text) + tail ==
            (if text[0] in {'"', '\\'} then ['\\', text[0]] else [text[0]]) + (Escaped(text[1..]) + tail)
  {
    Assoc(if text[0] in {'"', '\\'} then ['\\', text[0]] else [text[0]], Escaped(text[1..]), tail);
  }

  lemma {:induction false} DoubleReads(text: string, rest: string, word: string)
    requires (forall c :: c in text ==> ' ' <= c <= '~' && c !in {'$', '`', '!'}) && |word| + |text| < WORD_BUF
    ensures ReadQuoted(Escaped(text) + ("\"" + rest), '"', word) == Some((rest, word + text))
    decreases |text|
  {
    var tail := "\"" + rest;
    if text == "" {
      assert Escaped(text) + tail == tail && tail[1..] == rest && word + text == word;
    } else {
      assert text[0] in text && text == [text[0]] + text[1..] && forall c :: c in text[1..] ==> c in text;
      EscapedStep(text[0], Escaped(text[1..]) + tail, word);
      EscapedFirst(text, tail);
      hide ReadQuoted, Escaped;
      DoubleReads(text[1..], rest, word + [text[0]]);
      assert word + [text[0]] + text[1..] == word + text;
    }
  }

  /** A backslash in double quotes before any other char stands for itself. */
  lemma BackslashKept(c: char, s: string, word: string)
    requires c !in {'\0', '"', '\\', '$', '`', '\n'} && |word| + 1 < WORD_BUF
    ensures ReadQuoted(['\\', c] + s, '"', word) == ReadQuoted([c] + s, '"', word + "\\")
  {
    assert (['\\', c] + s)[1..] == [c] + s;
  }

  lemma Quoted(quote: char, inside: string, rest: string)
    ensures [quote] + inside + [quote] + rest == [quote] + (inside + ([quote] + rest))
    ensures ([quote] + (inside + ([quote] + rest)))[1..] == inside + ([quote] + rest)
  {
  }

  lemma PieceReads(p: Piece, rest: string, word: string, glob: bool)
    requires Proper(p) && |word| + |p.text| < WORD_BUF
    ensures ReadWord(Spelling(p) + rest, word, glob) ==
            ReadWord(rest, word + p.text, glob || (p.Plain? && HasPatternChar(p.text)))
  {
    match p
    case Plain(text) => BareReads(text, rest, word, glob);
    case Single(text) =>
      Quoted('\'', text, rest);
      SingleReads(text, rest, word);
    case Double(text) =>
      Quoted('"', Escaped(text), rest);
      DoubleReads(text, rest, word);
  }

  lemma PatternFirst(pieces: seq<Piece>)
    requires pieces != []
    ensures IsPattern(pieces) <==>
            (pieces[0].Plain? && HasPatternChar(pieces[0].text)) || IsPattern(pieces[1..])
  {
    hide HasPatternChar;
    if i :| 0 <= i < |pieces| && pieces[i].Plain? && HasPatternChar(pieces[i].text) {
      assert i > 0 ==> pieces[1..][i - 1] == pieces[i];
    }
    if i :| 0 <= i < |pieces[1..]| && pieces[1..][i].Plain? && HasPatternChar(pieces[1..][i].text) {
      assert pieces[i + 1] == pieces[1..][i];
    }
  }

  lemma {:induction false} PiecesRead(pieces: seq<Piece>, rest: string, word: string, glob: bool)
    requires forall p :: p in pieces ==> Proper(p)
    requires |word| + |WordText(pieces)| < WORD_BUF
    ensures ReadWord(Spelled(pieces) + rest, word, glob) ==
            ReadWord(rest, word + WordText(pieces), glob || IsPattern(pieces))
    decreases |pieces|
  {
    hide ReadWord, Proper, IsPattern, Spelling;
    if pieces == [] {
      assert Spelled(pieces) + rest == rest && word + WordText(pieces) == word;
      NoPattern();
    } else {
      var p, others := pieces[0], pieces[1..];
      assert p in pieces;
      Assoc(Spelling(p), Spelled(others), rest);
      PieceReads(p, Spelled(others) + rest, word, glob);
      PatternFirst(pieces);
      Assoc(word, p.text, WordText(others));
      PiecesRead(others, rest, word + p.text, glob || (p.Plain? && HasPatternChar(p.text)));
    }
  }

  lemma NoPattern()
    ensures !IsPattern([])
  {
  }

  // ---- The spellings of a token

  /** The text is a way to write the token. */
  ghost predicate Spells(text: string, t: Token) {
    match t
    case Word(word, glob) => exists pieces :: Makes(pieces, word, glob) && text == Spelled(pieces)
    case PipeOp => text == "|"
    case AndOp => text == "&&"
    case SemiOp => text == ";"
    case LParen => text == "("
    case RParen => text == ")"
    case RedirNull(fd) => exists gap :: Redirects(text, fd, gap)
  }

  /** Output or, with a 2, error to the null device. */
  predicate Redirects(text: string, fd: int, gap: string) {
    && (forall c :: c in gap ==> c in {' ', '\t'})
    && ((fd == 1 && (text == ">" + (gap + "/dev/null") || text == "1>" + (gap + "/dev/null"))) ||
        (fd == 2 && text == "2>" + (gap + "/dev/null")))
  }

  lemma {:induction false} GapSkipped(gap: string, rest: string)
    requires (forall c :: c in gap ==> c in {' ', '\t'}) && rest != "" && rest[0] !in {' ', '\t'}
    ensures SkipSpaces(gap + rest) == rest
    decreases |gap|
  {
    if gap == "" {
      assert gap + rest == rest;
    } else {
      assert (gap + rest)[1..] == gap[1..] + rest && gap[0] in gap;
      assert forall c :: c in gap[1..] ==> c in gap;
      GapSkipped(gap[1..], rest);
    }
  }

  lemma NullTargetReads(gap: string, after: string)
    requires (forall c :: c in gap ==> c in {' ', '\t'}) && Separated(after)
    ensures ReadRedirNull(">" + (gap + (DEV_NULL + after))) == Some(after)
  {
    var target := DEV_NULL + after;
    assert (">" + (gap + target))[1..] == gap + target && target[0] == '/';
    GapSkipped(gap, target);
    assert target[..|DEV_NULL|] == DEV_NULL && target[|DEV_NULL|..] == after;
  }

  lemma RedirectReads(text: string, fd: int, gap: string, after: string)
    requires Redirects(text, fd, gap) && Separated(after)
    ensures text != "" && !IsBlank(text[0]) && ReadToken(text + after) == Some((after, RedirNull(fd)))
  {
    var tail := ">" + (gap + (DEV_NULL + after));
    NullTargetReads(gap, after);
    hide ReadRedirNull;
    Assoc(gap, DEV_NULL, after);
    if text == ">" + (gap + "/dev/null") {
      assert text + after == tail;
    } else {
      assert text + after == [text[0]] + tail && (text + after)[1..] == tail && tail[0] == '>';
    }
  }

  /** A word starts with a char that starts no operator, blank or redirection. */
  lemma SpelledStarts(pieces: seq<Piece>, after: string)
    requires pieces != [] && (forall p :: p in pieces ==> Proper(p)) && Separated(after)
    ensures var s := Spelled(pieces);
            && s != "" && (PlainChar(s[0]) || IsQuote(s[0]))
            && (PlainChar(s[0]) && |s| > 1 ==> s[1] != '>')
  {
    var p := pieces[0];
    assert p in pieces && Proper(p);
    if p.Plain? {
      assert p.text[0] in p.text;
      if |p.text| > 1 {
        assert p.text[1] in p.text;
      } else if |pieces| > 1 {
        var q := pieces[1];
        assert q in pieces && Proper(q) && Spelled(pieces)[1] == Spelling(q)[0];
        assert q.Plain? ==> q.text[0] in q.text;
      }
    }
  }

  lemma WordReadsOn(pieces: seq<Piece>, word: string, glob: bool, after: string)
    requires Makes(pieces, word, glob) && Separated(after)
    ensures var text := Spelled(pieces);
            text != "" && !IsBlank(text[0]) && ReadToken(text + after) == Some((after, Word(word, glob)))
  {
    var text := Spelled(pieces);
    SpelledStarts(pieces, after);
    PiecesRead(pieces, after, "", false);
    assert "" + WordText(pieces) == word;
    var s := text + after;
    assert |text| == 1 ==> s[1..] == after;
    assert |text| > 1 ==> s[1] == text[1];
    hide ReadWord, Spelled, WordText, ReadRedirNull;
    assert ReadWord(s, "", false) == ReadWord(after, word, glob);
    EndOfWord(after, word, glob);
  }

  lemma EndOfWord(after: string, word: string, glob: bool)
    requires Separated(after)
    ensures ReadWord(after, word, glob) == Some((after, word, glob))
  {
  }

  /** However a token is spelled, it is read back. */
  lemma SpelledReads(text: string, t: Token, after: string)
    requires Spells(text, t) && Ends(t, after)
    ensures text != "" && !IsBlank(text[0]) && ReadToken(text + after) == Some((after, t))
  {
    hide Spelled, Makes, Redirects, ReadWord, ReadRedirNull;
    match t
    case Word(word, glob) =>
      var pieces :| Makes(pieces, word, glob) && text == Spelled(pieces);
      WordReadsOn(pieces, word, glob, after);
    case RedirNull(fd) =>
      var gap :| Redirects(text, fd, gap);
      RedirectReads(text, fd, gap, after);
    case AndOp =>
      assert (text + after)[2..] == after;
    case _ =>
      assert (text + after)[1..] == after;
  }

  // ---- Blanks and newlines between tokens

  predicate IsGap(gap: string) {
    forall c :: c in gap ==> c in {' ', '\t', '\n'}
  }

  /** The second token may stand right after the first. */
  predicate MayTouch(t: Token, u: Token) {
    match t
    case Word(_, _) => !u.Word? && !u.RedirNull?
    case RedirNull(_) => !u.Word? && !u.RedirNull?
    case PipeOp => !u.PipeOp?
    case _ => true
  }

  /** Texts of the tokens, and the gaps before each of them and after the last:
      an inner one is empty only where the tokens may touch. */
  ghost predicate Spaceable(tokens: seq<Token>, texts: seq<string>, gaps: seq<string>) {
    && |texts| == |tokens| && |gaps| == |tokens| + 1
    && (forall i :: 0 <= i < |tokens| ==> Spells(texts[i], tokens[i]))
    && (forall i :: 0 <= i < |gaps| ==> IsGap(gaps[i]))
    && (forall i :: 0 <= i < |tokens| - 1 && gaps[i + 1] == "" ==> MayTouch(tokens[i], tokens[i + 1]))
  }

  function Spaced(texts: seq<string>, gaps: seq<string>): string
    requires |gaps| == |texts| + 1
    decreases |texts|
  {
    if texts == [] then gaps[0] else gaps[0] + (texts[0] + Spaced(texts[1..], gaps[1..]))
  }

  /** A command may end with this token. */
  predicate Complete(t: Token) {
    match t
    case Word(_, _) => true
    case RParen => true
    case RedirNull(_) => true
    case PipeOp => false
    case AndOp => false
    case SemiOp => false
    case LParen => false
  }

  /** The semicolon that a gap with a newline puts after a complete token. */
  function Separator(t: Token, gap: string): seq<Token> {
    if Complete(t) && '\n' in gap then [SemiOp] else []
  }

  /** The tokens with those semicolons. */
  function WithSeparators(tokens: seq<Token>, gaps: seq<string>): seq<Token>
    requires |gaps| == |tokens| + 1
    decreases |tokens|
  {
    if tokens == [] then []
    else [tokens[0]] + Separator(tokens[0], gaps[1]) + WithSeparators(tokens[1..], gaps[1..])
  }

  function AfterTokens(before: seq<Token>, gap: string): seq<Token> {
    if before == [] then [] else Separator(before[|before| - 1], gap)
  }

  /** At most 95 tokens are kept. */
  function Kept(tokens: seq<Token>): Option<seq<Token>> {
    if |tokens| < 96 then Some(tokens) else None
  }

  lemma {:induction false} AllBlanksSkipped(gap: string, rest: string)
    requires IsGap(gap) && (rest == "" || !IsBlank(rest[0]))
    ensures SkipAllBlanks(gap + rest) == rest
    decreases |gap|
  {
    if gap == "" {
      assert gap + rest == rest;
    } else {
      assert (gap + rest)[1..] == gap[1..] + rest && gap[0] in gap;
      assert forall c :: c in gap[1..] ==> c in gap;
      AllBlanksSkipped(gap[1..], rest);
    }
  }

  /** Skipping a gap adds the semicolon, if there is one and room for it. */
  lemma {:induction false} GapRead(gap: string, rest: string, before: seq<Token>)
    requires IsGap(gap) && (rest == "" || !IsBlank(rest[0])) && |before| < 96
    ensures SkipBlanks(gap + rest, before) ==
            match Kept(before + AfterTokens(before, gap)) case None => None case Some(tokens) => Some((rest, tokens))
    decreases |gap|
  {
    assert before + [] == before;
    if gap == "" {
      assert gap + rest == rest;
    } else {
      var c, more := gap[0], gap[1..];
      assert (gap + rest)[1..] == more + rest && c in gap && gap == [c] + more;
      assert forall d :: d in more ==> d in gap;
      if c == '\n' && CanEnd(before) {
        AllBlanksSkipped(more, rest);
      } else {
        GapRead(more, rest, before);
      }
    }
  }

  /** Where the first of the tokens ends. */
  lemma EndsBefore(tokens: seq<Token>, texts: seq<string>, gaps: seq<string>)
    requires Spaceable(tokens, texts, gaps) && tokens != []
    ensures Spaceable(tokens[1..], texts[1..], gaps[1..])
    ensures Ends(tokens[0], Spaced(texts[1..], gaps[1..]))
  {
    hide Spells;
    var after := Spaced(texts[1..], gaps[1..]);
    assert IsGap(gaps[1]);
    if gaps[1] != "" {
      assert gaps[1][0] in gaps[1] && after[0] == gaps[1][0];
    } else if |tokens| > 1 {
      assert MayTouch(tokens[0], tokens[1]);
      assert after == texts[1] + Spaced(texts[2..], gaps[2..]) by {
        assert texts[1..][1..] == texts[2..] && gaps[1..][1..] == gaps[2..];
      }
      assert Spells(texts[1], tokens[1]);
      StartsToken(texts[1], tokens[1]);
      assert after[0] == texts[1][0];
    }
  }

  /** The first char of a token's text. */
  lemma StartsToken(text: string, t: Token)
    requires Spells(text, t)
    ensures text != ""
    ensures !t.Word? && !t.RedirNull? ==> text[0] in {'|', '&', ';', '(', ')'}
    ensures text[0] == '|' ==> t.PipeOp?
  {
    if t.Word? {
      var pieces :| Makes(pieces, t.text, t.glob) && text == Spelled(pieces);
      assert PlainChar(text[0]) || IsQuote(text[0]) by {
        SpelledStarts(pieces, "");
      }
    } else if t.RedirNull? {
      var gap :| Redirects(text, t.fd, gap);
    }
  }

  lemma {:induction false} SpacedReads(tokens: seq<Token>, texts: seq<string>, gaps: seq<string>, before: seq<Token>)
    requires Spaceable(tokens, texts, gaps) && |before| < 96
    ensures Tokens(Spaced(texts, gaps), before) ==
            Kept(before + AfterTokens(before, gaps[0]) + WithSeparators(tokens, gaps))
    decreases |tokens|
  {
    hide ReadToken, SkipBlanks, AfterTokens, Spells;
    var gap := gaps[0];
    assert IsGap(gap);
    var ready := before + AfterTokens(before, gap);
    if tokens == [] {
      GapRead(gap, "", before);
      assert gap + "" == gap && ready + [] == ready && before + [] == before;
      assert Spaced(texts, gaps) == gap && WithSeparators(tokens, gaps) == [];
      NoGapNoToken(before, gap);
    } else {
      var after := Spaced(texts[1..], gaps[1..]);
      EndsBefore(tokens, texts, gaps);
      assert Spells(texts[0], tokens[0]);
      SpelledReads(texts[0], tokens[0], after);
      GapRead(gap, texts[0] + after, before);
      var more := ready + [tokens[0]];
      AfterOne(ready, tokens[0], gaps[1]);
      var rest := WithSeparators(tokens[1..], gaps[1..]);
      assert ready + WithSeparators(tokens, gaps) == more + AfterTokens(more, gaps[1]) + rest;
      if |more| < 96 {
        SpacedReads(tokens[1..], texts[1..], gaps[1..], more);
      }
    }
  }

  lemma NoGapNoToken(before: seq<Token>, gap: string)
    ensures gap == "" ==> AfterTokens(before, gap) == []
  {
  }

  lemma AfterOne(before: seq<Token>, t: Token, gap: string)
    ensures AfterTokens(before + [t], gap) == Separator(t, gap)
  {
  }

  /** Tokenizing in general: however the tokens are spelled and whatever blanks
      and newlines stand between them, they come back, with a semicolon exactly
      where a newline follows a complete token; more than 95 are refused. */
  lemma TokenizeSpaced(tokens: seq<Token>, texts: seq<string>, gaps: seq<string>)
    requires Spaceable(tokens, texts, gaps)
    ensures TokensOf(Spaced(texts, gaps)) == if tokens == [] then None else Kept(WithSeparators(tokens, gaps))
  {
    hide Spells, Spaced;
    SpacedReads(tokens, texts, gaps, []);
    var all := WithSeparators(tokens, gaps);
    assert [] + AfterTokens([], gaps[0]) + all == all;
  }

  // ---- Texts that are refused

  /** The text starts with something that is no token: `||`, a single `&`, `<`, a
      redirection elsewhere, a char with a meaning of its own, a word that is too
      long, or quotes that hold such a char in double quotes or do not end. */
  ghost predicate Refused(bad: string) {
    || "||" <= bad
    || (bad != "" && bad[0] == '&' && (|bad| == 1 || bad[1] != '&'))
    || (bad != "" && bad[0] == '<')
    || (exists target :: RedirectsTo(bad, target) && !NullDevice(target))
    || (exists word, c, rest :: BadChar(bad, word, c, rest))
    || (exists quote, inside, rest :: BadQuote(bad, quote, inside, rest))
    || (|bad| >= 512 && forall i :: 0 <= i < 512 ==> PlainChar(bad[i]))
  }

  predicate RedirectsTo(bad: string, target: string) {
    bad == ">" + target || bad == "1>" + target || bad == "2>" + target
  }

  /** The target, blanks before it apart, is the null device and ends there. */
  ghost predicate NullDevice(target: string) {
    exists gap, after ::
      target == gap + ("/dev/null" + after) && (forall c :: c in gap ==> c in {' ', '\t'}) && IsMeta(Peek(after))
  }

  /** Outside quotes, a char that would have to be expanded, escaped or grouped. */
  predicate BadChar(bad: string, word: string, c: char, rest: string) {
    && bad == word + ([c] + rest) && (forall d :: d in word ==> PlainChar(d))
    && (c in {'$', '`', '!', '~', '{', '}', '#', '\\'} || c > '~' || (c < ' ' && c !in {'\0', '\t', '\n'}))
  }

  /** A quoted part with a char that cannot be in it, or without an end. */
  predicate BadQuote(bad: string, quote: char, inside: string, rest: string) {
    && IsQuote(quote) && bad == [quote] + (inside + rest)
    && (forall d :: d in inside ==> ' ' <= d <= '~' && d != '\'' && d != '"' && d != '\\' && d !in {'$', '`', '!'})
    && (rest == "" || rest[0] < ' ' || rest[0] > '~' || (quote == '"' && rest[0] in {'$', '`', '!'}))
  }

  lemma {:induction false} BareStops(word: string, rest: string, sofar: string, glob: bool)
    requires (forall c :: c in word ==> PlainChar(c)) && ReadWordFails(rest)
    ensures ReadWord(word + rest, sofar, glob).None?
    decreases |word|
  {
    if word == "" {
      assert word + rest == rest;
    } else {
      assert (word + rest)[1..] == word[1..] + rest && word[0] in word;
      assert forall c :: c in word[1..] ==> c in word;
      BareStops(word[1..], rest, sofar + [word[0]], glob || IsGlobChar(word[0]));
    }
  }

  /** No word goes on with this text. */
  predicate ReadWordFails(rest: string) {
    rest != "" && !IsMeta(rest[0]) && !IsQuote(rest[0]) && !WordAllowed(rest[0])
  }

  lemma {:induction false} TooLongStops(s: string, word: string, glob: bool)
    requires |word| < 512 <= |word| + |s| && forall i :: 0 <= i < 512 - |word| ==> PlainChar(s[i])
    ensures ReadWord(s, word, glob).None?
    decreases 512 - |word|
  {
    assert PlainChar(s[0]);
    if |word| + 1 < WORD_BUF {
      TooLongStops(s[1..], word + [s[0]], glob || IsGlobChar(s[0]));
    }
  }

  lemma {:induction false} QuoteStops(inside: string, rest: string, quote: char, word: string)
    requires BadQuote([quote] + (inside + rest), quote, inside, rest)
    ensures ReadQuoted(inside + rest, quote, word).None?
    decreases |inside|
  {
    if inside == "" {
      assert inside + rest == rest;
    } else {
      assert (inside + rest)[1..] == inside[1..] + rest && inside[0] in inside;
      assert forall c :: c in inside[1..] ==> c in inside;
      QuoteStops(inside[1..], rest, quote, word + [inside[0]]);
    }
  }

  /** What a text refused as a word starts with. */
  lemma NoOperator(bad: string)
    requires bad != "" && (PlainChar(bad[0]) || IsQuote(bad[0]) || ReadWordFails(bad) || bad[0] == '<')
    requires PlainChar(bad[0]) && |bad| > 1 ==> bad[1] != '>'
    requires ReadWord(bad, "", false).None? || ReadWord(bad, "", false).value.1 == ""
    ensures ReadToken(bad).None? && !IsBlank(bad[0])
  {
    hide ReadWord, ReadRedirNull;
  }

  lemma BadCharRefused(bad: string, word: string, c: char, rest: string)
    requires BadChar(bad, word, c, rest)
    ensures bad != "" && ReadToken(bad).None? && !IsBlank(bad[0])
  {
    assert ReadWordFails([c] + rest);
    BareStops(word, [c] + rest, "", false);
    if word != "" {
      assert word[0] in word;
      assert |word| > 1 ==> word[1] in word;
    }
    NoOperator(bad);
  }

  lemma BadQuoteRefused(bad: string, quote: char, inside: string, rest: string)
    requires BadQuote(bad, quote, inside, rest)
    ensures bad != "" && ReadToken(bad).None? && !IsBlank(bad[0])
  {
    QuoteStops(inside, rest, quote, "");
    assert bad[1..] == inside + rest;
    NoOperator(bad);
  }

  lemma NullDeviceRead(target: string)
    requires DEV_NULL <= SkipSpaces(target) && IsMeta(Peek(SkipSpaces(target)[|DEV_NULL|..]))
    ensures NullDevice(target)
  {
    var gap := SpacesBefore(target);
    var after := SkipSpaces(target)[|DEV_NULL|..];
    assert SkipSpaces(target) == "/dev/null" + after;
    assert target == gap + ("/dev/null" + after);
  }

  lemma RedirectRefused(bad: string, target: string)
    requires RedirectsTo(bad, target) && !NullDevice(target)
    ensures bad != "" && ReadToken(bad).None? && !IsBlank(bad[0])
  {
    assert (">" + target)[1..] == target;
    if DEV_NULL <= SkipSpaces(target) && IsMeta(Peek(SkipSpaces(target)[|DEV_NULL|..])) {
      NullDeviceRead(target);
    }
    if bad != ">" + target {
      assert bad[1..] == ">" + target;
    }
  }

  lemma {:induction false} SpacesBefore(target: string) returns (gap: string)
    ensures target == gap + SkipSpaces(target) && forall c :: c in gap ==> c in {' ', '\t'}
  {
    if target != "" && target[0] in {' ', '\t'} {
      var rest := SpacesBefore(target[1..]);
      gap := [target[0]] + rest;
      assert target == [target[0]] + target[1..];
    } else {
      gap := "";
    }
  }

  /** Nothing refused is read as a token. */
  lemma RefusedReads(bad: string)
    requires Refused(bad)
    ensures bad != "" && ReadToken(bad).None? && !IsBlank(bad[0])
  {
    hide BadChar, BadQuote, ReadWord, NullDevice, RedirectsTo, ReadRedirNull;
    if "||" <= bad {
      assert bad[..2] == "||" && bad[0] == '|' && bad[1] == '|';
    } else if bad != "" && bad[0] == '&' && (|bad| == 1 || bad[1] != '&') {
    } else if bad != "" && bad[0] == '<' {
      LessIsNoWord(bad);
      NoOperator(bad);
    } else if target :| RedirectsTo(bad, target) && !NullDevice(target) {
      RedirectRefused(bad, target);
    } else if word, c, rest :| BadChar(bad, word, c, rest) {
      BadCharRefused(bad, word, c, rest);
    } else if quote, inside, rest :| BadQuote(bad, quote, inside, rest) {
      BadQuoteRefused(bad, quote, inside, rest);
    } else {
      assert PlainChar(bad[0]) && PlainChar(bad[1]);
      TooLongStops(bad, "", false);
      NoOperator(bad);
    }
  }

  lemma LessIsNoWord(bad: string)
    requires bad != "" && bad[0] == '<'
    ensures ReadWord(bad, "", false) == Some((bad, "", false))
  {
  }

  lemma PeekJoined(a: string, b: string)
    ensures a != "" ==> Peek(a + b) == Peek(a)
    ensures a == "" ==> a + b == b
  {
  }

  lemma EndsBeforeBad(tokens: seq<Token>, texts: seq<string>, gaps: seq<string>, bad: string)
    requires Spaceable(tokens, texts, gaps) && tokens != []
    requires Ends(tokens[|tokens| - 1], gaps[|tokens|] + bad)
    ensures Ends(tokens[0], Spaced(texts[1..], gaps[1..]) + bad)
  {
    hide Spells;
    EndsBefore(tokens, texts, gaps);
    var after := Spaced(texts[1..], gaps[1..]);
    if |tokens| > 1 {
      assert Spells(texts[1], tokens[1]);
      StartsToken(texts[1], tokens[1]);
      assert texts[1..] != [] && after != "";
      PeekJoined(after, bad);
    } else {
      assert after == gaps[1];
    }
  }

  lemma {:induction false} RefusedAt(tokens: seq<Token>, texts: seq<string>, gaps: seq<string>, bad: string,
                                     before: seq<Token>)
    requires Spaceable(tokens, texts, gaps) && Refused(bad) && |before| < 96
    requires tokens != [] ==> Ends(tokens[|tokens| - 1], gaps[|tokens|] + bad)
    ensures Tokens(Spaced(texts, gaps) + bad, before).None?
    decreases |tokens|
  {
    hide ReadToken, SkipBlanks, AfterTokens, Spells, Refused;
    var gap := gaps[0];
    assert IsGap(gap);
    RefusedReads(bad);
    if tokens == [] {
      assert Spaced(texts, gaps) == gap;
      GapRead(gap, bad, before);
    } else {
      var after := Spaced(texts[1..], gaps[1..]);
      EndsBefore(tokens, texts, gaps);
      EndsBeforeBad(tokens, texts, gaps, bad);
      assert Spells(texts[0], tokens[0]);
      SpelledReads(texts[0], tokens[0], after + bad);
      GapRead(gap, texts[0] + (after + bad), before);
      assert Spaced(texts, gaps) + bad == gap + (texts[0] + (after + bad));
      var more := before + AfterTokens(before, gap) + [tokens[0]];
      if |more| < 96 {
        RefusedAt(tokens[1..], texts[1..], gaps[1..], bad, more);
      }
    }
  }

  /** A refused text after any tokens makes the whole command refused. */
  lemma RefusedAnywhere(tokens: seq<Token>, texts: seq<string>, gaps: seq<string>, bad: string)
    requires Spaceable(tokens, texts, gaps) && Refused(bad)
    requires tokens != [] ==> Ends(tokens[|tokens| - 1], gaps[|tokens|] + bad)
    ensures TokensOf(Spaced(texts, gaps) + bad).None?
  {
    hide Spells, Refused, Spaced;
    RefusedAt(tokens, texts, gaps, bad, []);
  }
}
