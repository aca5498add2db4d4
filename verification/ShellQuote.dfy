/** Writing tokens as command text the way Python's shlex.quote writes words, and
    the proof that the tokenizer reads them back. */
module ShellQuote {
  import opened Wrappers
  import opened ShellTokens

  predicate SafeChar(c: char) {
    || 'a' <= c <= 'z' || 'A' <= c <= 'Z' || '0' <= c <= '9'
    || c in {'@', '%', '_', '+', '=', ':', ',', '.', '/', '-'}
  }

  predicate AllSafe(text: string) {
    forall c :: c in text ==> SafeChar(c)
  }

  const ESCAPED_QUOTE := "'\"'\"'"

  /** Each `'` closes the quotes, stands in double quotes, and reopens them. */
  function Escape(text: string): string {
    if text == "" then ""
    else (if text[0] == '\'' then ESCAPED_QUOTE else [text[0]]) + Escape(text[1..])
  }

  function Quote(text: string): string {
    if text != "" && AllSafe(text) then text else "'" + Escape(text) + "'"
  }

  /** A word that can be written without quotes as a shell pattern. */
  predicate RawPattern(text: string) {
    && (forall c :: c in text ==> WordAllowed(c) && !IsMeta(c) && !IsQuote(c))
    && exists c :: c in text && IsGlobChar(c)
  }

  predicate Writable(t: Token) {
    match t
    case Word(text, glob) =>
      && 1 <= |text| < WORD_BUF
      && if glob then RawPattern(text) else forall c :: c in text ==> Printable(c)
    case RedirNull(fd) => fd == 1 || fd == 2
    case _ => true
  }

  function Write(t: Token): string {
    match t
    case Word(text, glob) => if glob then text else Quote(text)
    case PipeOp => "|"
    case AndOp => "&&"
    case SemiOp => ";"
    case LParen => "("
    case RParen => ")"
    case RedirNull(fd) => (if fd == 2 then "2>" else "1>") + DEV_NULL
  }

  function WriteAll(tokens: seq<Token>): string {
    if tokens == [] then ""
    else if |tokens| == 1 then Write(tokens[0])
    else Write(tokens[0]) + (" " + WriteAll(tokens[1..]))
  }

  /** The text ends, or a blank or an operator follows. */
  predicate Separated(after: string) {
    Peek(after) in {'\0', ' ', '\t', '\n', '|', '&', ';', '(', ')'}
  }

  /** The token ends where `after` starts. */
  predicate Ends(t: Token, after: string) {
    if t.Word? || t.RedirNull? then Separated(after) else t.PipeOp? ==> Peek(after) != '|'
  }

  // ---- Reading quoted words

  /** Reading goes on inside single quotes. */
  function InsideQuotes(s: string, word: string, glob: bool): Option<(string, string, bool)> {
    var quoted := ReadQuoted(s, '\'', word);
    if quoted.None? then None else ReadWord(quoted.value.0, quoted.value.1, glob)
  }

  lemma InsideStep(c: char, s: string, word: string, glob: bool)
    requires Printable(c) && c != '\'' && |word| + 1 < WORD_BUF
    ensures InsideQuotes([c] + s, word, glob) == InsideQuotes(s, word + [c], glob)
  {
    assert ([c] + s)[1..] == s;
  }

  lemma QuoteOpens(s: string, word: string, glob: bool)
    ensures ReadWord("'" + s, word, glob) == InsideQuotes(s, word, glob)
  {
    assert ("'" + s)[1..] == s;
  }

  lemma DoubleQuotedQuote(s: string, word: string, glob: bool)
    requires |word| + 1 < WORD_BUF
    ensures ReadWord("\"'\"" + s, word, glob) == ReadWord(s, word + "'", glob)
  {
    var s0 := "\"'\"" + s;
    assert s0[1..] == "'\"" + s;
    assert s0[1..][1..] == "\"" + s;
    assert s0[1..][1..][1..] == s;
    assert ReadQuoted(s0[1..][1..], '"', word + ['\'']) == Some((s, word + ['\'']));
  }

  lemma InsideQuoteStep(s: string, word: string, glob: bool)
    requires |word| + 1 < WORD_BUF
    ensures InsideQuotes(ESCAPED_QUOTE + s, word, glob) == InsideQuotes(s, word + "'", glob)
  {
    var tail := "\"'\"" + ("'" + s);
    assert ESCAPED_QUOTE + s == "'" + tail;
    assert ("'" + tail)[1..] == tail;
    DoubleQuotedQuote("'" + s, word, glob);
    QuoteOpens(s, word + "'", glob);
  }

  lemma InsideEnds(after: string, word: string, glob: bool)
    requires Separated(after)
    ensures InsideQuotes("'" + after, word, glob) == Some((after, word, glob))
  {
    assert ("'" + after)[1..] == after;
  }

  lemma {:induction false} InsideReads(text: string, after: string, word: string, glob: bool)
    requires (forall c :: c in text ==> Printable(c)) && |word| + |text| < WORD_BUF && Separated(after)
    ensures InsideQuotes(Escape(text) + ("'" + after), word, glob) == Some((after, word + text, glob))
    decreases |text|
  {
    hide InsideQuotes;
    var tail := "'" + after;
    if text == "" {
      assert Escape(text) + tail == tail;
      InsideEnds(after, word, glob);
      assert word + text == word;
    } else {
      var rest := Escape(text[1..]) + tail;
      assert word + [text[0]] + text[1..] == word + text;
      if text[0] == '\'' {
        assert Escape(text) + tail == ESCAPED_QUOTE + rest;
        InsideQuoteStep(rest, word, glob);
        assert word + "'" == word + [text[0]];
      } else {
        assert Escape(text) + tail == [text[0]] + rest;
        InsideStep(text[0], rest, word, glob);
      }
      InsideReads(text[1..], after, word + [text[0]], glob);
    }
  }

  predicate AnyGlob(text: string) {
    exists c :: c in text && IsGlobChar(c)
  }

  lemma {:induction false} PlainReads(text: string, after: string, word: string, glob: bool)
    requires forall c :: c in text ==> WordAllowed(c) && !IsMeta(c) && !IsQuote(c)
    requires |word| + |text| < WORD_BUF && Separated(after)
    ensures ReadWord(text + after, word, glob) == Some((after, word + text, glob || AnyGlob(text)))
    decreases |text|
  {
    if text == "" {
      assert text + after == after && word + text == word;
    } else {
      assert (text + after)[1..] == text[1..] + after;
      assert text == [text[0]] + text[1..];
      PlainReads(text[1..], after, word + [text[0]], glob || IsGlobChar(text[0]));
      assert word + [text[0]] + text[1..] == word + text;
    }
  }

  lemma RawWordReads(text: string, after: string)
    requires (forall c :: c in text ==> WordAllowed(c) && !IsMeta(c) && !IsQuote(c))
    requires 1 <= |text| < WORD_BUF && Separated(after)
    ensures ReadToken(text + after) == Some((after, Word(text, AnyGlob(text))))
    ensures !IsBlank(text[0])
  {
    hide ReadWord;
    var s := text + after;
    assert text[0] in text;
    if |text| > 1 {
      assert text[1] in text;
      assert s[1..][0] == text[1];
    } else {
      assert s[1..] == after;
    }
    PlainReads(text, after, "", false);
    assert "" + text == text;
  }

  /** A text that starts with a quote is read as a word. */
  lemma QuoteStartsWord(s: string)
    requires s != "" && IsQuote(s[0])
    ensures var w := ReadWord(s, "", false);
            w.Some? && w.value.1 != "" ==> ReadToken(s) == Some((w.value.0, Word(w.value.1, w.value.2)))
  {
    hide ReadWord, ReadRedirNull;
  }

  lemma Between(quote: string, inside: string, after: string)
    ensures quote + inside + quote + after == quote + (inside + (quote + after))
  {
  }

  lemma QuotedWordReads(text: string, after: string)
    requires (forall c :: c in text ==> Printable(c)) && 1 <= |text| < WORD_BUF && Separated(after)
    ensures ReadToken("'" + Escape(text) + "'" + after) == Some((after, Word(text, false)))
  {
    hide InsideQuotes, Escape, ReadWord, ReadToken;
    var tail := Escape(text) + ("'" + after);
    assert "'" + Escape(text) + "'" + after == "'" + tail by {
      Between("'", Escape(text), after);
    }
    assert ReadWord("'" + tail, "", false) == Some((after, text, false)) by {
      QuoteOpens(tail, "", false);
      InsideReads(text, after, "", false);
      assert "" + text == text;
    }
    QuoteStartsWord("'" + tail);
  }

  lemma WordReads(t: Token, after: string)
    requires t.Word? && Writable(t) && Separated(after)
    ensures ReadToken(Write(t) + after) == Some((after, t))
    ensures Write(t) != "" && !IsBlank(Write(t)[0])
  {
    hide ReadToken;
    if t.glob || AllSafe(t.text) {
      forall c | c in t.text
        ensures WordAllowed(c) && !IsMeta(c) && !IsQuote(c)
        ensures !t.glob ==> !IsGlobChar(c)
      {
        assert t.glob || SafeChar(c);
      }
      RawWordReads(t.text, after);
    } else {
      QuotedWordReads(t.text, after);
    }
  }

  lemma NullReads(after: string)
    requires Separated(after)
    ensures ReadRedirNull(">" + (DEV_NULL + after)) == Some(after)
  {
    var target := DEV_NULL + after;
    assert (">" + target)[1..] == target;
    assert target[0] == '/' && SkipSpaces(target) == target;
    assert target[..|DEV_NULL|] == DEV_NULL;
    assert target[|DEV_NULL|..] == after;
  }

  lemma RedirReads(fd: int, after: string)
    requires (fd == 1 || fd == 2) && Separated(after)
    ensures ReadToken(Write(RedirNull(fd)) + after) == Some((after, RedirNull(fd)))
  {
    hide ReadRedirNull;
    var tail := ">" + (DEV_NULL + after);
    var s := (if fd == 2 then "2" else "1") + tail;
    assert Write(RedirNull(fd)) + after == s;
    assert s[1..] == tail && tail[0] == '>';
    NullReads(after);
  }

  /** Every written token is read back, whatever may follow it. */
  lemma TokenReads(t: Token, after: string)
    requires Writable(t) && Ends(t, after)
    ensures Write(t) != "" && !IsBlank(Write(t)[0])
    ensures ReadToken(Write(t) + after) == Some((after, t))
  {
    var s := Write(t) + after;
    match t
    case Word(text, glob) =>
      WordReads(t, after);
    case RedirNull(fd) =>
      RedirReads(fd, after);
    case AndOp =>
      assert s[2..] == after;
    case _ =>
      assert s[1..] == after;
  }

  lemma {:induction false} AllTokensRead(tokens: seq<Token>, before: seq<Token>)
    requires forall t :: t in tokens ==> Writable(t)
    requires |before| + |tokens| < MAX_TOKENS
    ensures Tokens(WriteAll(tokens), before) == Some(before + tokens)
    ensures Tokens(" " + WriteAll(tokens), before) == Some(before + tokens)
    decreases |tokens|
  {
    hide ReadToken, Write, Writable, SkipBlanks;
    var s := WriteAll(tokens);
    if tokens == [] {
      assert before + tokens == before;
      BlanksSkipped("", before);
    } else {
      var after := if |tokens| == 1 then "" else " " + WriteAll(tokens[1..]);
      TokenReads(tokens[0], after);
      assert s == Write(tokens[0]) + after && s[0] == Write(tokens[0])[0];
      BlanksSkipped(s, before);
      AllTokensRead(tokens[1..], before + [tokens[0]]);
      Assoc(before, [tokens[0]], tokens[1..]);
      assert [tokens[0]] + tokens[1..] == tokens;
    }
  }

  lemma BlanksSkipped(s: string, before: seq<Token>)
    requires s == "" || !IsBlank(s[0])
    ensures SkipBlanks(s, before) == Some((s, before)) && SkipBlanks(" " + s, before) == Some((s, before))
  {
    assert (" " + s)[1..] == s;
  }

  /** Tokenizing undoes writing, for every list of writable tokens. */
  lemma TokenizeWritten(tokens: seq<Token>)
    requires tokens != [] && |tokens| < MAX_TOKENS && forall t :: t in tokens ==> Writable(t)
    ensures TokensOf(WriteAll(tokens)) == Some(tokens)
  {
    AllTokensRead(tokens, []);
    assert [] + tokens == tokens;
  }

  // ---- Word lists

  function JoinQuoted(words: seq<string>): string {
    if words == [] then ""
    else if |words| == 1 then Quote(words[0])
    else Quote(words[0]) + (" " + JoinQuoted(words[1..]))
  }

  function PlainWords(words: seq<string>): seq<Token> {
    seq(|words|, i requires 0 <= i < |words| => Word(words[i], false))
  }

  lemma {:induction false} JoinIsWriting(words: seq<string>)
    ensures JoinQuoted(words) == WriteAll(PlainWords(words))
  {
    if words != [] {
      assert PlainWords(words)[1..] == PlainWords(words[1..]);
      JoinIsWriting(words[1..]);
    }
  }

  /** Tokenizing undoes shell quoting: the words come back, none of them marked
      as a pattern. */
  lemma TokenizeQuotedWords(words: seq<string>)
    requires 1 <= |words| < MAX_TOKENS
    requires forall w :: w in words ==> 1 <= |w| < WORD_BUF && forall c :: c in w ==> Printable(c)
    ensures TokensOf(JoinQuoted(words)) == Some(PlainWords(words))
  {
    JoinIsWriting(words);
    forall t | t in PlainWords(words)
      ensures Writable(t)
    {
      assert t.text in words;
    }
    TokenizeWritten(PlainWords(words));
  }
}
