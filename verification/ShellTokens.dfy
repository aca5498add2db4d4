/** Splitting a command text into words and operators: a subset of the POSIX
    shell's token recognition and quoting (XCU 2.2 and 2.3 of POSIX.1-2017). */
module ShellTokens {
  import opened Wrappers

  const MAX_TOKENS := 96
  const WORD_BUF := 512

  datatype Token =
    | Word(text: string, glob: bool)
    | PipeOp
    | AndOp
    | SemiOp
    | LParen
    | RParen
    | RedirNull(fd: int)

  predicate Printable(c: char) {
    ' ' <= c < 127 as char
  }

  predicate WordAllowed(c: char) {
    ' ' <= c < 127 as char && c !in {'\\', '$', '`', '!', '~', '<', '{', '}', '#'}
  }

  predicate IsBlank(c: char) {
    c in {' ', '\t', '\n'}
  }

  predicate IsMeta(c: char) {
    c in {'\0', ' ', '\t', '\n', '|', '&', ';', '(', ')', '<', '>'}
  }

  predicate IsGlobChar(c: char) {
    c in {'*', '?', '[', ']'}
  }

  predicate IsQuote(c: char) {
    c in {'\'', '"'}
  }

  /** The next char, NUL at the end of the text. */
  function Peek(s: string): char {
    if s == "" then '\0' else s[0]
  }

  function Add(tokens: seq<Token>, t: Token): Option<seq<Token>> {
    if |tokens| >= MAX_TOKENS - 1 then None else Some(tokens + [t])
  }

  predicate CanEnd(tokens: seq<Token>) {
    tokens != [] && var t := tokens[|tokens| - 1]; t.Word? || t.RParen? || t.RedirNull?
  }

  // ---- What each part of the text stands for

  function SkipAllBlanks(s: string): (rest: string)
    ensures |rest| <= |s|
  {
    if s != "" && IsBlank(s[0]) then SkipAllBlanks(s[1..]) else s
  }

  /** Blanks separate tokens; a newline after something complete is a `;`. */
  function SkipBlanks(s: string, tokens: seq<Token>): (r: Option<(string, seq<Token>)>)
    ensures r.Some? ==> |r.value.0| <= |s|
  {
    if s == "" || !IsBlank(s[0]) then Some((s, tokens))
    else if s[0] == '\n' && CanEnd(tokens) then
      var added := Add(tokens, SemiOp);
      if added.None? then None else Some((SkipAllBlanks(s[1..]), added.value))
    else SkipBlanks(s[1..], tokens)
  }

  /** The rest of a quoted part, after the opening quote. */
  function ReadQuoted(s: string, quote: char, word: string): (r: Option<(string, string)>)
    ensures r.Some? ==> |r.value.0| < |s|
  {
    if s == "" then None
    else if s[0] == quote then Some((s[1..], word))
    else if !Printable(s[0]) || |word| + 1 >= WORD_BUF then None
    else if quote == '"' && s[0] in {'$', '`', '!'} then None
    else if quote == '"' && s[0] == '\\' && Peek(s[1..]) in {'\0', '$', '`', '\n'} then None
    else if quote == '"' && s[0] == '\\' && Peek(s[1..]) in {'"', '\\'} then
      ReadQuoted(s[2..], quote, word + [s[1]])
    else ReadQuoted(s[1..], quote, word + [s[0]])
  }

  /** The rest of a word; `glob` records an unquoted pattern char. */
  function ReadWord(s: string, word: string, glob: bool): (r: Option<(string, string, bool)>)
    ensures r.Some? ==> |r.value.0| <= |s|
    decreases |s|
  {
    if IsMeta(Peek(s)) then Some((s, word, glob))
    else if IsQuote(s[0]) then
      var quoted := ReadQuoted(s[1..], s[0], word);
      if quoted.None? then None else ReadWord(quoted.value.0, quoted.value.1, glob)
    else if !WordAllowed(s[0]) || |word| + 1 >= WORD_BUF then None
    else ReadWord(s[1..], word + [s[0]], glob || IsGlobChar(s[0]))
  }

  function SkipSpaces(s: string): (rest: string)
    ensures |rest| <= |s|
  {
    if s != "" && s[0] in {' ', '\t'} then SkipSpaces(s[1..]) else s
  }

  const DEV_NULL := "/dev/null"

  /** `> /dev/null` from the `>` on: what follows it. */
  function ReadRedirNull(s: string): (r: Option<string>)
    ensures r.Some? ==> |r.value| < |s|
  {
    if Peek(s) != '>' then None
    else
      var target := SkipSpaces(s[1..]);
      if DEV_NULL <= target && IsMeta(Peek(target[|DEV_NULL|..])) then Some(target[|DEV_NULL|..]) else None
  }

  /** One token at a text that starts with neither blank nor end. */
  function ReadToken(s: string): (r: Option<(string, Token)>)
    requires s != ""
    ensures r.Some? ==> |r.value.0| < |s|
  {
    if s[0] == '|' then
      if Peek(s[1..]) == '|' then None else Some((s[1..], PipeOp))
    else if s[0] == '&' then
      if Peek(s[1..]) != '&' then None else Some((s[2..], AndOp))
    else if s[0] == ';' then Some((s[1..], SemiOp))
    else if s[0] == '(' then Some((s[1..], LParen))
    else if s[0] == ')' then Some((s[1..], RParen))
    else if s[0] == '>' then
      var rest := ReadRedirNull(s);
      if rest.None? then None else Some((rest.value, RedirNull(1)))
    else if s[0] in {'1', '2'} && Peek(s[1..]) == '>' then
      var rest := ReadRedirNull(s[1..]);
      if rest.None? then None else Some((rest.value, RedirNull(if s[0] == '2' then 2 else 1)))
    else
      var w := ReadWord(s, "", false);
      if w.None? || w.value.1 == "" then None
      else
        WordConsumes(s, "", false);
        Some((w.value.0, Word(w.value.1, w.value.2)))
  }

  lemma {:induction false} WordConsumes(s: string, word: string, glob: bool)
    requires ReadWord(s, word, glob).Some?
    ensures |ReadWord(s, word, glob).value.0| == |s| ==> ReadWord(s, word, glob).value.1 == word
  {
  }

  function Tokens(s: string, tokens: seq<Token>): Option<seq<Token>>
    decreases |s|
  {
    if s == "" then Some(tokens)
    else
      var skipped := SkipBlanks(s, tokens);
      if skipped.None? then None
      else if skipped.value.0 == "" then Some(skipped.value.1)
      else
        var t := ReadToken(skipped.value.0);
        if t.None? then None
        else
          var added := Add(skipped.value.1, t.value.1);
          if added.None? then None else Tokens(t.value.0, added.value)
  }

  /** The tokens of a command; an empty command has none and is refused. */
  function TokensOf(command: string): Option<seq<Token>> {
    var r := Tokens(command, []);
    if r.Some? && r.value == [] then None else r
  }

  // ---- The scanner

  /** Reading on from a place inside a quoted part. */
  lemma QuotedStep(s: string, p: nat, quote: char, word: string)
    requires p < |s|
    ensures ReadQuoted(s[p..], quote, word) ==
            if s[p] == quote then Some((s[p + 1..], word))
            else if !Printable(s[p]) || |word| + 1 >= WORD_BUF then None
            else if quote == '"' && s[p] in {'$', '`', '!'} then None
            else if quote == '"' && s[p] == '\\' && Peek(s[p + 1..]) in {'\0', '$', '`', '\n'} then None
            else if quote == '"' && s[p] == '\\' && Peek(s[p + 1..]) in {'"', '\\'} then
              ReadQuoted(s[p + 2..], quote, word + [s[p + 1]])
            else ReadQuoted(s[p + 1..], quote, word + [s[p]])
  {
    RestOfRest(s, p, 1);
    if p + 2 <= |s| {
      RestOfRest(s, p, 2);
    }
  }

  lemma NoQuoteLeft(s: string, quote: char, word: string)
    ensures ReadQuoted(s[|s|..], quote, word).None?
  {
  }

  method ScanQuoted(s: string, start: nat, quote: char, word0: string) returns (r: Option<(nat, string)>)
    requires start <= |s| && '\0' !in s
    ensures r.Some? <==> ReadQuoted(s[start..], quote, word0).Some?
    ensures r.Some? ==> start < r.value.0 <= |s| &&
                        ReadQuoted(s[start..], quote, word0) == Some((s[r.value.0..], r.value.1))
  {
    hide ReadQuoted, Printable;
    var p, word := start, word0;
    while p < |s| && s[p] != quote
      invariant start <= p <= |s|
      invariant ReadQuoted(s[start..], quote, word0) == ReadQuoted(s[p..], quote, word)
    {
      QuotedStep(s, p, quote, word);
      if !Printable(s[p]) || |word| + 1 >= WORD_BUF {
        return None;
      }
      if quote == '"' {
        if s[p] == '$' || s[p] == '`' || s[p] == '!' {
          return None;
        }
        if s[p] == '\\' {
          if p + 1 == |s| || s[p + 1] == '$' || s[p + 1] == '`' || s[p + 1] == '\n' {
            return None;
          }
          if s[p + 1] == '"' || s[p + 1] == '\\' {
            word := word + [s[p + 1]];
            p := p + 2;
            continue;
          }
        }
      }
      word := word + [s[p]];
      p := p + 1;
    }
    if p == |s| {
      NoQuoteLeft(s, quote, word);
      return None;
    }
    QuotedStep(s, p, quote, word);
    r := Some((p + 1, word));
  }

  method ScanWord(s: string, start: nat) returns (r: Option<(nat, string, bool)>)
    requires start <= |s| && '\0' !in s
    ensures r.Some? <==> ReadWord(s[start..], "", false).Some?
    ensures r.Some? ==> start <= r.value.0 <= |s| &&
                        ReadWord(s[start..], "", false) == Some((s[r.value.0..], r.value.1, r.value.2))
  {
    var p, word, glob := start, "", false;
    while p < |s| && !IsMeta(s[p])
      invariant start <= p <= |s|
      invariant ReadWord(s[start..], "", false) == ReadWord(s[p..], word, glob)
      decreases |s| - p
    {
      if IsQuote(s[p]) {
        var quoted := ScanQuoted(s, p + 1, s[p], word);
        if quoted.None? {
          return None;
        }
        p, word := quoted.value.0, quoted.value.1;
        continue;
      }
      if !WordAllowed(s[p]) || |word| + 1 >= WORD_BUF {
        return None;
      }
      glob := glob || IsGlobChar(s[p]);
      word := word + [s[p]];
      p := p + 1;
    }
    r := Some((p, word, glob));
  }

  method ScanRedirNull(s: string, start: nat) returns (r: Option<nat>)
    requires start <= |s| && '\0' !in s
    ensures r.Some? <==> ReadRedirNull(s[start..]).Some?
    ensures r.Some? ==> start < r.value <= |s| && ReadRedirNull(s[start..]) == Some(s[r.value..])
  {
    if start == |s| || s[start] != '>' {
      return None;
    }
    var p := start + 1;
    while p < |s| && (s[p] == ' ' || s[p] == '\t')
      invariant start < p <= |s|
      invariant SkipSpaces(s[start + 1..]) == SkipSpaces(s[p..])
    {
      p := p + 1;
    }
    if !(DEV_NULL <= s[p..]) {
      return None;
    }
    p := p + |DEV_NULL|;
    if p < |s| && !IsMeta(s[p]) {
      return None;
    }
    r := Some(p);
  }

  /** Skipping blanks from a place on. */
  lemma BlanksStep(s: string, p: nat, tokens: seq<Token>)
    requires p <= |s|
    ensures SkipBlanks(s[p..], tokens) ==
            if p == |s| || !IsBlank(s[p]) then Some((s[p..], tokens))
            else if s[p] == '\n' && CanEnd(tokens) then
              var added := Add(tokens, SemiOp);
              if added.None? then None else Some((SkipAllBlanks(s[p + 1..]), added.value))
            else SkipBlanks(s[p + 1..], tokens)
    ensures SkipAllBlanks(s[p..]) == if p == |s| || !IsBlank(s[p]) then s[p..] else SkipAllBlanks(s[p + 1..])
  {
    hide CanEnd, Add, IsBlank;
    if p < |s| {
      RestOfRest(s, p, 1);
    }
  }

  method ScanBlanks(s: string, start: nat, tokens0: seq<Token>) returns (r: Option<(nat, seq<Token>)>)
    requires start <= |s|
    ensures r.Some? <==> SkipBlanks(s[start..], tokens0).Some?
    ensures r.Some? ==> start <= r.value.0 <= |s| &&
                        SkipBlanks(s[start..], tokens0) == Some((s[r.value.0..], r.value.1))
  {
    hide SkipBlanks, SkipAllBlanks, IsBlank, CanEnd, Add;
    var p := start;
    while p < |s| && IsBlank(s[p])
      invariant start <= p <= |s|
      invariant SkipBlanks(s[start..], tokens0) == SkipBlanks(s[p..], tokens0)
    {
      BlanksStep(s, p, tokens0);
      if s[p] == '\n' && CanEnd(tokens0) {
        var added := Add(tokens0, SemiOp);
        if added.None? {
          return None;
        }
        p := p + 1;
        ghost var after := p;
        while p < |s| && IsBlank(s[p])
          invariant after <= p <= |s|
          invariant SkipAllBlanks(s[after..]) == SkipAllBlanks(s[p..])
        {
          BlanksStep(s, p, tokens0);
          p := p + 1;
        }
        BlanksStep(s, p, tokens0);
        return Some((p, added.value));
      }
      p := p + 1;
    }
    BlanksStep(s, p, tokens0);
    r := Some((p, tokens0));
  }

  /** One token at `start`. */
  method ScanToken(s: string, start: nat) returns (r: Option<(nat, Token)>)
    requires start < |s| && '\0' !in s
    ensures r.Some? <==> ReadToken(s[start..]).Some?
    ensures r.Some? ==> start < r.value.0 <= |s| && ReadToken(s[start..]) == Some((s[r.value.0..], r.value.1))
  {
    var c, next := s[start], if start + 1 < |s| then s[start + 1] else '\0';
    assert s[start..][1..] == s[start + 1..];
    if c == '|' {
      return if next == '|' then None else Some((start + 1, PipeOp));
    }
    if c == '&' {
      return if next != '&' then None else Some((start + 2, AndOp));
    }
    if c == ';' {
      return Some((start + 1, SemiOp));
    }
    if c == '(' {
      return Some((start + 1, LParen));
    }
    if c == ')' {
      return Some((start + 1, RParen));
    }
    if c == '>' {
      var end := ScanRedirNull(s, start);
      return if end.None? then None else Some((end.value, RedirNull(1)));
    }
    if (c == '1' || c == '2') && next == '>' {
      var end := ScanRedirNull(s, start + 1);
      return if end.None? then None else Some((end.value, RedirNull(if c == '2' then 2 else 1)));
    }
    var w := ScanWord(s, start);
    if w.None? || w.value.1 == "" {
      return None;
    }
    WordConsumes(s[start..], "", false);
    return Some((w.value.0, Word(w.value.1, w.value.2)));
  }

  method Tokenize(command: string) returns (r: Option<seq<Token>>)
    requires '\0' !in command
    ensures r == TokensOf(command)
  {
    var tokens: seq<Token> := [];
    var p := 0;
    assert command[0..] == command;
    while p < |command|
      invariant 0 <= p <= |command|
      invariant Tokens(command, []) == Tokens(command[p..], tokens)
      decreases |command| - p
    {
      var skipped := ScanBlanks(command, p, tokens);
      if skipped.None? {
        return None;
      }
      p, tokens := skipped.value.0, skipped.value.1;
      if p == |command| {
        break;
      }
      var t := ScanToken(command, p);
      if t.None? {
        return None;
      }
      var added := Add(tokens, t.value.1);
      if added.None? {
        return None;
      }
      p, tokens := t.value.0, added.value;
    }
    assert Tokens(command, []) == Some(tokens);
    r := if tokens == [] then None else Some(tokens);
  }
}
