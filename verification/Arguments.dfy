/** The operand forms of the line filters: `sed -n` print scripts and the line
    counts of `head` and `tail`. */
module Arguments {
  import opened Wrappers
  import opened Lines
  import opened Filters

  /** A number from 1 to 10000 at `i`, and where it ends. */
  function ParseNumberFrom(s: string, i: nat, parsed: nat): (r: Option<(nat, nat)>)
    requires i <= |s|
    ensures r.Some? ==> i <= r.value.1 <= |s| && 1 <= r.value.0 <= MAX_LINE_NUMBER
    decreases |s| - i
  {
    if i < |s| && IsDigit(s[i]) then
      var parsed' := parsed * 10 + DigitValue(s[i]);
      if parsed' > MAX_LINE_NUMBER then None else ParseNumberFrom(s, i + 1, parsed')
    else if 1 <= parsed <= MAX_LINE_NUMBER then Some((parsed, i))
    else None
  }

  function ParseNumber(s: string, i: nat): (r: Option<(nat, nat)>)
    requires i <= |s|
    ensures r.Some? ==> i < r.value.1 <= |s| && 1 <= r.value.0 <= MAX_LINE_NUMBER
  {
    if i < |s| && IsDigit(s[i]) then
      ParseNumberFrom(s, i + 1, DigitValue(s[i]))
    else None
  }

  predicate CharAt(s: string, i: nat, c: char) {
    i < |s| && s[i] == c
  }

  /** One range, `a,bp` or `ap`, and where it ends. */
  function ParseRange(s: string, i: nat): (r: Option<(Range, nat)>)
    requires i <= |s|
    ensures r.Some? ==> i < r.value.1 <= |s|
  {
    var start := ParseNumber(s, i);
    if start.None? then None
    else
      var end := if CharAt(s, start.value.1, ',') then ParseNumber(s, start.value.1 + 1) else start;
      if end.None? then None
      else if CharAt(s, end.value.1, 'p') && start.value.0 <= end.value.0 &&
              end.value.0 - start.value.0 <= MAX_RANGE_SPAN
      then Some((Range(start.value.0, end.value.0), end.value.1 + 1))
      else None
  }

  /** Ranges separated by `;`, at most eight. */
  function ParseRanges(s: string, i: nat, sel: Selection): Option<Selection>
    requires i <= |s|
    decreases |s| - i
  {
    if i == |s| || |sel| >= MAX_RANGES then None
    else
      var range := ParseRange(s, i);
      if range.None? then None
      else
        var (r, next) := range.value;
        if next == |s| then Some(sel + [r])
        else if s[next] != ';' || next + 1 == |s| then None
        else ParseRanges(s, next + 1, sel + [r])
  }

  function ParseSelection(s: string): Option<Selection> {
    ParseRanges(s, 0, [])
  }

  method ParseSedPrintSelection(expr: string) returns (r: Option<Selection>)
    ensures r == ParseSelection(expr)
  {
    var sel: Selection := [];
    var p := 0;
    while p < |expr|
      invariant 0 <= p <= |expr|
      invariant ParseRanges(expr, p, sel) == ParseSelection(expr)
      decreases |expr| - p
    {
      if |sel| >= MAX_RANGES {
        return None;
      }
      var start := ParseNumber(expr, p);
      if start.None? {
        return None;
      }
      p := start.value.1;
      var end := start;
      if CharAt(expr, p, ',') {
        end := ParseNumber(expr, p + 1);
        if end.None? {
          return None;
        }
        p := end.value.1;
      }
      if !CharAt(expr, p, 'p') || end.value.0 < start.value.0 || end.value.0 - start.value.0 > MAX_RANGE_SPAN {
        return None;
      }
      sel := sel + [Range(start.value.0, end.value.0)];
      p := p + 1;
      if p == |expr| {
        return Some(sel);
      }
      if expr[p] != ';' || p + 1 == |expr| {
        return None;
      }
      p := p + 1;
    }
    r := None;
  }

  // ---- Round trip

  predicate PrintableRange(r: Range) {
    1 <= r.start <= r.end <= MAX_LINE_NUMBER && r.end - r.start <= MAX_RANGE_SPAN
  }

  function PrintRange(r: Range): string
    requires PrintableRange(r)
  {
    Decimal(r.start) + "," + Decimal(r.end) + "p"
  }

  function PrintSelection(sel: Selection): string
    requires forall r :: r in sel ==> PrintableRange(r)
  {
    if sel == [] then ""
    else if |sel| == 1 then PrintRange(sel[0])
    else PrintRange(sel[0]) + ";" + PrintSelection(sel[1..])
  }

  function DecimalValue(digits: string, parsed: nat): nat
    requires forall c :: c in digits ==> IsDigit(c)
  {
    if digits == "" then parsed else DecimalValue(digits[1..], parsed * 10 + DigitValue(digits[0]))
  }

  lemma {:induction false} DecimalValueAppend(a: string, c: char, parsed: nat)
    requires (forall d :: d in a ==> IsDigit(d)) && IsDigit(c)
    ensures DecimalValue(a + [c], parsed) == DecimalValue(a, parsed) * 10 + DigitValue(c)
  {
    if a == "" {
      assert (a + [c])[1..] == "";
    } else {
      assert (a + [c])[1..] == a[1..] + [c];
      DecimalValueAppend(a[1..], c, parsed * 10 + DigitValue(a[0]));
    }
  }

  lemma {:induction false} DecimalValueOfDecimal(n: nat)
    ensures DecimalValue(Decimal(n), 0) == n
  {
    if n >= 10 {
      DecimalValueOfDecimal(n / 10);
      DecimalValueAppend(Decimal(n / 10), DigitChar(n % 10), 0);
    }
  }

  lemma {:induction false} DecimalValueGrows(digits: string, parsed: nat)
    requires forall c :: c in digits ==> IsDigit(c)
    ensures DecimalValue(digits, parsed) >= parsed
  {
    if digits != "" {
      DecimalValueGrows(digits[1..], parsed * 10 + DigitValue(digits[0]));
    }
  }

  lemma {:induction false} ParsesDigits(s: string, i: nat, digits: string, parsed: nat)
    requires i + |digits| < |s| && s[i..i + |digits|] == digits && !IsDigit(s[i + |digits|])
    requires forall c :: c in digits ==> IsDigit(c)
    requires 1 <= DecimalValue(digits, parsed) <= MAX_LINE_NUMBER
    ensures ParseNumberFrom(s, i, parsed) == Some((DecimalValue(digits, parsed), i + |digits|))
    decreases |digits|
  {
    if digits != "" {
      assert s[i] == digits[0];
      var parsed' := parsed * 10 + DigitValue(digits[0]);
      DecimalValueGrows(digits[1..], parsed');
      assert s[i + 1..i + 1 + |digits[1..]|] == digits[1..];
      ParsesDigits(s, i + 1, digits[1..], parsed');
    }
  }

  /** A text of digits for a number a range may name. */
  ghost predicate NumberText(text: string, n: int) {
    text != "" && (forall c :: c in text ==> IsDigit(c)) && DecimalValue(text, 0) == n && 1 <= n <= MAX_LINE_NUMBER
  }

  /** `a,bp`, or `ap` for a single line. */
  ghost predicate RangeText(text: string, r: Range) {
    r.start <= r.end <= r.start + MAX_RANGE_SPAN && exists a, b :: RangeOf(text, r, a, b)
  }

  ghost predicate RangeOf(text: string, r: Range, a: string, b: string) {
    && NumberText(a, r.start) && NumberText(b, r.end)
    && (text == a + "," + b + "p" || (text == a + "p" && r.start == r.end))
  }

  /** Ranges one after the other, with `;` between them. */
  ghost predicate Prints(text: string, sel: Selection)
    decreases |sel|
  {
    && sel != []
    && if |sel| == 1 then RangeText(text, sel[0])
       else exists piece, rest :: text == piece + ";" + rest && RangeText(piece, sel[0]) && Prints(rest, sel[1..])
  }

  lemma ParsesNumber(s: string, i: nat, text: string, n: nat)
    requires NumberText(text, n)
    requires i + |text| < |s| && s[i..i + |text|] == text && !IsDigit(s[i + |text|])
    ensures ParseNumber(s, i) == Some((n, i + |text|))
  {
    assert s[i] == text[0] && text[0] in text;
    assert s[i + 1..i + 1 + |text[1..]|] == text[1..];
    ParsesDigits(s, i + 1, text[1..], DigitValue(text[0]));
  }

  /** A decimal number in range is read up to the first other char. */
  lemma ParsesDecimal(s: string, i: nat, n: nat)
    requires i + |Decimal(n)| < |s| && s[i..i + |Decimal(n)|] == Decimal(n) && !IsDigit(s[i + |Decimal(n)|])
    requires 1 <= n <= MAX_LINE_NUMBER
    ensures ParseNumber(s, i) == Some((n, i + |Decimal(n)|))
  {
    DecimalValueOfDecimal(n);
    ParsesNumber(s, i, Decimal(n), n);
  }

  lemma RangePieces(before: string, a: string, b: string, after: string)
    ensures var s, i := before + (a + "," + b + "p") + after, |before|;
            var j := i + |a| + 1;
            && j + |b| < |s| && s[i..i + |a|] == a && s[j - 1] == ',' && s[j..j + |b|] == b && s[j + |b|] == 'p'
  {
  }

  lemma SinglePieces(before: string, a: string, after: string)
    ensures var s, i := before + (a + "p") + after, |before|;
            i + |a| < |s| && s[i..i + |a|] == a && s[i + |a|] == 'p'
  {
  }

  /** A range is parsed from its numbers and the chars after them. */
  lemma RangeAt(s: string, i: nat, mid: nat, end: nat, r: Range)
    requires i <= |s| && ParseNumber(s, i) == Some((r.start, mid)) && CharAt(s, end, 'p')
    requires r.start <= r.end <= r.start + MAX_RANGE_SPAN
    requires if CharAt(s, mid, ',') then ParseNumber(s, mid + 1) == Some((r.end, end))
             else mid == end && r.start == r.end
    ensures ParseRange(s, i) == Some((r, end + 1))
  {
    hide ParseNumber;
  }

  lemma ParsesRange(before: string, text: string, r: Range, after: string)
    requires RangeText(text, r)
    ensures text != "" && ParseRange(before + text + after, |before|) == Some((r, |before + text|))
  {
    hide ParseNumber, NumberText, ParseRange;
    var s, i := before + text + after, |before|;
    var a, b :| RangeOf(text, r, a, b);
    NumberPositive(a, r.start);
    NumberPositive(b, r.end);
    if text == a + "," + b + "p" {
      RangePieces(before, a, b, after);
      ParsesNumber(s, i, a, r.start);
      ParsesNumber(s, i + |a| + 1, b, r.end);
      RangeAt(s, i, i + |a|, i + |a| + 1 + |b|, r);
    } else {
      SinglePieces(before, a, after);
      ParsesNumber(s, i, a, r.start);
      RangeAt(s, i, i + |a|, i + |a|, r);
    }
  }

  lemma NumberPositive(text: string, n: int)
    requires NumberText(text, n)
    ensures n >= 1
  {
  }

  lemma ParsesRangeThen(s: string, i: nat, r: Range, next: nat, sel: Selection)
    requires i < |s| && |sel| < MAX_RANGES && ParseRange(s, i) == Some((r, next)) && next <= |s|
    ensures next == |s| ==> ParseRanges(s, i, sel) == Some(sel + [r])
    ensures next + 1 < |s| && s[next] == ';' ==> ParseRanges(s, i, sel) == ParseRanges(s, next + 1, sel + [r])
  {
  }

  lemma Glue(before: string, piece: string, rest: string)
    ensures before + (piece + ";" + rest) == before + piece + (";" + rest) == (before + piece + ";") + rest
    ensures (before + (piece + ";" + rest))[|before + piece|] == ';'
  {
  }

  lemma {:induction false} ParsesRanges(before: string, text: string, sel: Selection, sofar: Selection)
    requires Prints(text, sel) && |sofar| + |sel| <= MAX_RANGES
    ensures text != "" && ParseRanges(before + text, |before|, sofar) == Some(sofar + sel)
    decreases |sel|
  {
    hide ParseRange, RangeText, ParseRanges;
    var s := before + text;
    if |sel| == 1 {
      assert s == before + text + "";
      ParsesRange(before, text, sel[0], "");
      ParsesRangeThen(s, |before|, sel[0], |s|, sofar);
      assert sel == [sel[0]];
    } else {
      var piece, rest :| text == piece + ";" + rest && RangeText(piece, sel[0]) && Prints(rest, sel[1..]);
      Glue(before, piece, rest);
      ParsesRange(before, piece, sel[0], ";" + rest);
      ParsesRanges(before + piece + ";", rest, sel[1..], sofar + [sel[0]]);
      var next := |before + piece|;
      ParsesRangeThen(s, |before|, sel[0], next, sofar);
      assert |before + piece + ";"| == next + 1;
      assert (sofar + [sel[0]]) + sel[1..] == sofar + sel;
      assert ParseRanges(s, next + 1, sofar + [sel[0]]) == Some(sofar + sel);
      assert ParseRanges(s, |before|, sofar) == ParseRanges(s, next + 1, sofar + [sel[0]]);
    }
  }

  // ---- What is parsed is a script

  lemma {:induction false} DigitsParsed(s: string, i: nat, parsed: nat)
    requires i <= |s| && ParseNumberFrom(s, i, parsed).Some?
    ensures var (n, end) := ParseNumberFrom(s, i, parsed).value;
            && (forall c :: c in s[i..end] ==> IsDigit(c))
            && DecimalValue(s[i..end], parsed) == n
    decreases |s| - i
  {
    if i < |s| && IsDigit(s[i]) {
      var parsed' := parsed * 10 + DigitValue(s[i]);
      DigitsParsed(s, i + 1, parsed');
      var end := ParseNumberFrom(s, i, parsed).value.1;
      assert s[i..end] == [s[i]] + s[i + 1..end];
    }
  }

  lemma NumberParsed(s: string, i: nat)
    requires i <= |s| && ParseNumber(s, i).Some?
    ensures NumberText(s[i..ParseNumber(s, i).value.1], ParseNumber(s, i).value.0)
  {
    DigitsParsed(s, i + 1, DigitValue(s[i]));
    var end := ParseNumber(s, i).value.1;
    assert s[i..end] == [s[i]] + s[i + 1..end];
  }

  lemma PairCut(s: string, i: nat, mid: nat, end: nat)
    requires i <= mid < end < |s| && s[mid] == ',' && s[end] == 'p'
    ensures s[i..end + 1] == s[i..mid] + "," + s[mid + 1..end] + "p"
  {
  }

  lemma SingleCut(s: string, i: nat, end: nat)
    requires i <= end < |s| && s[end] == 'p'
    ensures s[i..end + 1] == s[i..end] + "p"
  {
  }

  lemma RangeParsed(s: string, i: nat)
    requires i <= |s| && ParseRange(s, i).Some?
    ensures RangeText(s[i..ParseRange(s, i).value.1], ParseRange(s, i).value.0)
  {
    hide ParseNumber, NumberText;
    var (r, next) := ParseRange(s, i).value;
    var mid := ParseNumber(s, i).value.1;
    NumberParsed(s, i);
    if CharAt(s, mid, ',') {
      NumberParsed(s, mid + 1);
      PairCut(s, i, mid, next - 1);
      assert RangeOf(s[i..next], r, s[i..mid], s[mid + 1..next - 1]);
    } else {
      SingleCut(s, i, mid);
      assert RangeOf(s[i..next], r, s[i..mid], s[i..mid]);
    }
  }

  lemma {:induction false} RangesParsed(s: string, i: nat, sofar: Selection)
    requires i <= |s| && ParseRanges(s, i, sofar).Some?
    ensures var sel := ParseRanges(s, i, sofar).value;
            |sofar| < |sel| <= MAX_RANGES && sofar <= sel && Prints(s[i..], sel[|sofar|..])
    decreases |s| - i
  {
    hide ParseRange, RangeText;
    var (r, next) := ParseRange(s, i).value;
    RangeParsed(s, i);
    var sel := ParseRanges(s, i, sofar).value;
    if next == |s| {
      assert sel[|sofar|..] == [r] && s[i..next] == s[i..];
    } else {
      RangesParsed(s, next + 1, sofar + [r]);
      assert s[i..] == s[i..next] + ";" + s[next + 1..];
      assert sel[|sofar|..][1..] == sel[|sofar + [r]|..];
      assert sel[|sofar|] == r;
    }
  }

  /** A script is parsed exactly if it is written as ranges within the limits,
      and then to those ranges. */
  lemma SelectionExact(text: string, sel: Selection)
    ensures ParseSelection(text) == Some(sel) <==> Prints(text, sel) && |sel| <= MAX_RANGES
  {
    assert "" + text == text[0..] == text && [] + sel == sel[0..] == sel;
    if Prints(text, sel) && |sel| <= MAX_RANGES {
      ParsesRanges("", text, sel, []);
    }
    if ParseSelection(text) == Some(sel) {
      RangesParsed(text, 0, []);
    }
  }

  lemma {:induction false} PrintsSelection(sel: Selection)
    requires sel != [] && forall r :: r in sel ==> PrintableRange(r)
    ensures Prints(PrintSelection(sel), sel)
  {
    assert sel[0] in sel;
    PrintsRange(sel[0]);
    if |sel| > 1 {
      PrintsSelection(sel[1..]);
    }
  }

  lemma PrintsRange(r: Range)
    requires PrintableRange(r)
    ensures RangeText(PrintRange(r), r)
  {
    DecimalValueOfDecimal(r.start);
    DecimalValueOfDecimal(r.end);
    assert RangeOf(PrintRange(r), r, Decimal(r.start), Decimal(r.end));
  }

  /** Every selection within the limits can be written as a print script that
      parses back to it. */
  lemma SelectionRoundTrip(sel: Selection)
    requires forall r :: r in sel ==> PrintableRange(r)
    requires 1 <= |sel| <= MAX_RANGES
    ensures ParseSelection(PrintSelection(sel)) == Some(sel)
  {
    PrintsSelection(sel);
    SelectionExact(PrintSelection(sel), sel);
  }

  // ---- Line counts

  predicate IsSpace(c: char) {
    c in {' ', '\t', '\n', '\r', 11 as char, 12 as char}
  }

  function AllDigits(s: string): bool {
    s != "" && forall c :: c in s ==> IsDigit(c)
  }

  /** strtol in base 10, the whole word, within the accepted range. */
  function ParseLong(s: string): Option<nat> {
    if s == "" then None
    else if IsSpace(s[0]) then ParseLong(s[1..])
    else
      var negative := s[0] == '-';
      var digits := if s[0] in {'-', '+'} then s[1..] else s;
      if !AllDigits(digits) then None
      else
        var n := DecimalValue(digits, 0);
        if n > MAX_COUNT_ARGUMENT || (negative && n > 0) then None else Some(n)
  }

  /** `-n N`, `-nN` or `-N`. */
  function ParseLineCount(argv: seq<string>): Option<nat> {
    if |argv| == 3 && argv[1] == "-n" then ParseLong(argv[2])
    else if |argv| == 2 && |argv[1]| > 2 && argv[1][..2] == "-n" then ParseLong(argv[1][2..])
    else if |argv| == 2 && |argv[1]| > 1 && argv[1][0] == '-' then ParseLong(argv[1][1..])
    else None
  }

  /** The `-n <ranges>` operands, whatever the command is called. */
  function ParseStdinSed(argv: seq<string>): Option<Selection> {
    if |argv| == 3 && argv[1] == "-n" then ParseSelection(argv[2]) else None
  }

  /** `-F` with one pattern, optionally `-q`: the pattern and whether quiet. */
  function ParseGrep(args: seq<string>, quiet: bool, fixed: bool, pattern: Option<string>): Option<(string, bool)> {
    if args == [] then
      if fixed && pattern.Some? then Some((pattern.value, quiet)) else None
    else if args[0] == "-q" then ParseGrep(args[1..], true, fixed, pattern)
    else if args[0] == "-F" then ParseGrep(args[1..], quiet, true, pattern)
    else if (args[0] != "" && args[0][0] == '-') || pattern.Some? then None
    else ParseGrep(args[1..], quiet, fixed, Some(args[0]))
  }

  // ---- What the operands are

  /** Blanks, a sign and digits that make the number; a minus only before 0. */
  ghost predicate SpelledSo(word: string, n: nat, blanks: string, sign: string, digits: string) {
    && word == blanks + (sign + digits)
    && (forall c :: c in blanks ==> IsSpace(c))
    && (sign == "" || sign == "+" || (sign == "-" && n == 0))
    && digits != "" && (forall c :: c in digits ==> IsDigit(c))
    && DecimalValue(digits, 0) == n <= MAX_COUNT_ARGUMENT
  }

  ghost predicate Spells(word: string, n: nat) {
    exists blanks, sign, digits :: SpelledSo(word, n, blanks, sign, digits)
  }

  lemma {:induction false} ParsesSpelled(word: string, n: nat, blanks: string, sign: string, digits: string)
    requires SpelledSo(word, n, blanks, sign, digits)
    ensures ParseLong(word) == Some(n)
    decreases |blanks|
  {
    if blanks != "" {
      assert word[0] == blanks[0] && blanks[0] in blanks;
      assert word[1..] == blanks[1..] + (sign + digits);
      ParsesSpelled(word[1..], n, blanks[1..], sign, digits);
    } else {
      assert word == sign + digits && digits[0] in digits;
      if sign == "" {
        assert word == digits;
      } else {
        assert word[1..] == digits;
      }
    }
  }

  lemma {:induction false} LongSpelled(word: string)
    requires ParseLong(word).Some?
    ensures Spells(word, ParseLong(word).value)
  {
    var n := ParseLong(word).value;
    if IsSpace(word[0]) {
      LongSpelled(word[1..]);
      var blanks, sign, digits :| SpelledSo(word[1..], n, blanks, sign, digits);
      assert word == ([word[0]] + blanks) + (sign + digits);
      assert SpelledSo(word, n, [word[0]] + blanks, sign, digits);
    } else if word[0] in {'-', '+'} {
      assert word == "" + ([word[0]] + word[1..]);
      assert SpelledSo(word, n, "", [word[0]], word[1..]);
    } else {
      assert word == "" + ("" + word);
      assert SpelledSo(word, n, "", "", word);
    }
  }

  /** The words of a command with a line count: `-n N`, `-nN` or `-N`. */
  ghost predicate CountWords(argv: seq<string>, n: nat) {
    || (|argv| == 3 && argv[1] == "-n" && Spells(argv[2], n))
    || (|argv| == 2 && exists word :: Spells(word, n) && (argv[1] == "-n" + word || argv[1] == "-" + word))
  }

  lemma SpellsExact(word: string, n: nat)
    ensures Spells(word, n) <==> ParseLong(word) == Some(n)
    ensures Spells(word, n) ==> word != "" && word[0] != 'n'
  {
    if blanks, sign, digits :| SpelledSo(word, n, blanks, sign, digits) {
      ParsesSpelled(word, n, blanks, sign, digits);
      assert digits[0] in digits;
    }
    if ParseLong(word) == Some(n) {
      LongSpelled(word);
    }
  }

  /** The count is parsed exactly from those three forms. */
  lemma LineCountExact(argv: seq<string>, n: nat)
    ensures CountWords(argv, n) <==> ParseLineCount(argv) == Some(n)
  {
    hide Spells, ParseLong;
    if |argv| == 3 {
      SpellsExact(argv[2], n);
    } else if |argv| == 2 {
      var word := argv[1];
      if exists w :: Spells(w, n) && (word == "-n" + w || word == "-" + w) {
        var w :| Spells(w, n) && (word == "-n" + w || word == "-" + w);
        SpellsExact(w, n);
        assert word == "-n" + w ==> word[2..] == w && word[..2] == "-n";
        assert word == "-" + w ==> word[1..] == w && word[1] != 'n';
      }
      if ParseLineCount(argv) == Some(n) {
        if |word| > 2 && word[..2] == "-n" {
          SpellsExact(word[2..], n);
          assert word == "-n" + word[2..];
        } else {
          SpellsExact(word[1..], n);
          assert word == "-" + word[1..];
        }
      }
    }
  }

  /** Every number in range can be given in each form. */
  lemma CountsWritten(name: string, n: nat)
    requires n <= MAX_COUNT_ARGUMENT
    ensures ParseLineCount([name, "-n", Decimal(n)]) == ParseLineCount([name, "-n" + Decimal(n)]) ==
            ParseLineCount([name, "-" + Decimal(n)]) == Some(n)
  {
    DecimalValueOfDecimal(n);
    assert Decimal(n) == "" + ("" + Decimal(n));
    assert SpelledSo(Decimal(n), n, "", "", Decimal(n));
    LineCountExact([name, "-n", Decimal(n)], n);
    LineCountExact([name, "-n" + Decimal(n)], n);
    LineCountExact([name, "-" + Decimal(n)], n);
  }

  /** One pattern among options: `-F`, and perhaps `-q`. */
  ghost predicate GrepWords(args: seq<string>, pattern: string, quiet: bool) {
    && (pattern == "" || pattern[0] != '-') && multiset(args)[pattern] == 1
    && (forall a :: a in args ==> a == pattern || a == "-F" || a == "-q")
    && "-F" in args && (quiet <==> "-q" in args)
  }

  lemma {:induction false} GrepParsed(args: seq<string>, quiet: bool, fixed: bool, pattern: Option<string>, p: string,
                                      q: bool)
    requires pattern.Some? ==> pattern.value == "" || pattern.value[0] != '-'
    ensures ParseGrep(args, quiet, fixed, pattern) == Some((p, q)) <==>
              && (p == "" || p[0] != '-')
              && (forall a :: a in args ==> a == p || a == "-F" || a == "-q")
              && (if pattern.Some? then pattern.value == p && p !in args else multiset(args)[p] == 1)
              && (fixed || "-F" in args) && (q <==> quiet || "-q" in args)
  {
    if args != [] {
      var first, rest := args[0], args[1..];
      assert args == [first] + rest;
      assert first in args && forall a :: a in args <==> a == first || a in rest;
      if first == "-q" {
        GrepParsed(rest, true, fixed, pattern, p, q);
      } else if first == "-F" {
        GrepParsed(rest, quiet, true, pattern, p, q);
      } else if (first != "" && first[0] == '-') || pattern.Some? {
      } else {
        GrepParsed(rest, quiet, fixed, Some(first), p, q);
      }
    }
  }

  lemma GrepExact(args: seq<string>, pattern: string, quiet: bool)
    ensures GrepWords(args, pattern, quiet) <==> ParseGrep(args, false, false, None) == Some((pattern, quiet))
  {
    GrepParsed(args, false, false, None, pattern, quiet);
  }
}
