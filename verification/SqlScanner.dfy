/** SQL text with literals and comments blanked before the console's policy reads it
    (packages/core/src/db-console.ts). */
module SqlScanner {
  import opened Text

  // ---------------------------------------------------------------- the lexer

  /** A query is code characters, quoted literals and comments. */
  datatype Token = Code(c: char) | Literal(text: string) | Comment(text: string)

  predicate Opens(c: char) {
    c == '\'' || c == '"' || c == '`' || c == '['
  }

  function Closer(c: char): char {
    if c == '[' then ']' else c
  }

  /** How many characters a literal has after its opening quote. A doubled quote stands for
      itself, except in brackets. */
  function LiteralLength(s: string, quote: char): (n: nat)
    ensures n <= |s|
  {
    if s == [] then 0
    else if s[0] == quote && |s| > 1 && s[1] == quote && quote != ']' then 2 + LiteralLength(s[2..], quote)
    else if s[0] == quote then 1
    else 1 + LiteralLength(s[1..], quote)
  }

  /** Through the end of the line. */
  function LineLength(s: string): (n: nat)
    ensures n <= |s|
  {
    if s == [] then 0 else if s[0] == '\n' then 1 else 1 + LineLength(s[1..])
  }

  /** Through the end of the block comment. */
  function BlockLength(s: string): (n: nat)
    ensures n <= |s|
  {
    if s == [] then 0 else if "*/" <= s then 2 else 1 + BlockLength(s[1..])
  }

  /** The length of the literal or comment that begins `s`, or 0 for a code character. */
  function GapLength(s: string): (n: nat)
    requires s != []
    ensures n <= |s|
  {
    if "--" <= s then LineLength(s)
    else if "/*" <= s then 2 + BlockLength(s[2..])
    else if Opens(s[0]) then 1 + LiteralLength(s[1..], Closer(s[0]))
    else 0
  }

  function Lex(s: string): seq<Token>
    decreases |s|
  {
    if s == [] then []
    else
      var n := GapLength(s);
      if n == 0 then [Code(s[0])] + Lex(s[1..])
      else [if Opens(s[0]) then Literal(s[..n]) else Comment(s[..n])] + Lex(s[n..])
  }

  function Source(tokens: seq<Token>): string {
    if tokens == [] then []
    else (match tokens[0] case Code(c) => [c] case Literal(t) => t case Comment(t) => t) + Source(tokens[1..])
  }

  /** What is left of the tokens when literals and comments are blanked. */
  function Blank(tokens: seq<Token>): string {
    if tokens == [] then []
    else [match tokens[0] case Code(c) => c case _ => ' '] + Blank(tokens[1..])
  }

  /** The tokens are the whole query. */
  lemma {:induction false} LexLossless(s: string)
    ensures Source(Lex(s)) == s
    decreases |s|
  {
    if s != [] {
      var n := GapLength(s);
      if n == 0 {
        LexLossless(s[1..]);
      } else {
        LexLossless(s[n..]);
        assert s == s[..n] + s[n..];
      }
    }
  }

  /** A line comment ends at its only line feed, or with the query. */
  lemma {:induction false} LineEnds(s: string)
    ensures var n := LineLength(s);
      (forall i :: 0 <= i < n - 1 ==> s[i] != '\n')
      && (n == |s| || (n > 0 && s[n - 1] == '\n'))
  {
    if s != [] && s[0] != '\n' {
      LineEnds(s[1..]);
      var m := LineLength(s[1..]);
      assert forall i :: 1 <= i <= |s[1..]| ==> s[i] == s[1..][i - 1];
    }
  }

  predicate ClosesBlock(s: string, i: nat) {
    i + 1 < |s| && s[i] == '*' && s[i + 1] == '/'
  }

  /** A block comment ends at its first closing mark, or with the query. */
  lemma {:induction false} BlockEnds(s: string)
    ensures var n := BlockLength(s);
      (forall i :: 0 <= i < n - 2 ==> !ClosesBlock(s, i))
      && (n == |s| || (n >= 2 && ClosesBlock(s, n - 2)))
  {
    if s != [] && !("*/" <= s) {
      var t := s[1..];
      BlockEnds(t);
      assert !ClosesBlock(s, 0);
      assert forall i :: 0 <= i < |t| ==> t[i] == s[i + 1];
      assert forall i :: 0 <= i < |t| ==> ClosesBlock(t, i) == ClosesBlock(s, i + 1);
      forall i | 0 <= i < BlockLength(s) - 2 ensures !ClosesBlock(s, i) {
        assert i > 0 ==> ClosesBlock(t, i - 1) == ClosesBlock(s, i);
      }
    }
  }

  /** A literal ends at a closing quote that is not doubled (a bracket at its first), or with the
      query. */
  lemma {:induction false} LiteralEnds(s: string, quote: char)
    ensures var n := LiteralLength(s, quote);
      && (n < |s| ==> n > 0 && s[n - 1] == quote && (quote != ']' ==> s[n] != quote))
      && (quote == ']' ==> forall i :: 0 <= i < n - 1 ==> s[i] != quote)
    decreases |s|
  {
    if s != [] {
      if s[0] == quote && |s| > 1 && s[1] == quote && quote != ']' {
        LiteralEnds(s[2..], quote);
      } else if s[0] != quote {
        LiteralEnds(s[1..], quote);
        assert forall i :: 1 <= i < |s| ==> s[i] == s[1..][i - 1];
      }
    }
  }

  // ---------------------------------------------------------------- white space and case

  function SkipSpaces(s: string): (r: string)
    ensures |r| <= |s| && (s != [] && IsSpace(s[0]) ==> |r| < |s|)
  {
    if s != [] && IsSpace(s[0]) then SkipSpaces(s[1..]) else s
  }

  /** Every run of white space becomes one space. */
  function Squeeze(s: string): string
    decreases |s|
  {
    if s == [] then []
    else if IsSpace(s[0]) then [' '] + Squeeze(SkipSpaces(s))
    else [s[0]] + Squeeze(s[1..])
  }

  function Despace(s: string): string {
    if s == [] then [] else (if IsSpace(s[0]) then [] else [s[0]]) + Despace(s[1..])
  }

  /** Upper-casing, character by character. */
  function Upper(s: string, upper: char -> string): string {
    if s == [] then [] else upper(s[0]) + Upper(s[1..], upper)
  }

  /** The characters the scanner looks for; none has a case. */
  predicate Special(c: char) {
    Opens(c) || c == '-' || c == '/' || c == '*' || IsSpace(c)
  }

  ghost predicate LawfulUpper(upper: char -> string) {
    && (forall c :: Special(c) ==> upper(c) == [c])
    && (forall c :: !Special(c) ==> upper(c) != [] && forall i :: 0 <= i < |upper(c)| ==> !Special(upper(c)[i]))
    && (forall c :: Upper(upper(c), upper) == upper(c))
  }

  function Spaced(blanked: string, upper: char -> string): string {
    Upper(Trim(Squeeze(blanked)), upper)
  }

  function Compact(blanked: string, upper: char -> string): string {
    Upper(Trim(Despace(blanked)), upper)
  }

  // ---------------------------------------------------------------- equal up to runs of white space

  predicate SameBlanks(a: string, b: string) {
    Squeeze(a) == Squeeze(b) && Despace(a) == Despace(b)
  }

  lemma {:induction false} ExtraSpace(a: string, b: string)
    ensures SameBlanks(a + [' ', ' '] + b, a + [' '] + b)
  {
    var x, y := a + [' ', ' '] + b, a + [' '] + b;
    if a == [] {
      assert x == [' '] + y && x[1..] == y;
    } else {
      ExtraSpace(a[1..], b);
      assert x[1..] == a[1..] + [' ', ' '] + b && y[1..] == a[1..] + [' '] + b;
      assert x[0] == y[0];
      if IsSpace(a[0]) {
        SkippedSame(x, y);
      }
    }
  }

  lemma {:induction false} SkippedSame(x: string, y: string)
    requires x != [] && y != [] && IsSpace(x[0]) && x[0] == y[0] && Squeeze(x[1..]) == Squeeze(y[1..])
    ensures Squeeze(x) == Squeeze(y)
  {
    LeadingSpace(x);
    LeadingSpace(y);
  }

  /** Squeezing a text after a space is squeezing it without the leading space it may have. */
  lemma {:induction false} LeadingSpace(x: string)
    requires x != [] && IsSpace(x[0])
    ensures var rest := Squeeze(x[1..]); Squeeze(x) == [' '] + if rest != [] && rest[0] == ' ' then rest[1..] else rest
  {
    var t := x[1..];
    if t != [] && IsSpace(t[0]) {
      assert Squeeze(t) == [' '] + Squeeze(SkipSpaces(t));
    } else if t != [] {
      assert Squeeze(t)[0] == t[0] && t[0] != ' ';
    }
  }

  // ---------------------------------------------------------------- the scanner

  function Blanked(s: string): string {
    Blank(Lex(s))
  }

  function From(text: string, index: nat): string {
    if index <= |text| then text[index..] else []
  }

  /** The text after the literal that is open, if one is. */
  function Remaining(rest: string, quote: Option<char>): string {
    if quote.Some? then rest[LiteralLength(rest, quote.value)..] else rest
  }

  /** What was written so far and what the lexer makes of the rest are the blanked query, up to
      runs of white space. */
  ghost predicate Scanning(text: string, index: nat, quote: Option<char>, output: string) {
    && (quote.Some? ==> output != [] && output[|output| - 1] == ' ')
    && SameBlanks(output + Blanked(Remaining(From(text, index), quote)), Blanked(text))
  }

  lemma CodeStep(text: string, index: nat, output: string)
    requires index < |text| && Scanning(text, index, None, output) && GapLength(text[index..]) == 0
    ensures Scanning(text, index + 1, None, output + [text[index]])
  {
    var rest := text[index..];
    assert rest[1..] == text[index + 1..];
    assert Lex(rest)[1..] == Lex(rest[1..]);
    assert Blanked(rest) == [rest[0]] + Blanked(rest[1..]);
    assert output + Blanked(rest) == output + [rest[0]] + Blanked(rest[1..]);
  }

  lemma GapBlanked(rest: string, n: nat)
    requires rest != [] && n == GapLength(rest) && n > 0
    ensures Blanked(rest) == [' '] + Blanked(rest[n..])
  {
    assert Lex(rest)[1..] == Lex(rest[n..]);
  }

  /** The literal or comment at `index` ends right before `next`. */
  predicate GapEndsBefore(text: string, index: nat, next: nat)
    requires index < |text|
  {
    var rest := text[index..];
    GapLength(rest) > 0 && From(text, next) == rest[GapLength(rest)..]
  }

  lemma CommentStep(text: string, index: nat, output: string, next: nat)
    requires index < |text| && Scanning(text, index, None, output) && GapEndsBefore(text, index, next)
    ensures Scanning(text, next, None, output + [' '])
  {
    var rest := text[index..];
    var n := GapLength(rest);
    GapBlanked(rest, n);
    Shift(output, Blanked(rest[n..]), Blanked(text));
  }

  lemma OpenGap(rest: string)
    requires rest != [] && Opens(rest[0])
    ensures GapLength(rest) == 1 + LiteralLength(rest[1..], Closer(rest[0]))
  {
    assert "--"[0] == '-' && "/*"[0] == '/';
  }

  lemma LiteralTail(rest: string, tail: string, quote: char, n: nat)
    requires rest != [] && rest[1..] == tail && n == 1 + LiteralLength(tail, quote)
    ensures n <= |rest| && rest[n..] == tail[LiteralLength(tail, quote)..]
  {
  }

  lemma OpenStep(text: string, index: nat, output: string, quote: char)
    requires index < |text| && Scanning(text, index, None, output)
    requires Opens(text[index]) && quote == Closer(text[index])
    ensures Scanning(text, index + 1, Some(quote), output + [' '])
  {
    var rest, tail := text[index..], text[index + 1..];
    OpenGap(rest);
    var n := GapLength(rest);
    LiteralTail(rest, tail, quote, n);
    GapBlanked(rest, n);
    Shift(output, Blanked(rest[n..]), Blanked(text));
  }

  lemma Shift(output: string, tail: string, all: string)
    requires SameBlanks(output + ([' '] + tail), all)
    ensures SameBlanks(output + [' '] + tail, all)
  {
    assert output + ([' '] + tail) == output + [' '] + tail;
  }

  /** Every further character of a literal writes a space behind a space. */
  lemma SpaceStep(text: string, index: nat, quote: char, output: string, next: nat, quote': Option<char>)
    requires Scanning(text, index, Some(quote), output)
    requires Remaining(From(text, index), Some(quote)) == Remaining(From(text, next), quote')
    ensures Scanning(text, next, quote', output + [' '])
  {
    SpaceAfterSpace(output, Blanked(Remaining(From(text, next), quote')), Blanked(text));
  }

  lemma SpaceAfterSpace(output: string, tail: string, all: string)
    requires output != [] && output[|output| - 1] == ' ' && SameBlanks(output + tail, all)
    ensures SameBlanks(output + [' '] + tail, all)
  {
    var front := output[..|output| - 1];
    assert output == front + [' '];
    ExtraSpace(front, tail);
    assert output + [' '] + tail == front + [' ', ' '] + tail;
    assert output + tail == front + [' '] + tail;
  }

  lemma DoubledQuote(text: string, index: nat, quote: char)
    requires index + 1 < |text| && text[index] == quote && text[index + 1] == quote && quote != ']'
    ensures Remaining(From(text, index), Some(quote)) == Remaining(From(text, index + 2), Some(quote))
  {
    var rest := text[index..];
    assert rest[0] == quote && rest[1] == quote && rest[2..] == text[index + 2..];
  }

  lemma ClosingQuote(text: string, index: nat, quote: char)
    requires index < |text| && text[index] == quote
    requires !(index + 1 < |text| && text[index + 1] == quote && quote != ']')
    ensures Remaining(From(text, index), Some(quote)) == Remaining(From(text, index + 1), None)
  {
    var rest := text[index..];
    assert rest[0] == quote && rest[1..] == text[index + 1..];
    assert index + 1 < |text| ==> rest[1] == text[index + 1];
  }

  lemma InsideQuote(text: string, index: nat, quote: char)
    requires index < |text| && text[index] != quote
    ensures Remaining(From(text, index), Some(quote)) == Remaining(From(text, index + 1), Some(quote))
  {
    var rest := text[index..];
    assert rest[0] != quote && rest[1..] == text[index + 1..];
  }

  method SkipLine(text: string, index: nat) returns (next: nat)
    requires index + 1 < |text| && text[index] == '-' && text[index + 1] == '-'
    ensures index < next && GapEndsBefore(text, index, next)
  {
    var i := index;
    while i < |text| && text[i] != '\n'
      invariant index <= i <= |text|
      invariant LineLength(text[index..]) == i - index + LineLength(text[i..])
    {
      assert text[i..][1..] == text[i + 1..];
      i := i + 1;
    }
    LineGap(text, index, i + 1);
    next := i + 1;
  }

  lemma LineGap(text: string, index: nat, next: nat)
    requires index + 1 < |text| && text[index] == '-' && text[index + 1] == '-'
    requires From(text, next) == text[index + LineLength(text[index..])..]
    ensures GapEndsBefore(text, index, next)
  {
    var rest := text[index..];
    assert "--" <= rest;
    assert rest[LineLength(rest)..] == text[index + LineLength(rest)..];
  }

  method SkipBlock(text: string, index: nat) returns (next: nat)
    requires index + 1 < |text| && text[index] == '/' && text[index + 1] == '*'
    ensures index < next && GapEndsBefore(text, index, next)
  {
    next := CloseBlock(text, index + 2);
    BlockGap(text, index, index + 2, next);
  }

  /** The index right behind the block comment whose text begins at `start`. */
  method CloseBlock(text: string, start: nat) returns (next: nat)
    requires start <= |text|
    ensures start < next && From(text, next) == text[start + BlockLength(text[start..])..]
  {
    var i := start;
    while i < |text| && !(text[i] == '*' && i + 1 < |text| && text[i + 1] == '/')
      invariant start <= i <= |text|
      invariant BlockLength(text[start..]) == i - start + BlockLength(text[i..])
    {
      BlockStep(text, i);
      i := i + 1;
    }
    BlockEnd(text, start, i);
    if i < |text| {
      i := i + 1;
    }
    next := i + 1;
  }

  lemma BlockStep(text: string, i: nat)
    requires i < |text|
    ensures BlockLength(text[i..])
         == if text[i] == '*' && i + 1 < |text| && text[i + 1] == '/' then 2 else 1 + BlockLength(text[i + 1..])
  {
    var rest := text[i..];
    assert rest[1..] == text[i + 1..];
    assert "*/" <= rest <==> |rest| > 1 && rest[0] == '*' && rest[1] == '/';
  }

  /** Where the comment is closed its two last characters are behind it, and else nothing. */
  lemma BlockEnd(text: string, start: nat, i: nat)
    requires start <= i <= |text| && BlockLength(text[start..]) == i - start + BlockLength(text[i..])
    requires i < |text| ==> text[i] == '*' && i + 1 < |text| && text[i + 1] == '/'
    ensures From(text, (if i < |text| then i + 1 else i) + 1) == text[start + BlockLength(text[start..])..]
  {
    if i < |text| {
      BlockStep(text, i);
    }
  }

  lemma BlockGap(text: string, index: nat, start: nat, next: nat)
    requires index + 1 < |text| && text[index] == '/' && text[index + 1] == '*' && start == index + 2
    requires From(text, next) == text[start + BlockLength(text[start..])..]
    ensures GapEndsBefore(text, index, next)
  {
    var rest := text[index..];
    assert rest[2..] == text[start..];
    var n := GapLength(rest);
    assert n == 2 + BlockLength(rest[2..]);
    assert rest[n..] == text[index + n..];
  }

  /** One round inside a literal. */
  method ScanLiteral(text: string, index: nat, quote: char, output: string)
    returns (next: nat, quote': Option<char>, output': string)
    requires index < |text| && Scanning(text, index, Some(quote), output)
    ensures index < next && Scanning(text, next, quote', output')
  {
    next, quote', output' := index + 1, Some(quote), output + [' '];
    if text[index] == quote && index + 1 < |text| && text[index + 1] == quote && quote != ']' {
      DoubledQuote(text, index, quote);
      next := index + 2;
    } else if text[index] == quote {
      ClosingQuote(text, index, quote);
      quote' := None;
    } else {
      InsideQuote(text, index, quote);
    }
    SpaceStep(text, index, quote, output, next, quote');
  }

  /** One round outside of literals. */
  method ScanCode(text: string, index: nat, output: string) returns (next: nat, quote: Option<char>, output': string)
    requires index < |text| && Scanning(text, index, None, output)
    ensures index < next && Scanning(text, next, quote, output')
  {
    if text[index] == '-' && index + 1 < |text| && text[index + 1] == '-' {
      next := SkipLine(text, index);
      CommentStep(text, index, output, next);
      return next, None, output + [' '];
    }
    if text[index] == '/' && index + 1 < |text| && text[index + 1] == '*' {
      next := SkipBlock(text, index);
      CommentStep(text, index, output, next);
      return next, None, output + [' '];
    }
    next, quote, output' := ScanCharacter(text, index, output);
  }

  method ScanCharacter(text: string, index: nat, output: string)
    returns (next: nat, quote: Option<char>, output': string)
    requires index < |text| && Scanning(text, index, None, output)
    requires !(index + 1 < |text| && PairOpens(text[index], text[index + 1]))
    ensures next == index + 1 && Scanning(text, next, quote, output')
  {
    var c := text[index];
    next := index + 1;
    if Opens(c) {
      OpenStep(text, index, output, Closer(c));
      quote, output' := Some(Closer(c)), output + [' '];
    } else {
      NotAGap(text, index);
      CodeStep(text, index, output);
      quote, output' := None, output + [c];
    }
  }

  /** The scanner loop computes the blanked token stream, squeezed or without white space. */
  method NormalizeForPolicy(text: string, upper: char -> string) returns (spaced: string, compact: string)
    ensures spaced == Spaced(Blanked(text), upper) && compact == Compact(Blanked(text), upper)
  {
    var output, index, quote := "", 0, None;
    ScanStart(text);
    while index < |text|
      invariant Scanning(text, index, quote, output)
      decreases |text| - index
    {
      if quote.Some? {
        index, quote, output := ScanLiteral(text, index, quote.value, output);
      } else {
        index, quote, output := ScanCode(text, index, output);
      }
    }
    EndOfText(text, index, quote, output);
    spaced, compact := Upper(Trim(Squeeze(output)), upper), Upper(Trim(Despace(output)), upper);
  }

  lemma ScanStart(text: string)
    ensures Scanning(text, 0, None, "")
  {
    assert From(text, 0) == text && [] + Blanked(text) == Blanked(text);
  }

  lemma NotAGap(text: string, index: nat)
    requires index < |text| && !Opens(text[index])
    requires !(index + 1 < |text| && PairOpens(text[index], text[index + 1]))
    ensures GapLength(text[index..]) == 0
  {
    GapByPair(text[index..]);
  }

  lemma EndOfText(text: string, index: nat, quote: Option<char>, output: string)
    requires index >= |text| && Scanning(text, index, quote, output)
    ensures SameBlanks(output, Blanked(text))
  {
    assert From(text, index) == [];
    assert output + Blanked([]) == output;
  }

  // ---------------------------------------------------------------- no opener is left

  /** No quote, bracket or comment opener anywhere. */
  predicate NoOpener(s: string) {
    s == [] || (GapLength(s) == 0 && NoOpener(s[1..]))
  }

  /** The characters that can begin an opener, and what may not follow them. */
  lemma GapByPair(s: string)
    requires s != []
    ensures GapLength(s) == 0 <==> !Opens(s[0]) && (|s| > 1 ==> !PairOpens(s[0], s[1]))
  {
    assert "--" <= s <==> |s| > 1 && s[0] == '-' && s[1] == '-';
    assert "/*" <= s <==> |s| > 1 && s[0] == '/' && s[1] == '*';
  }

  predicate PairOpens(a: char, b: char) {
    (a == '-' && b == '-') || (a == '/' && b == '*')
  }

  lemma NoOpenerCons(c: char, rest: string)
    requires !Opens(c) && NoOpener(rest) && (rest != [] ==> !PairOpens(c, rest[0]))
    ensures NoOpener([c] + rest)
  {
    var s := [c] + rest;
    assert s[1..] == rest;
    GapByPair(s);
  }

  lemma {:induction false} BlankedHasNoOpener(s: string)
    ensures NoOpener(Blanked(s))
    decreases |s|
  {
    if s != [] {
      var n := GapLength(s);
      if n > 0 {
        BlankedHasNoOpener(s[n..]);
        GapBlanked(s, n);
        NoOpenerCons(' ', Blanked(s[n..]));
      } else {
        BlankedHasNoOpener(s[1..]);
        CodeBlanked(s);
        GapByPair(s);
        BlankedFirst(s[1..]);
        NoOpenerCons(s[0], Blanked(s[1..]));
      }
    }
  }

  lemma CodeBlanked(s: string)
    requires s != [] && GapLength(s) == 0
    ensures Blanked(s) == [s[0]] + Blanked(s[1..])
  {
    assert Lex(s)[1..] == Lex(s[1..]);
  }

  lemma BlankedFirst(s: string)
    ensures s == [] ==> Blanked(s) == []
    ensures s != [] ==> Blanked(s) != [] && Blanked(s)[0] in [s[0], ' ']
  {
    if s != [] {
      var n := GapLength(s);
      if n > 0 {
        GapBlanked(s, n);
      } else {
        CodeBlanked(s);
      }
    }
  }

  lemma {:induction false} NothingToBlank(s: string)
    requires NoOpener(s)
    ensures Blanked(s) == s
  {
    if s != [] {
      CodeBlanked(s);
      NothingToBlank(s[1..]);
    }
  }

  lemma {:induction false} NoOpenerSuffix(s: string, k: nat)
    requires NoOpener(s) && k <= |s|
    ensures NoOpener(s[k..])
  {
    if k > 0 {
      NoOpenerSuffix(s[1..], k - 1);
      assert s[1..][k - 1..] == s[k..];
    } else {
      assert s[k..] == s;
    }
  }

  lemma {:induction false} NoOpenerPrefix(s: string, k: nat)
    requires NoOpener(s) && k <= |s|
    ensures NoOpener(s[..k])
  {
    if k > 0 {
      NoOpenerPrefix(s[1..], k - 1);
      GapByPair(s);
      assert s[..k] == [s[0]] + s[1..][..k - 1];
      NoOpenerCons(s[0], s[1..][..k - 1]);
    }
  }

  lemma {:induction false} SkipSpacesIsSuffix(s: string) returns (k: nat)
    ensures k <= |s| && SkipSpaces(s) == s[k..]
  {
    if s != [] && IsSpace(s[0]) {
      k := SkipSpacesIsSuffix(s[1..]);
      k := k + 1;
    } else {
      k := 0;
    }
  }

  lemma SqueezedFirst(s: string)
    ensures s == [] ==> Squeeze(s) == []
    ensures s != [] ==> Squeeze(s) != [] && Squeeze(s)[0] == if IsSpace(s[0]) then ' ' else s[0]
  {
  }

  lemma {:induction false} SqueezeKeepsNoOpener(s: string)
    requires NoOpener(s)
    ensures NoOpener(Squeeze(s))
    decreases |s|
  {
    if s != [] && IsSpace(s[0]) {
      var k := SkipSpacesIsSuffix(s);
      NoOpenerSuffix(s, k);
      SqueezeKeepsNoOpener(SkipSpaces(s));
      NoOpenerCons(' ', Squeeze(SkipSpaces(s)));
    } else if s != [] {
      SqueezeKeepsNoOpener(s[1..]);
      GapByPair(s);
      SqueezedFirst(s[1..]);
      NoOpenerCons(s[0], Squeeze(s[1..]));
    }
  }

  lemma {:induction false} TrimIsInside(s: string) returns (i: nat, j: nat)
    ensures i <= j <= |s| && Trim(s) == s[i..j]
    ensures i < j ==> !IsSpace(s[i]) && !IsSpace(s[j - 1])
  {
    i := TrimStartIsSuffix(s);
    var k := TrimEndIsPrefix(s[i..]);
    j := i + k;
    assert s[i..][..k] == s[i..j];
  }

  lemma {:induction false} TrimStartIsSuffix(s: string) returns (i: nat)
    ensures i <= |s| && TrimStart(s) == s[i..] && (i < |s| ==> !IsSpace(s[i]))
  {
    if s != [] && IsSpace(s[0]) {
      i := TrimStartIsSuffix(s[1..]);
      i := i + 1;
    } else {
      i := 0;
    }
  }

  lemma {:induction false} TrimEndIsPrefix(s: string) returns (k: nat)
    ensures k <= |s| && TrimEnd(s) == s[..k] && (k > 0 ==> !IsSpace(s[k - 1]))
  {
    if s != [] && IsSpace(s[|s| - 1]) {
      k := TrimEndIsPrefix(s[..|s| - 1]);
    } else {
      k := |s|;
    }
  }

  lemma UpperFirst(s: string, upper: char -> string)
    requires LawfulUpper(upper) && s != []
    ensures Upper(s, upper) != []
    ensures if Special(s[0]) then Upper(s, upper)[0] == s[0] else !Special(Upper(s, upper)[0])
  {
    assert Upper(s, upper) == upper(s[0]) + Upper(s[1..], upper);
  }

  predicate Plain(s: string) {
    forall i :: 0 <= i < |s| ==> !Special(s[i])
  }

  lemma {:induction false} PlainFront(front: string, rest: string)
    requires Plain(front) && NoOpener(rest) && Tidy(rest)
    ensures NoOpener(front + rest) && Tidy(front + rest)
  {
    if front == [] {
      assert front + rest == rest;
    } else {
      PlainFront(front[1..], rest);
      assert front + rest == [front[0]] + (front[1..] + rest);
      NoOpenerCons(front[0], front[1..] + rest);
      TidyCons(front[0], front[1..] + rest);
    }
  }

  /** White space is single spaces only. */
  predicate Tidy(s: string) {
    s == [] || ((IsSpace(s[0]) ==> s[0] == ' ' && (|s| > 1 ==> !IsSpace(s[1]))) && Tidy(s[1..]))
  }

  lemma TidyCons(c: char, rest: string)
    requires Tidy(rest) && (IsSpace(c) ==> c == ' ' && (rest != [] ==> !IsSpace(rest[0])))
    ensures Tidy([c] + rest)
  {
    assert ([c] + rest)[1..] == rest;
  }

  lemma {:induction false} UpperKeepsShape(s: string, upper: char -> string)
    requires LawfulUpper(upper) && NoOpener(s) && Tidy(s)
    ensures NoOpener(Upper(s, upper)) && Tidy(Upper(s, upper))
  {
    if s != [] {
      var rest := Upper(s[1..], upper);
      UpperKeepsShape(s[1..], upper);
      if s[1..] != [] {
        UpperFirst(s[1..], upper);
      }
      GapByPair(s);
      if Special(s[0]) {
        assert Upper(s, upper) == [s[0]] + rest;
        NoOpenerCons(s[0], rest);
        TidyCons(s[0], rest);
      } else {
        PlainFront(upper(s[0]), rest);
      }
    }
  }

  lemma UpperCons(c: char, rest: string, upper: char -> string)
    ensures Upper([c] + rest, upper) == upper(c) + Upper(rest, upper)
  {
    assert ([c] + rest)[1..] == rest;
  }

  lemma Associates(a: string, b: string, c: string)
    ensures a + b + c == a + (b + c)
  {
  }

  lemma {:induction false} UpperConcat(a: string, b: string, upper: char -> string)
    ensures Upper(a + b, upper) == Upper(a, upper) + Upper(b, upper)
  {
    if a == [] {
      assert a + b == b;
    } else {
      var rest := a[1..];
      UpperConcat(rest, b, upper);
      UpperCons(a[0], rest + b, upper);
      assert a + b == [a[0]] + (rest + b);
      Associates(upper(a[0]), Upper(rest, upper), Upper(b, upper));
    }
  }

  lemma {:induction false} UpperIdempotent(s: string, upper: char -> string)
    requires LawfulUpper(upper)
    ensures Upper(Upper(s, upper), upper) == Upper(s, upper)
  {
    if s != [] {
      UpperIdempotent(s[1..], upper);
      UpperConcat(upper(s[0]), Upper(s[1..], upper), upper);
    }
  }

  lemma {:induction false} SkipSpacesStops(s: string)
    ensures var r := SkipSpaces(s); r != [] ==> !IsSpace(r[0])
  {
    if s != [] && IsSpace(s[0]) {
      SkipSpacesStops(s[1..]);
    }
  }

  lemma {:induction false} SqueezeIsTidy(s: string)
    ensures Tidy(Squeeze(s))
    decreases |s|
  {
    if s != [] && IsSpace(s[0]) {
      SqueezeIsTidy(SkipSpaces(s));
      SkipSpacesStops(s);
      SqueezedFirst(SkipSpaces(s));
      TidyCons(' ', Squeeze(SkipSpaces(s)));
    } else if s != [] {
      SqueezeIsTidy(s[1..]);
      TidyCons(s[0], Squeeze(s[1..]));
    }
  }

  lemma {:induction false} TidyInside(s: string, i: nat, j: nat)
    requires Tidy(s) && i <= j <= |s|
    ensures Tidy(s[i..j])
    decreases |s|
  {
    if i > 0 {
      TidyInside(s[1..], i - 1, j - 1);
      assert s[1..][i - 1..j - 1] == s[i..j];
    } else if j > 0 {
      TidyInside(s[1..], 0, j - 1);
      assert s[i..j] == [s[0]] + s[1..][0..j - 1];
      TidyCons(s[0], s[1..][0..j - 1]);
    }
  }

  lemma {:induction false} TidySqueezed(s: string)
    requires Tidy(s)
    ensures Squeeze(s) == s
  {
    if s != [] {
      TidySqueezed(s[1..]);
      if IsSpace(s[0]) {
        assert SkipSpaces(s) == s[1..];
      }
      assert s == [s[0]] + s[1..];
    }
  }

  lemma {:induction false} UpperLast(s: string, upper: char -> string)
    requires LawfulUpper(upper) && s != [] && !IsSpace(s[|s| - 1])
    ensures var u := Upper(s, upper); u != [] && !IsSpace(u[|u| - 1])
  {
    var front, last := s[..|s| - 1], s[|s| - 1];
    assert s == front + [last];
    UpperConcat(front, [last], upper);
    assert Upper([last], upper) == upper(last) + [];
    assert upper(last) != [] && !IsSpace(upper(last)[|upper(last)| - 1]);
  }

  lemma NoOpenerInside(s: string, i: nat, j: nat)
    requires NoOpener(s) && i <= j <= |s|
    ensures NoOpener(s[i..j])
  {
    NoOpenerPrefix(s, j);
    NoOpenerSuffix(s[..j], i);
    assert s[..j][i..] == s[i..j];
  }

  lemma BlankedShape(text: string)
    ensures NoOpener(Squeeze(Blanked(text))) && Tidy(Squeeze(Blanked(text)))
  {
    BlankedHasNoOpener(text);
    SqueezeKeepsNoOpener(Blanked(text));
    SqueezeIsTidy(Blanked(text));
  }

  lemma TrimKeepsShape(q: string)
    requires NoOpener(q) && Tidy(q)
    ensures var t := Trim(q); NoOpener(t) && Tidy(t) && (t != [] ==> !IsSpace(t[0]) && !IsSpace(t[|t| - 1]))
  {
    var i, j := TrimIsInside(q);
    NoOpenerInside(q, i, j);
    TidyInside(q, i, j);
  }

  /** The spaced form holds no quote, no bracket and no comment opener, whatever the query. */
  lemma SpacedHasNoOpener(text: string, upper: char -> string)
    requires LawfulUpper(upper)
    ensures NoOpener(Spaced(Blanked(text), upper)) && Tidy(Spaced(Blanked(text), upper))
  {
    BlankedShape(text);
    TrimKeepsShape(Squeeze(Blanked(text)));
    UpperKeepsShape(Trim(Squeeze(Blanked(text))), upper);
  }

  /** Normalizing the spaced form again changes nothing. */
  lemma SpacedFixedPoint(text: string, upper: char -> string)
    requires LawfulUpper(upper)
    ensures var spaced := Spaced(Blanked(text), upper); Spaced(Blanked(spaced), upper) == spaced
  {
    var spaced := Spaced(Blanked(text), upper);
    SpacedHasNoOpener(text, upper);
    NothingToBlank(spaced);
    TidySqueezed(spaced);
    SpacedEnds(text, upper);
    assert Trim(spaced) == spaced;
    UpperIdempotent(Trim(Squeeze(Blanked(text))), upper);
  }

  lemma SpacedEnds(text: string, upper: char -> string)
    requires LawfulUpper(upper)
    ensures var s := Spaced(Blanked(text), upper); s != [] ==> !IsSpace(s[0]) && !IsSpace(s[|s| - 1])
  {
    var t := Trim(Squeeze(Blanked(text)));
    BlankedShape(text);
    TrimKeepsShape(Squeeze(Blanked(text)));
    if t != [] {
      UpperFirst(t, upper);
      UpperLast(t, upper);
    }
  }

  // ---------------------------------------------------------------- only the code matters

  /** The text is one literal or comment, closed: with a blank behind it, it ends where it ends. */
  predicate CompleteGap(g: string) {
    g != [] && GapLength(g + [' ']) == |g|
  }

  /** A literal or comment that the text behind it does not go on: at the end of the query any one,
      else a closed one, and a quoted literal is gone on by its own quote. */
  predicate EndsBefore(g: string, x: string) {
    if x == [] then g != [] && GapLength(g) == |g|
    else CompleteGap(g) && (Opens(g[0]) && g[0] != '[' ==> x[0] != g[0])
  }

  /** The last token of `a` is whole, and what follows does not join it. */
  predicate Apart(a: string, x: string) {
    a == [] || x == [] ||
    match Lex(a)[|Lex(a)| - 1]
    case Code(c) => !PairOpens(c, x[0])
    case Literal(t) => EndsBefore(t, x)
    case Comment(t) => EndsBefore(t, x)
  }

  /** A line comment that ends where something follows ends there whatever follows. */
  lemma {:induction false} LineComplete(g: string, x: string, b: string)
    requires x != [] && LineLength(g + x) == |g|
    ensures LineLength(g + b) == |g|
  {
    if g != [] && g[0] != '\n' {
      assert (g + x)[1..] == g[1..] + x && (g + b)[1..] == g[1..] + b;
      LineComplete(g[1..], x, b);
    }
  }

  lemma {:induction false} BlockComplete(g: string, x: string, b: string)
    requires x != [] && BlockLength(g + x) == |g|
    ensures BlockLength(g + b) == |g|
  {
    if g != [] {
      var s, t := g + x, g + b;
      assert s[1..] == g[1..] + x && t[1..] == g[1..] + b;
      assert |g| >= 2 ==> ("*/" <= s <==> "*/" <= t);
      if !("*/" <= s) {
        BlockComplete(g[1..], x, b);
      }
    }
  }

  /** A literal that ends where something follows is not gone on by it. */
  lemma {:induction false} LiteralClosed(g: string, x: string, quote: char)
    requires x != [] && LiteralLength(g + x, quote) == |g|
    ensures g != [] && (quote != ']' ==> x[0] != quote)
    decreases |g|
  {
    var s := g + x;
    if |g| > 1 && g[0] == quote && g[1] == quote && quote != ']' {
      assert s[2..] == g[2..] + x;
      LiteralClosed(g[2..], x, quote);
    } else if g != [] && g[0] != quote {
      assert s[1..] == g[1..] + x;
      LiteralClosed(g[1..], x, quote);
    }
  }

  lemma {:induction false} LiteralComplete(g: string, x: string, b: string, quote: char)
    requires x != [] && LiteralLength(g + x, quote) == |g|
    requires quote != ']' && b != [] ==> b[0] != quote
    ensures LiteralLength(g + b, quote) == |g|
    decreases |g|
  {
    var s, t := g + x, g + b;
    if |g| > 1 && g[0] == quote && g[1] == quote && quote != ']' {
      assert s[2..] == g[2..] + x && t[2..] == g[2..] + b;
      LiteralComplete(g[2..], x, b, quote);
    } else if g != [] && g[0] != quote {
      assert s[1..] == g[1..] + x && t[1..] == g[1..] + b;
      LiteralComplete(g[1..], x, b, quote);
    }
  }

  /** The end of a literal or comment before `x` is its end before every `b` that does not go it on. */
  lemma GapComplete(g: string, x: string, b: string)
    requires g != [] && x != [] && GapLength(g + x) == |g|
    ensures Opens(g[0]) && g[0] != '[' ==> x[0] != g[0]
    ensures (b != [] && Opens(g[0]) && g[0] != '[' ==> b[0] != g[0]) ==> GapLength(g + b) == |g|
  {
    var s, t := g + x, g + b;
    assert s[0] == g[0] && t[0] == g[0];
    assert |g| > 1 ==> s[1] == g[1] && t[1] == g[1];
    GapByPair(s);
    if Opens(g[0]) {
      OpenGap(s);
      OpenGap(t);
      assert s[1..] == g[1..] + x && t[1..] == g[1..] + b;
      LiteralClosed(g[1..], x, Closer(g[0]));
      if b != [] && g[0] != '[' ==> b[0] != g[0] {
        LiteralComplete(g[1..], x, b, Closer(g[0]));
      }
    } else {
      CommentComplete(g, x, b);
    }
  }

  lemma CommentComplete(g: string, x: string, b: string)
    requires g != [] && x != [] && !Opens(g[0]) && GapLength(g + x) == |g|
    ensures GapLength(g + b) == |g|
  {
    var s, t := g + x, g + b;
    if "--" <= s {
      assert LineLength(s) == |g|;
      assert |g| > 1 && t[0] == g[0] && t[1] == g[1] && "--" <= t;
      LineComplete(g, x, b);
    } else {
      assert |g| > 1 && t[0] == g[0] && t[1] == g[1] && "/*" <= t;
      assert s[2..] == g[2..] + x && t[2..] == g[2..] + b;
      BlockComplete(g[2..], x, b);
    }
  }

  /** A literal or comment up to the end of `a` ends there before `x` exactly when nothing is behind it
      or it is closed and `x` does not go it on. */
  lemma EndsBeforeIff(a: string, x: string)
    requires a != []
    ensures GapLength(a + x) == |a| <==> EndsBefore(a, x)
  {
    if x == [] {
      assert a + x == a;
    } else if GapLength(a + x) == |a| {
      GapComplete(a, x, [' ']);
    } else if CompleteGap(a) {
      GapComplete(a, [' '], x);
    }
  }

  lemma {:induction false} LineStable(s: string, x: string)
    requires LineLength(s) < |s|
    ensures LineLength(s + x) == LineLength(s)
  {
    if s[0] != '\n' {
      assert (s + x)[1..] == s[1..] + x;
      LineStable(s[1..], x);
    }
  }

  lemma {:induction false} BlockStable(s: string, x: string)
    requires BlockLength(s) < |s|
    ensures BlockLength(s + x) == BlockLength(s)
  {
    assert |s| >= 2 ==> ("*/" <= s <==> "*/" <= s + x);
    if !("*/" <= s) {
      assert (s + x)[1..] == s[1..] + x;
      BlockStable(s[1..], x);
    }
  }

  lemma {:induction false} LiteralStable(s: string, x: string, quote: char)
    requires LiteralLength(s, quote) < |s|
    ensures LiteralLength(s + x, quote) == LiteralLength(s, quote)
    decreases |s|
  {
    if |s| > 1 && s[0] == quote && s[1] == quote && quote != ']' {
      assert (s + x)[2..] == s[2..] + x;
      LiteralStable(s[2..], x, quote);
    } else if s[0] != quote {
      assert (s + x)[1..] == s[1..] + x;
      LiteralStable(s[1..], x, quote);
    }
  }

  lemma GapStable(s: string, x: string)
    requires s != [] && 0 < GapLength(s) < |s|
    ensures GapLength(s + x) == GapLength(s)
  {
    var t := s + x;
    assert t[0] == s[0] && t[1] == s[1] && t[1..] == s[1..] + x && t[2..] == s[2..] + x;
    if "--" <= s {
      assert "--" <= t;
      LineStable(s, x);
    } else if "/*" <= s {
      assert "/*" <= t;
      BlockStable(s[2..], x);
    } else {
      OpenGap(s);
      OpenGap(t);
      LiteralStable(s[1..], x, Closer(s[0]));
    }
  }

  /** Behind its first token the text is as much apart from what follows. */
  lemma ApartTail(a: string, x: string, n: nat)
    requires a != [] && x != [] && n == (if GapLength(a) == 0 then 1 else GapLength(a))
    ensures n < |a| ==> (Apart(a, x) <==> Apart(a[n..], x))
    ensures n == |a| ==> (Apart(a, x) <==> if GapLength(a) == 0 then !PairOpens(a[0], x[0]) else EndsBefore(a, x))
  {
    var head, m := FirstToken(a);
    if n < |a| {
      assert Lex(a[n..]) != [];
      assert Lex(a)[|Lex(a)| - 1] == Lex(a[n..])[|Lex(a[n..])| - 1];
    } else {
      assert a[n..] == [] && a[..n] == a;
    }
  }

  lemma StillCode(a: string, x: string)
    requires a != [] && x != [] && GapLength(a) == 0
    ensures GapLength(a + x) == 0 <==> |a| > 1 || !PairOpens(a[0], x[0])
  {
    var t := a + x;
    GapByPair(a);
    GapByPair(t);
    assert t[0] == a[0] && (if |a| > 1 then t[1] == a[1] else t[1] == x[0]);
  }

  /** The tokens of a text are those of its two parts exactly when the parts do not join. */
  lemma {:induction false} LexApartIff(a: string, x: string)
    ensures Lex(a + x) == Lex(a) + Lex(x) <==> Apart(a, x)
    decreases |a|
  {
    if a == [] {
      assert a + x == x;
    } else if x == [] {
      assert a + x == a;
    } else {
      var n := GapLength(a);
      ApartTail(a, x, if n == 0 then 1 else n);
      if n == 0 {
        LexApartCode(a, x);
        LexApartIff(a[1..], x);
      } else {
        LexApartGap(a, x, n);
        LexApartIff(a[n..], x);
      }
    }
  }

  lemma LexApartCode(a: string, x: string)
    requires a != [] && x != [] && GapLength(a) == 0
    ensures Lex(a + x) == Lex(a) + Lex(x)
       <==> (|a| > 1 || !PairOpens(a[0], x[0])) && Lex(a[1..] + x) == Lex(a[1..]) + Lex(x)
  {
    var t := a + x;
    StillCode(a, x);
    var head, n := FirstToken(t);
    var head', n' := FirstToken(a);
    SameHead(Lex(t), Lex(a), Lex(x), head, head', Lex(t[n..]), Lex(a[1..]));
    SameStart(a, x, 1, n);
  }

  lemma LexApartGap(a: string, x: string, n: nat)
    requires a != [] && x != [] && n == GapLength(a) && n > 0
    ensures Lex(a + x) == Lex(a) + Lex(x)
       <==> (n == |a| ==> EndsBefore(a, x)) && Lex(a[n..] + x) == Lex(a[n..]) + Lex(x)
  {
    var t := a + x;
    GapAhead(a, x, n);
    var head, m := FirstToken(t);
    var head', n' := FirstToken(a);
    SameHead(Lex(t), Lex(a), Lex(x), head, head', Lex(t[m..]), Lex(a[n..]));
    SameStart(a, x, n, m);
  }

  lemma SameStart(a: string, x: string, n: nat, m: nat)
    requires n <= |a| && m <= |a + x|
    ensures (a + x)[..m] == a[..n] <==> m == n
    ensures (a + x)[n..] == a[n..] + x
  {
  }

  /** A literal or comment in front stays one, and stays as long exactly when nothing joins it. */
  lemma GapAhead(a: string, x: string, n: nat)
    requires a != [] && x != [] && n == GapLength(a) && n > 0
    ensures GapLength(a + x) > 0 && (GapLength(a + x) == n <==> (n == |a| ==> EndsBefore(a, x)))
  {
    var t := a + x;
    if n < |a| {
      GapStable(a, x);
    } else {
      EndsBeforeIff(a, x);
    }
    GapByPair(a);
    GapByPair(t);
    assert t[0] == a[0] && (|a| > 1 ==> t[1] == a[1]);
  }

  lemma FirstToken(s: string) returns (head: Token, n: nat)
    requires s != []
    ensures n == (if GapLength(s) == 0 then 1 else GapLength(s)) && Lex(s) == [head] + Lex(s[n..])
    ensures if GapLength(s) == 0 then head == Code(s[0])
            else head == if Opens(s[0]) then Literal(s[..n]) else Comment(s[..n])
  {
    n := GapLength(s);
    if n == 0 {
      head, n := Code(s[0]), 1;
    } else {
      head := if Opens(s[0]) then Literal(s[..n]) else Comment(s[..n]);
    }
  }

  lemma SameHead(whole: seq<Token>, front: seq<Token>, back: seq<Token>, h: Token, h': Token, tail: seq<Token>,
                 tail': seq<Token>)
    requires whole == [h] + tail && front == [h'] + tail'
    ensures whole == front + back <==> h == h' && tail == tail' + back
  {
    assert front + back == [h'] + (tail' + back);
    assert tail == whole[1..] && (front + back)[1..] == tail' + back;
  }

  lemma {:induction false} BlankConcat(a: seq<Token>, b: seq<Token>)
    ensures Blank(a + b) == Blank(a) + Blank(b)
  {
    if a == [] {
      assert a + b == b;
    } else {
      assert (a + b)[1..] == a[1..] + b;
      BlankConcat(a[1..], b);
    }
  }

  /** A literal or comment that neither joins the text in front of it nor is gone on behind it is
      blanked to one space, and both sides are blanked by themselves. At the end of the query it need
      not be closed. */
  lemma GapBetweenText(a: string, g: string, b: string)
    requires Apart(a, g) && EndsBefore(g, b)
    ensures Blanked(a + g + b) == Blanked(a) + [' '] + Blanked(b)
  {
    assert a + g + b == a + (g + b);
    ApartBlanked(a, g + b);
    GapThenText(g, b);
    Associates(Blanked(a), [' '], Blanked(b));
  }

  lemma ApartBlanked(a: string, x: string)
    requires Apart(a, x)
    ensures Blanked(a + x) == Blanked(a) + Blanked(x)
  {
    LexApartIff(a, x);
    BlankConcat(Lex(a), Lex(x));
  }

  lemma GapThenText(g: string, b: string)
    requires EndsBefore(g, b)
    ensures Blanked(g + b) == [' '] + Blanked(b)
  {
    EndsBeforeIff(g, b);
    GapBlanked(g + b, |g|);
    assert (g + b)[|g|..] == b;
  }

  /** What stands in a literal or comment never matters: any one can be put in the place of another
      that is a token of its own there, and both forms stay the same. */
  lemma OnlyCodeMatters(a: string, g: string, g': string, b: string, upper: char -> string)
    requires Apart(a, g) && Apart(a, g') && EndsBefore(g, b) && EndsBefore(g', b)
    ensures Spaced(Blanked(a + g + b), upper) == Spaced(Blanked(a + g' + b), upper)
    ensures Compact(Blanked(a + g + b), upper) == Compact(Blanked(a + g' + b), upper)
  {
    GapBetweenText(a, g, b);
    GapBetweenText(a, g', b);
  }

  // ---------------------------------------------------------------- the two forms, word by word

  predicate Word(s: string) {
    s != [] && forall i :: 0 <= i < |s| ==> !IsSpace(s[i])
  }

  predicate White(s: string) {
    forall i :: 0 <= i < |s| ==> IsSpace(s[i])
  }

  /** Words, each with the white space behind it. */
  function Laid(words: seq<string>, gaps: seq<string>): string
    requires |words| == |gaps|
  {
    if words == [] then [] else words[0] + gaps[0] + Laid(words[1..], gaps[1..])
  }

  /** White space between all words; behind the last there may be none. */
  ghost predicate Apportioned(words: seq<string>, gaps: seq<string>) {
    && |words| == |gaps|
    && (forall i :: 0 <= i < |words| ==> Word(words[i]) && White(gaps[i]))
    && forall i :: 0 <= i < |words| - 1 ==> gaps[i] != []
  }

  /** The spaced form of a blanked query is its words with one space between them, the compact form its
      words with nothing between them, both upper-cased. */
  lemma FormsByWords(front: string, words: seq<string>, gaps: seq<string>, upper: char -> string)
    requires White(front) && Apportioned(words, gaps)
    ensures Spaced(front + Laid(words, gaps), upper) == Upper(Join(words, " "), upper)
    ensures Compact(front + Laid(words, gaps), upper) == Upper(Join(words, ""), upper)
  {
    SqueezedWords(front, words, gaps);
    DespacedBlank(front, Laid(words, gaps));
    DespacedWords(words, gaps);
  }

  lemma SqueezedWords(front: string, words: seq<string>, gaps: seq<string>)
    requires White(front) && Apportioned(words, gaps)
    ensures Trim(Squeeze(front + Laid(words, gaps))) == Join(words, " ")
  {
    var laid := Laid(words, gaps);
    LaidStarts(words, gaps);
    SqueezedBlank(front, laid);
    var tail := SqueezedLaid(words, gaps);
    JoinedEnds(words);
    var joined := Join(words, " ");
    if words == [] {
      var head := if front == [] then "" else " ";
      assert Squeeze(front + laid) == head + [];
      TrimStartBefore(head, []);
    } else {
      var head := if front == [] then "" else " ";
      assert Squeeze(front + laid) == head + (joined + tail);
      assert (joined + tail)[0] == joined[0];
      TrimStartBefore(head, joined + tail);
      TrimEndAfter(joined, tail);
    }
  }

  lemma LaidStarts(words: seq<string>, gaps: seq<string>)
    requires Apportioned(words, gaps)
    ensures words == [] ==> Laid(words, gaps) == []
    ensures words != [] ==> Laid(words, gaps) != [] && !IsSpace(Laid(words, gaps)[0])
  {
    if words != [] {
      assert Laid(words, gaps)[0] == words[0][0];
    }
  }

  /** White space in front of a text becomes one space. */
  lemma {:induction false} SqueezedBlank(front: string, rest: string)
    requires White(front) && (rest != [] ==> !IsSpace(rest[0]))
    ensures Squeeze(front + rest) == (if front == [] then "" else " ") + Squeeze(rest)
  {
    if front == [] {
      assert front + rest == rest;
    } else {
      SkippedBlank(front, rest);
    }
  }

  lemma {:induction false} SkippedBlank(front: string, rest: string)
    requires White(front) && (rest != [] ==> !IsSpace(rest[0]))
    ensures SkipSpaces(front + rest) == rest
  {
    if front == [] {
      assert front + rest == rest;
    } else {
      assert (front + rest)[1..] == front[1..] + rest;
      SkippedBlank(front[1..], rest);
    }
  }

  lemma {:induction false} SqueezedWord(word: string, rest: string)
    requires forall i :: 0 <= i < |word| ==> !IsSpace(word[i])
    ensures Squeeze(word + rest) == word + Squeeze(rest)
  {
    if word == [] {
      assert word + rest == rest;
    } else {
      assert (word + rest)[1..] == word[1..] + rest;
      SqueezedWord(word[1..], rest);
      assert [word[0]] + (word[1..] + Squeeze(rest)) == word + Squeeze(rest);
    }
  }

  lemma {:induction false} SqueezedLaid(words: seq<string>, gaps: seq<string>) returns (tail: string)
    requires Apportioned(words, gaps)
    ensures White(tail) && (words == [] ==> tail == [])
    ensures Squeeze(Laid(words, gaps)) == Join(words, " ") + tail
    decreases |words|
  {
    tail := [];
    if words != [] {
      var rest := Laid(words[1..], gaps[1..]);
      LaidStarts(words[1..], gaps[1..]);
      assert words[0] + gaps[0] + rest == words[0] + (gaps[0] + rest);
      SqueezedWord(words[0], gaps[0] + rest);
      SqueezedBlank(gaps[0], rest);
      tail := SqueezedLaid(words[1..], gaps[1..]);
      if |words| == 1 {
        tail := if gaps[0] == [] then "" else " ";
      } else {
        assert words[0] + (" " + (Join(words[1..], " ") + tail)) == Join(words, " ") + tail;
      }
    }
  }

  lemma {:induction false} JoinedEnds(words: seq<string>)
    requires forall i :: 0 <= i < |words| ==> Word(words[i])
    ensures var joined := Join(words, " ");
      words != [] ==> joined != [] && !IsSpace(joined[0]) && !IsSpace(joined[|joined| - 1])
  {
    if |words| > 1 {
      JoinedEnds(words[1..]);
    }
  }

  lemma {:induction false} DespacedBlank(front: string, rest: string)
    requires White(front)
    ensures Despace(front + rest) == Despace(rest)
  {
    if front == [] {
      assert front + rest == rest;
    } else {
      assert (front + rest)[1..] == front[1..] + rest;
      DespacedBlank(front[1..], rest);
    }
  }

  lemma {:induction false} DespacedWord(word: string, rest: string)
    requires forall i :: 0 <= i < |word| ==> !IsSpace(word[i])
    ensures Despace(word + rest) == word + Despace(rest)
  {
    if word == [] {
      assert word + rest == rest;
    } else {
      assert (word + rest)[1..] == word[1..] + rest;
      DespacedWord(word[1..], rest);
      assert [word[0]] + (word[1..] + Despace(rest)) == word + Despace(rest);
    }
  }

  lemma {:induction false} DespacedWords(words: seq<string>, gaps: seq<string>)
    requires Apportioned(words, gaps)
    ensures Despace(Laid(words, gaps)) == Join(words, "") && Trim(Join(words, "")) == Join(words, "")
    ensures forall i :: 0 <= i < |Join(words, "")| ==> !IsSpace(Join(words, "")[i])
    decreases |words|
  {
    if words != [] {
      var rest := Laid(words[1..], gaps[1..]);
      DespacedWords(words[1..], gaps[1..]);
      assert words[0] + gaps[0] + rest == words[0] + (gaps[0] + rest);
      DespacedWord(words[0], gaps[0] + rest);
      DespacedBlank(gaps[0], rest);
      assert words[0] + "" + Join(words[1..], "") == words[0] + Join(words[1..], "");
      if |words| == 1 {
        assert rest == [];
        assert words[0] + [] == words[0];
      }
      TrimIdentity(Join(words, ""));
    }
  }

  // ---------------------------------------------------------------- what is blanked, written out

  /** Quotes of three kinds and brackets, with what they enclose, become a space. */
  lemma QuotedBlanked(open: char, close: char, x: string, rest: string)
    requires (open == close && (open == '\'' || open == '"' || open == '`')) || (open == '[' && close == ']')
    requires close !in x && (rest == [] || rest[0] != close || close == ']')
    ensures Blanked([open] + x + [close] + rest) == [' '] + Blanked(rest)
  {
    var s := [open] + x + [close] + rest;
    assert s[1..] == x + [close] + rest;
    PairPrefix("--", s);
    PairPrefix("/*", s);
    LiteralSpans(x, close, rest);
    assert GapLength(s) == |x| + 2;
    GapBlanked(s, |x| + 2);
    assert s[|x| + 2..] == rest;
  }

  lemma {:induction false} LiteralSpans(x: string, close: char, rest: string)
    requires close !in x && (rest == [] || rest[0] != close || close == ']')
    ensures LiteralLength(x + [close] + rest, close) == |x| + 1
  {
    var s := x + [close] + rest;
    if x == [] {
      assert |s| > 1 ==> s[1] == rest[0];
    } else {
      assert s[1..] == x[1..] + [close] + rest;
      LiteralSpans(x[1..], close, rest);
    }
  }

  /** So do a line comment with its line feed and a block comment with its marks. */
  lemma CommentBlanked(x: string, rest: string)
    ensures '\n' !in x ==> Blanked("--" + x + "\n" + rest) == [' '] + Blanked(rest)
    ensures (forall i :: 0 <= i < |x| ==> !ClosesBlock(x, i)) ==>
      Blanked("/*" + x + "*/" + rest) == [' '] + Blanked(rest)
  {
    if '\n' !in x {
      var dashed := "--" + x;
      var s := "--" + x + "\n" + rest;
      assert s == dashed + ['\n'] + rest;
      LineSpans(dashed, rest);
      GapBlanked(s, |x| + 3);
      assert s[|x| + 3..] == rest;
    }
    if forall i :: 0 <= i < |x| ==> !ClosesBlock(x, i) {
      var s := "/*" + x + "*/" + rest;
      assert s[2..] == x + "*/" + rest;
      BlockSpans(x, rest);
      GapBlanked(s, |x| + 4);
      assert s[|x| + 4..] == rest;
    }
  }

  lemma {:induction false} LineSpans(x: string, rest: string)
    requires '\n' !in x
    ensures LineLength(x + ['\n'] + rest) == |x| + 1
  {
    if x != [] {
      assert (x + ['\n'] + rest)[1..] == x[1..] + ['\n'] + rest;
      LineSpans(x[1..], rest);
    }
  }

  lemma {:induction false} BlockSpans(x: string, rest: string)
    requires forall i :: 0 <= i < |x| ==> !ClosesBlock(x, i)
    ensures BlockLength(x + "*/" + rest) == |x| + 2
  {
    var s := x + "*/" + rest;
    if x != [] {
      assert s[1..] == x[1..] + "*/" + rest;
      assert |x| > 1 ==> s[0] == x[0] && s[1] == x[1] && !ClosesBlock(x, 0);
      assert |x| == 1 ==> s[1] == '*';
      assert forall i :: 0 <= i < |x[1..]| ==> ClosesBlock(x[1..], i) == ClosesBlock(x, i + 1);
      BlockSpans(x[1..], rest);
    }
  }

  lemma PairPrefix(pair: string, s: string)
    requires |pair| == 2 <= |s|
    ensures pair <= s <==> s[0] == pair[0] && s[1] == pair[1]
  {
  }

  /** Every other character stays as it is. */
  lemma CodeKept(c: char, rest: string)
    requires c != '\'' && c != '"' && c != '`' && c != '['
    requires rest == [] || (!(c == '-' && rest[0] == '-') && !(c == '/' && rest[0] == '*'))
    ensures Blanked([c] + rest) == [c] + Blanked(rest)
  {
    var s := [c] + rest;
    assert s[1..] == rest;
    if |s| > 1 {
      PairPrefix("--", s);
      PairPrefix("/*", s);
    }
    assert Lex(s)[1..] == Lex(rest);
  }
}
